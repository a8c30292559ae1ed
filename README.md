# piazza-attendant: a verified model of its reporting core

piazza-attendant polls a Piazza course feed. It collects the questions and
follow-ups that are still unanswered and older than a minimum age. It then
posts a summary message to a chat webhook: a ping line when
something changed recently, one line per pending item (newest first, each
with a link and its age), a "more" marker for items that did not fit, and a
hard cut at the webhook's 2000-character limit.

This project models that core in Dafny and proves properties of it:

- `Decimal`: decimal rendering of integers, the way f-strings print them.
- `AgeFormat`: `delta_to_str`, which renders an age as `XdYhZm`.
- `PendingPosts`: the `PendingPost` record, its link and its description line.
- `Seqs`: `FlatMap`, the "for each element, append its items" pattern.
- `Classifier`: `check_pending`, with the feed, the post-detail lookup and
  the check time passed in as inputs.
- `NewestFirst`: the stable newest-first sort, as a function and as an
  in-place array insertion sort proved equal to it.
- `Summary`: the message `send_pending_summary` builds, as a function and as
  the method with the source's loops.

Times are whole seconds, and thresholds are in seconds (the configured
minutes times 60).

## Model

| member | source | states |
|---|---|---|
| AgeFormat.TotalMinutes | main.py:55 | the whole minutes of an age are its seconds divided by 60, rounded down (also for negative ages) |
| AgeFormat.SplitMinutes | main.py:56-58 | minutes < 60, hours < 24, and days, hours and minutes add back up to the total minutes |
| AgeFormat.DeltaToStr | main.py:54-65 | the age string ends in `m`, is at least two characters long, and holds only digits and `d`/`h`/`m` |
| AgeFormat.DeltaToStrSegments | main.py:60-65 | the string ends with the minutes and `m`; it contains `h` exactly when hours > 0 and `d` exactly when days > 0 |
| AgeFormat.DeltaToStrEqualIff | main.py:54-65 | for non-negative ages, two age strings are equal exactly when the ages fall in the same whole minute |
| AgeFormat.RenderInjective | main.py:60-65 | distinct non-negative day/hour/minute splits render to distinct strings |
| AgeFormat.NegativeDeltaLooksADayOlder | main.py:55-65 | an age up to one day in the future renders exactly like the same age one day in the past |
| Decimal.NatToString | main.py:60 | a natural number renders as a non-empty digit string with no leading zero |
| Decimal.NatToStringRoundTrip | main.py:60 | reading the digits back gives the number rendered |
| Decimal.IntToStringInjective | main.py:81 | distinct integers render differently, negative ones included |
| Decimal.NatToStringShort | main.py:167 | a number below 10^k takes at most k digits (zero takes one) |
| PendingPosts.LinkIdentifiesPost | main.py:80-81 | within one course, two links are equal exactly when the post numbers are |
| PendingPosts.NoCommaInAge | main.py:85-86 | an age string has no comma |
| PendingPosts.AnnotationSingleIff | main.py:84-90 | the single-age form is chosen exactly when creation and update ages render alike |
| PendingPosts.AgeStringRule | main.py:84-90 | for an item created and modified no later than now: the one-age form exactly when both ages fall in the same whole minute, and the two-age form otherwise |
| PendingPosts.DescribePending | main.py:83-91 | the description starts with `Unanswered ` and ends, after a space, with the age annotation of the item's creation and modification ages at `now` (whose form AgeStringRule fixes) |
| Seqs.FlatMapMembership | main.py:101-135 | an item is in the joined output exactly when some element contributes it |
| Seqs.FlatMapLength | main.py:101-135 | with at most k items per element, the output has at most k times as many items as elements |
| Classifier.CollectFollowups | main.py:122-135 | the follow-up loop returns the follow-up items of the qualifying children, in child order |
| Classifier.CheckPost | main.py:102-135 | the per-post body returns that post's Question item, then its Follow-up items, and the detail lookups it makes |
| Classifier.CheckPending | main.py:97-136 | the loop returns the classification of the whole feed and the log of detail lookups |
| Classifier.ClassifyAppend | main.py:101-136 | classifying a feed in two parts and joining them is classifying the whole feed |
| Classifier.ClassifyAround | main.py:101-136 | around any post, the output is: items before it, its Question item, its Follow-up items, items after it |
| Classifier.SilentPostContributesNothing | main.py:103-120 | a post that is not an unanswered question and has no unanswered follow-up counter can be removed without changing the output |
| Classifier.ClassifyQuestions | main.py:103-117 | the Question items in the output are exactly those of the qualifying feed posts |
| Classifier.ClassifyFollowups | main.py:120-135 | the Follow-up items in the output are exactly those of qualifying children of posts with a positive follow-up counter |
| Classifier.EveryItemIsOldEnough | main.py:108-126 | every reported item was created strictly more than `min_threshold` before the check time, and carries the course id |
| Classifier.FetchLogBounds | main.py:104-121 | at most two detail lookups per feed post, each for a feed post's id |
| Classifier.PostFetches | main.py:104-121 | one post causes at most two detail lookups |
| NewestFirst.Insert | main.py:146 | insertion keeps the items, adding exactly the one inserted |
| NewestFirst.InsertNewestFirst | main.py:146 | inserting into a newest-first list keeps it newest first |
| NewestFirst.SortNewestFirst | main.py:146 | the sort is a permutation of its input and newest first |
| NewestFirst.InsertCreatedAt | main.py:146 | insertion puts the item first among the items with its creation time, and leaves the order of the others unchanged |
| NewestFirst.SortKeepsOrderPerTime | main.py:146 | the sort keeps the input order among items with equal creation time |
| NewestFirst.StableSortUnique | main.py:146 | two newest-first lists with the same order per creation time are equal |
| NewestFirst.IsStableSortOfIsSort | main.py:146 | any stable newest-first ordering of the input is the one SortNewestFirst gives |
| NewestFirst.CreatedAtAppend | main.py:146 | the items with a given creation time, in order, split over a concatenation |
| NewestFirst.SwapKeepsOrderPerTime | main.py:146 | swapping two neighbours with different creation times keeps the order per creation time |
| NewestFirst.SinkIntoPlace | main.py:146 | sinking one element into a newest-first prefix extends the prefix, leaves the rest alone and keeps the order per time |
| NewestFirst.SortInPlace | main.py:146 | the in-place sort leaves in the array exactly the stable newest-first order of its old contents |
| Summary.ListedCountFits | main.py:158-164 | the listed lines fit the 1950-character budget, and listing stops only where the next line would overflow it |
| Summary.ListedIsLongestFittingPrefix | main.py:158-164 | a non-empty prefix of the sorted items fits the budget exactly when it is no longer than the listed count |
| Summary.MarkerIffOverflow | main.py:166-167 | the "N more" marker is added exactly when the whole listing after the ping would overflow the budget |
| Summary.MessageFitsWithoutCut | main.py:156-172 | with a ping that fits the budget and under ten million items, the message is at most 1970 characters and is never cut |
| Summary.Truncate | main.py:169-172 | the content is at most 2000 characters; a message of at most 1997 characters is sent as is; a longer one keeps its first 1997 characters and ends with `...` |
| Summary.TruncateKeepsPrefix | main.py:172 | the cut keeps any leading text of at most 1997 characters |
| Summary.NeedsPingIgnoresOrder | main.py:146-153 | whether to ping is the same on the sorted list as on the input |
| Summary.PingLeadsContent | main.py:148-153 | when some item was modified within `max_threshold` and the notify message is shorter than 1997 characters, the content begins with the notify message and a newline |
| Summary.QuietContentIgnoresNotify | main.py:148-153 | when no item was modified within `max_threshold`, the content does not depend on the notify message |
| Summary.SummaryContent | main.py:138-172 | there is no content exactly when nothing is pending, and the content is at most 2000 characters |
| Summary.PingLine | main.py:148-153 | the ping loop adds the notify line exactly when some item is recent |
| Summary.ListLines | main.py:158-164 | the listing loop takes the greedy count of lines and appends exactly those lines, in order |
| Summary.SendPendingSummary | main.py:138-172 | the array ends up stable newest first, and the content is the SummaryContent of the old contents |

## Left out

- Configuration (`tomllib`, `argv`) and the Piazza login (`getpass`) are not modelled. The thresholds, the notify message and the course id are parameters.
- Network calls are not modelled: `course.get_feed`, `course.get_post` (with its one-second `time.sleep`) and `requests.post`. The feed and the post-detail lookup are inputs; the lookups made are returned as a log of ids; the webhook content is returned as an `Option`, and the fixed `username` field is left out.
- `check_loop` and its sleeping and scheduling are not modelled.
- `datetime.now` and `dateutil.parser.parse` are not modelled. Timestamps are already-parsed whole seconds, and the check time is a parameter. Sub-second precision and timestamps that fail to parse (which raise in the source) are not captured.
- AgeFormat.TotalMinutes: models `math.floor(d / timedelta(minutes=1))` as floor division of whole seconds, not as floating-point division.
- `textwrap.shorten` is a function parameter `shorten`. Its 80-character width and `...` placeholder are not modelled, so no bound on a description's length is proved.
- NewestFirst.SortNewestFirst: states only the order Python's `sort(key=..., reverse=True)` produces (stable, newest first), not the Timsort algorithm.
- Summary.ListLines: takes the line renderer as a parameter. SendPendingSummary passes it the `- ...` line of DescribePending.
- Summary.Truncate: does not state that `r == msg` only for messages of at most 1997 characters. A 2000-character message that already ends in `...` is also left unchanged.
- DeltaToStrEqualIff, RenderInjective, AgeStringRule: stated for non-negative ages only. NegativeDeltaLooksADayOlder shows that negative ages wrap around a day.
- Missing fields are not modelled. In the source, a feed post or follow-up that lacks a required field raises `KeyError` and ends the cycle. Examples: `no_answer_followup` (main.py:120), a child's `created` and `updated` (main.py:124-125). The model's records make these fields mandatory; only a child's `no_answer` may be absent.
- The two post-detail lookups of one post (main.py:104 and main.py:121) are separate network calls in the source and could return different data. The model answers both from one deterministic lookup, `Cycle.detail`.
