/** The message half of `send_pending_summary` (main.py:138-172): sort the
    pending items newest first, prepend the ping line when some item was
    modified recently, list item lines greedily within a 1950-character
    budget, mark what was left out, and cut the result to the webhook's
    2000-character limit. The result is the would-be webhook `content`. */
module Summary {
  import opened Wrappers
  import opened Decimal
  import opened PendingPosts
  import opened NewestFirst
  import opened Seqs

  /** `max_len` of the listing loop (main.py:156). */
  const ListBudget := 1950
  /** `max_len` of the final cut (main.py:169): 2000 minus room for "...". */
  const ContentBudget := 2000 - 3

  /** Modified less than `max_threshold` before `now`. */
  predicate IsRecent(p: PendingPost, now: int, maxThreshold: int) {
    p.modifiedTime + maxThreshold > now
  }

  predicate NeedsPing(s: seq<PendingPost>, now: int, maxThreshold: int) {
    exists i | 0 <= i < |s| :: IsRecent(s[i], now, maxThreshold)
  }

  /** The ping text and a newline, or nothing. */
  function PingPrefix(s: seq<PendingPost>, now: int, maxThreshold: int, notify: string): string {
    if NeedsPing(s, now, maxThreshold) then notify + "\n" else ""
  }

  /** `f'- {p.describe_pending(current_time)}\n'`. */
  function ItemLine(p: PendingPost, now: int, shorten: string -> string): string {
    "- " + DescribePending(p, now, shorten) + "\n"
  }

  function LineOf(now: int, shorten: string -> string): PendingPost -> string {
    p => ItemLine(p, now, shorten)
  }

  /** The lines of `items`, joined in order. */
  function Listing(items: seq<PendingPost>, line: PendingPost -> string): string {
    FlatMap(items, line)
  }

  /** How many items the greedy listing takes when `used` characters are
      already in the message: it stops at the first line that would push the
      message past ListBudget. */
  function ListedCount(items: seq<PendingPost>, used: nat, line: PendingPost -> string): (k: nat)
    ensures k <= |items|
  {
    if items == [] || used + |line(items[0])| > ListBudget then 0
    else 1 + ListedCount(items[1..], used + |line(items[0])|, line)
  }

  /** The greedy count lists lines within the budget and stops only where the
      next line would overflow it. */
  lemma {:induction false} ListedCountFits(items: seq<PendingPost>, used: nat, line: PendingPost -> string)
    ensures var k := ListedCount(items, used, line);
      (k > 0 ==> used + |Listing(items[..k], line)| <= ListBudget) &&
      (k < |items| ==> used + |Listing(items[..k], line)| + |line(items[k])| > ListBudget)
  {
    if items != [] && used + |line(items[0])| <= ListBudget {
      var rest := ListedCount(items[1..], used + |line(items[0])|, line);
      ListedCountFits(items[1..], used + |line(items[0])|, line);
      ListingCons(items, rest + 1, line);
    }
  }

  /** A prefix of `k` items lists the first item's line, then the rest. */
  lemma ListingCons(items: seq<PendingPost>, k: nat, line: PendingPost -> string)
    requires 0 < k <= |items|
    ensures Listing(items[..k], line) == line(items[0]) + Listing(items[1..][..k - 1], line)
  {
    assert items[..k] == [items[0]] + items[1..][..k - 1];
    FlatMapAppend([items[0]], items[1..][..k - 1], line);
    FlatMapOne(items[0], line);
  }

  /** A longer prefix lists at least as many characters. */
  lemma ListingGrows(items: seq<PendingPost>, j: nat, k: nat, line: PendingPost -> string)
    requires j <= k <= |items|
    ensures |Listing(items[..j], line)| <= |Listing(items[..k], line)|
  {
    assert items[..k] == items[..j] + items[j..k];
    FlatMapAppend(items[..j], items[j..k], line);
  }

  /** The listed items are exactly the longest prefix whose lines fit: a
      prefix of `j` items fits within the budget iff `j` is at most the count. */
  lemma ListedIsLongestFittingPrefix(items: seq<PendingPost>, used: nat, line: PendingPost -> string, j: nat)
    requires 0 < j <= |items|
    ensures used + |Listing(items[..j], line)| <= ListBudget <==> j <= ListedCount(items, used, line)
  {
    var k := ListedCount(items, used, line);
    ListedCountFits(items, used, line);
    if j <= k {
      ListingGrows(items, j, k, line);
    } else {
      FlatMapStep(items, k, line);
      ListingGrows(items, k + 1, j, line);
    }
  }

  /** One step of the greedy listing, starting at item `i`. */
  lemma ListedCountStep(items: seq<PendingPost>, i: nat, used: nat, line: PendingPost -> string)
    requires i < |items|
    ensures used + |line(items[i])| > ListBudget ==> ListedCount(items[i..], used, line) == 0
    ensures used + |line(items[i])| <= ListBudget ==>
      ListedCount(items[i..], used, line) == 1 + ListedCount(items[i + 1..], used + |line(items[i])|, line)
  {
    assert items[i..][0] == items[i] && items[i..][1..] == items[i + 1..];
  }

  /** `*(N more...)*`. */
  function MoreMarker(omitted: nat): string {
    "*(" + NatToString(omitted) + " more...)*"
  }

  /** The marker for `total` items of which `listed` were listed. */
  function Marker(total: nat, listed: nat): string {
    if listed < total then MoreMarker(total - listed) else ""
  }

  /** The message assembled from its parts: the listing of the greedy count
      and its marker. */
  lemma MessageOfParts(sorted: seq<PendingPost>, prefix: string, line: PendingPost -> string, count: nat, listed: string, full: string)
    requires count == ListedCount(sorted, |prefix|, line)
    requires listed == prefix + Listing(sorted[..count], line)
    requires full == listed + Marker(|sorted|, count)
    ensures full == Message(sorted, prefix, line)
  {
  }

  /** The message before the final cut, for items already sorted. */
  function Message(sorted: seq<PendingPost>, prefix: string, line: PendingPost -> string): string {
    var k := ListedCount(sorted, |prefix|, line);
    prefix + Listing(sorted[..k], line) + Marker(|sorted|, k)
  }

  /** `msg[:1997] + (msg[1997:] and '...')`. */
  function Truncate(msg: string): (r: string)
    ensures |r| <= ContentBudget + 3
    ensures |msg| <= ContentBudget ==> r == msg
    ensures |msg| > ContentBudget ==> |r| == ContentBudget + 3 && r[..ContentBudget] == msg[..ContentBudget] && r[ContentBudget..] == "..."
  {
    (if |msg| <= ContentBudget then msg else msg[..ContentBudget])
    + (if |msg| > ContentBudget then "..." else "")
  }

  /** The webhook content send_pending_summary would post, or None for an
      empty list. */
  function SummaryContent(pending: seq<PendingPost>, now: int, maxThreshold: int, notify: string, shorten: string -> string): (r: Option<string>)
    ensures r.None? <==> pending == []
    ensures r.Some? ==> |r.value| <= 2000
  {
    if |pending| <= 0 then None
    else
      var sorted := SortNewestFirst(pending);
      Some(Truncate(Message(sorted, PingPrefix(sorted, now, maxThreshold, notify), LineOf(now, shorten))))
  }

  /** Whether to ping depends only on which items are pending, not on their
      order, so checking the sorted list is checking the input. */
  lemma NeedsPingIgnoresOrder(s: seq<PendingPost>, now: int, maxThreshold: int)
    ensures NeedsPing(SortNewestFirst(s), now, maxThreshold) <==> NeedsPing(s, now, maxThreshold)
  {
    var r := SortNewestFirst(s);
    if NeedsPing(s, now, maxThreshold) {
      var i :| 0 <= i < |s| && IsRecent(s[i], now, maxThreshold);
      assert s[i] in multiset(r);
      var j :| 0 <= j < |r| && r[j] == s[i];
    }
    if NeedsPing(r, now, maxThreshold) {
      var j :| 0 <= j < |r| && IsRecent(r[j], now, maxThreshold);
      assert r[j] in multiset(s);
      var i :| 0 <= i < |s| && s[i] == r[j];
    }
  }

  /** The "N more" marker is added exactly when the whole listing, after the
      ping, would not fit the listing budget. */
  lemma MarkerIffOverflow(sorted: seq<PendingPost>, prefix: string, line: PendingPost -> string)
    requires sorted != []
    ensures ListedCount(sorted, |prefix|, line) < |sorted| <==> |prefix| + |Listing(sorted, line)| > ListBudget
  {
    assert sorted[..|sorted|] == sorted;
    ListedIsLongestFittingPrefix(sorted, |prefix|, line, |sorted|);
  }

  /** With a ping line that leaves room for listing and fewer than ten million
      items, the message is never cut: it stays within 1970 characters. */
  lemma MessageFitsWithoutCut(sorted: seq<PendingPost>, prefix: string, line: PendingPost -> string)
    requires |prefix| <= ListBudget && |sorted| < 10_000_000
    ensures |Message(sorted, prefix, line)| <= ListBudget + 20
    ensures Truncate(Message(sorted, prefix, line)) == Message(sorted, prefix, line)
  {
    var k := ListedCount(sorted, |prefix|, line);
    ListedCountFits(sorted, |prefix|, line);
    if k != |sorted| {
      assert Pow10(7) == 10_000_000 by {
        assert Pow10(3) == 1000;
      }
      NatToStringShort(|sorted| - k, 7);
    }
  }

  /** When an item was modified recently, the content begins with the ping
      text and a newline. */
  lemma PingLeadsContent(pending: seq<PendingPost>, now: int, maxThreshold: int, notify: string, shorten: string -> string)
    requires pending != [] && NeedsPing(pending, now, maxThreshold) && |notify| < ContentBudget
    ensures var c := SummaryContent(pending, now, maxThreshold, notify, shorten).value;
      |c| > |notify| && c[..|notify| + 1] == notify + "\n"
  {
    var sorted := SortNewestFirst(pending);
    NeedsPingIgnoresOrder(pending, now, maxThreshold);
    var prefix := PingPrefix(sorted, now, maxThreshold, notify);
    assert prefix == notify + "\n";
    var m := Message(sorted, prefix, LineOf(now, shorten));
    assert m[..|prefix|] == prefix;
    TruncateKeepsPrefix(m, prefix);
  }

  /** The cut keeps any leading text that fits its budget. */
  lemma TruncateKeepsPrefix(msg: string, prefix: string)
    requires |prefix| <= ContentBudget && |prefix| <= |msg| && msg[..|prefix|] == prefix
    ensures |Truncate(msg)| >= |prefix| && Truncate(msg)[..|prefix|] == prefix
  {
    if |msg| > ContentBudget {
      assert Truncate(msg)[..|prefix|] == Truncate(msg)[..ContentBudget][..|prefix|];
    }
  }

  /** When no item was modified recently, the ping text does not appear: the
      content is the same whatever it is. */
  lemma QuietContentIgnoresNotify(pending: seq<PendingPost>, now: int, maxThreshold: int, notify: string, other: string, shorten: string -> string)
    requires !NeedsPing(pending, now, maxThreshold)
    ensures SummaryContent(pending, now, maxThreshold, notify, shorten) == SummaryContent(pending, now, maxThreshold, other, shorten)
  {
    NeedsPingIgnoresOrder(pending, now, maxThreshold);
  }

  /** The ping loop of main.py:149-153: the first recent item adds the ping
      line and ends the scan. */
  method PingLine(a: array<PendingPost>, now: int, maxThreshold: int, notify: string) returns (msg: string)
    ensures msg == PingPrefix(a[..], now, maxThreshold, notify)
  {
    msg := "";
    var i := 0;
    while i < a.Length
      invariant 0 <= i <= a.Length
      invariant forall j :: 0 <= j < i ==> !IsRecent(a[j], now, maxThreshold)
    {
      if a[i].modifiedTime + maxThreshold > now {
        msg := notify + "\n";
        assert IsRecent(a[..][i], now, maxThreshold);
        return;
      }
      i := i + 1;
    }
  }

  /** The listing loop of main.py:158-164, appending to `start` the lines
      that fit. `line` renders one item; send_pending_summary passes
      LineOf, the `- ...` line of DescribePending. */
  method ListLines(a: array<PendingPost>, start: string, line: PendingPost -> string) returns (msg: string, count: nat)
    ensures count == ListedCount(a[..], |start|, line)
    ensures msg == start + Listing(a[..count], line)
  {
    msg := start;
    count := 0;
    while count < a.Length
      invariant count <= a.Length
      invariant msg == start + Listing(a[..count], line)
      invariant ListedCount(a[..], |start|, line) == count + ListedCount(a[count..], |msg|, line)
    {
      var txt := line(a[count]);
      ListedCountStep(a[..], count, |msg|, line);
      if |txt| + |msg| > ListBudget {
        return;
      }
      FlatMapStep(a[..], count, line);
      assert a[..][..count + 1] == a[..count + 1];
      msg := msg + txt;
      count := count + 1;
    }
    assert a[count..] == [];
  }

  /** The message construction of send_pending_summary: `pending` ends up
      sorted newest first, as in the source, and the content is the one
      SummaryContent describes for the unsorted input. */
  method SendPendingSummary(pending: array<PendingPost>, now: int, maxThreshold: int, notify: string, shorten: string -> string)
    returns (content: Option<string>)
    modifies pending
    ensures pending[..] == SortNewestFirst(old(pending[..]))
    ensures content == SummaryContent(old(pending[..]), now, maxThreshold, notify, shorten)
  {
    if pending.Length <= 0 {
      return None;
    }
    SortInPlace(pending);
    var msg := PingLine(pending, now, maxThreshold, notify);
    ghost var prefix := msg;
    var listCount;
    msg, listCount := ListLines(pending, msg, LineOf(now, shorten));
    ghost var listed := msg;
    if listCount != pending.Length {
      var more := "*(" + NatToString(pending.Length - listCount) + " more...)*";
      msg := msg + more;
    }
    assert msg == listed + Marker(pending.Length, listCount);
    MessageOfParts(pending[..], prefix, LineOf(now, shorten), listCount, listed, msg);
    ghost var full := msg;
    msg := (if |msg| <= ContentBudget then msg else msg[..ContentBudget])
      + (if |msg| > ContentBudget then "..." else "");
    assert msg == Truncate(full);
    content := Some(msg);
  }
}
