/** `check_pending` (main.py:97-136): which questions and follow-ups of the
    course feed are pending. The feed, the post-detail lookup and the check
    time are inputs; times are whole seconds. */
module Classifier {
  import opened Wrappers
  import opened PendingPosts
  import opened Seqs

  /** One entry of the course feed. */
  datatype FeedPost = FeedPost(
    id: string,
    postType: string,
    noAnswer: int,
    noAnswerFollowup: int,
    subject: string,
    modified: int,
    nr: int)

  /** One follow-up of a post; `noAnswer` may be missing. */
  datatype Child = Child(
    id: string,
    subject: string,
    noAnswer: Option<int>,
    created: int,
    updated: int)

  /** What the post-detail lookup returns for a post. */
  datatype PostDetail = PostDetail(created: int, children: seq<Child>)

  /** What one polling cycle classifies against: the post-detail lookup, the
      check time, `min_threshold` in seconds and the course id. */
  datatype Cycle = Cycle(
    detail: string -> PostDetail,
    now: int,
    minThreshold: int,
    courseId: string)

  predicate OldEnough(created: int, cx: Cycle) {
    created + cx.minThreshold < cx.now
  }

  /** The feed-side test of main.py:103. */
  predicate IsUnansweredQuestion(post: FeedPost) {
    post.postType == "question" && post.noAnswer != 0
  }

  /** The feed-side test of main.py:120. */
  predicate HasUnansweredFollowups(post: FeedPost) {
    post.noAnswerFollowup > 0
  }

  /** All that decides whether `post` yields a Question item. */
  predicate QualifiesAsQuestion(post: FeedPost, cx: Cycle) {
    IsUnansweredQuestion(post) && OldEnough(cx.detail(post.id).created, cx)
  }

  /** All that decides whether a child yields a Follow-up item. */
  predicate QualifiesAsFollowup(child: Child, cx: Cycle) {
    child.noAnswer.Some? && child.noAnswer.value != 0 && OldEnough(child.created, cx)
  }

  /** The Question item: creation time from the detail record, modification
      time from the feed record. */
  function QuestionItem(post: FeedPost, cx: Cycle): PendingPost {
    PendingPost(Question, post.id, post.subject, cx.detail(post.id).created, post.modified, post.nr, cx.courseId)
  }

  /** A Follow-up item: the child's own id, subject and times, the parent's number. */
  function FollowupItem(child: Child, post: FeedPost, cx: Cycle): PendingPost {
    PendingPost(Followup, child.id, child.subject, child.created, child.updated, post.nr, cx.courseId)
  }

  /** What one feed post contributes as a Question: its item if it qualifies.
      The ensures restate the test for later proofs; the property about the
      Question items is ClassifyQuestions. */
  function QuestionItems(post: FeedPost, cx: Cycle): (r: seq<PendingPost>)
    ensures r != [] <==> QualifiesAsQuestion(post, cx)
    ensures r != [] ==> r == [QuestionItem(post, cx)]
  {
    if IsUnansweredQuestion(post) && OldEnough(cx.detail(post.id).created, cx) then [QuestionItem(post, cx)] else []
  }

  /** What one child contributes: its Follow-up item if it qualifies. */
  function ChildItem(post: FeedPost, cx: Cycle): Child -> seq<PendingPost> {
    child => if QualifiesAsFollowup(child, cx) then [FollowupItem(child, post, cx)] else []
  }

  /** The Follow-up items of `children`, in order. */
  function ChildItems(children: seq<Child>, post: FeedPost, cx: Cycle): seq<PendingPost> {
    FlatMap(children, ChildItem(post, cx))
  }

  function FollowupItems(post: FeedPost, cx: Cycle): seq<PendingPost> {
    if HasUnansweredFollowups(post) then ChildItems(cx.detail(post.id).children, post, cx) else []
  }

  /** What one feed post contributes: its Question item, if any, then its
      Follow-up items. */
  function PostItems(cx: Cycle): FeedPost -> seq<PendingPost> {
    post => QuestionItems(post, cx) + FollowupItems(post, cx)
  }

  /** The pending items of a feed, post by post in feed order. */
  function Classify(feed: seq<FeedPost>, cx: Cycle): seq<PendingPost> {
    FlatMap(feed, PostItems(cx))
  }

  /** The post-detail lookups of one post: one per test it passes, each
      issued separately (nothing is cached between the two). */
  function PostFetches(post: FeedPost): (r: seq<string>)
    ensures |r| <= 2
  {
    (if IsUnansweredQuestion(post) then [post.id] else [])
    + (if HasUnansweredFollowups(post) then [post.id] else [])
  }

  /** The ids passed to the post-detail lookup over a whole feed, in order. */
  function FetchLog(feed: seq<FeedPost>): seq<string> {
    FlatMap(feed, PostFetches)
  }

  /** The inner loop of check_pending (main.py:122-135): the Follow-up items
      of one post's children. */
  method CollectFollowups(children: seq<Child>, post: FeedPost, cx: Cycle) returns (items: seq<PendingPost>)
    ensures items == ChildItems(children, post, cx)
  {
    items := [];
    for j := 0 to |children|
      invariant items == ChildItems(children[..j], post, cx)
    {
      var child := children[j];
      FlatMapStep(children, j, ChildItem(post, cx));
      if child.noAnswer.Some? && child.noAnswer.value != 0 {
        var followupTime := child.created;
        var modifyTime := child.updated;
        if followupTime + cx.minThreshold < cx.now {
          items := items + [PendingPost(Followup, child.id, child.subject, followupTime, modifyTime, post.nr, cx.courseId)];
        }
      }
    }
    assert children[..|children|] == children;
  }

  /** The body of check_pending's feed loop (main.py:102-135): what one
      post contributes, and the post-detail lookups made for it. */
  method CheckPost(post: FeedPost, cx: Cycle) returns (items: seq<PendingPost>, lookups: seq<string>)
    ensures items == PostItems(cx)(post)
    ensures lookups == PostFetches(post)
  {
    items, lookups := [], [];
    if post.postType == "question" && post.noAnswer != 0 {
      var postDetail := cx.detail(post.id);
      lookups := lookups + [post.id];
      var postTime := postDetail.created;
      var modifyTime := post.modified;
      if postTime + cx.minThreshold < cx.now {
        items := items + [PendingPost(Question, post.id, post.subject, postTime, modifyTime, post.nr, cx.courseId)];
      }
    }
    if post.noAnswerFollowup > 0 {
      var postDetail := cx.detail(post.id);
      lookups := lookups + [post.id];
      var followups := CollectFollowups(postDetail.children, post, cx);
      items := items + followups;
    }
  }

  /** check_pending: walks the feed, looks up post detail where a test
      passes, and appends the pending items it finds. `fetched` records the
      lookups in the order they are made. */
  method CheckPending(feed: seq<FeedPost>, cx: Cycle) returns (pending: seq<PendingPost>, fetched: seq<string>)
    ensures pending == Classify(feed, cx)
    ensures fetched == FetchLog(feed)
  {
    pending, fetched := [], [];
    for i := 0 to |feed|
      invariant pending == Classify(feed[..i], cx)
      invariant fetched == FetchLog(feed[..i])
    {
      var items, lookups := CheckPost(feed[i], cx);
      FlatMapStep(feed, i, PostItems(cx));
      FlatMapStep(feed, i, PostFetches);
      pending := pending + items;
      fetched := fetched + lookups;
    }
    assert feed[..|feed|] == feed;
  }

  // -----------------------------------------------------------------------
  // Properties of the classification.

  /** Classifying a feed in two parts and joining the results is classifying
      the whole feed: the output keeps feed order. */
  lemma ClassifyAppend(a: seq<FeedPost>, b: seq<FeedPost>, cx: Cycle)
    ensures Classify(a + b, cx) == Classify(a, cx) + Classify(b, cx)
  {
    FlatMapAppend(a, b, PostItems(cx));
  }

  /** Around any post of the feed, the output is what comes before it, then
      its Question item, then its Follow-up items, then what comes after. */
  lemma ClassifyAround(feed: seq<FeedPost>, i: nat, cx: Cycle)
    requires i < |feed|
    ensures Classify(feed, cx)
            == Classify(feed[..i], cx) + QuestionItems(feed[i], cx) + FollowupItems(feed[i], cx) + Classify(feed[i + 1..], cx)
  {
    FlatMapAround(feed, i, PostItems(cx));
  }

  /** A post that is not an unanswered question and has no unanswered
      follow-up counter contributes nothing: removing it leaves the output as
      it was. */
  lemma SilentPostContributesNothing(feed: seq<FeedPost>, i: nat, cx: Cycle)
    requires i < |feed|
    requires !IsUnansweredQuestion(feed[i]) && !HasUnansweredFollowups(feed[i])
    ensures Classify(feed, cx) == Classify(feed[..i] + feed[i + 1..], cx)
  {
    ClassifyAround(feed, i, cx);
    ClassifyAppend(feed[..i], feed[i + 1..], cx);
  }

  /** The Question items of the output are exactly those of the posts that
      qualify. */
  lemma ClassifyQuestions(feed: seq<FeedPost>, cx: Cycle, p: PendingPost)
    ensures (p in Classify(feed, cx) && p.kind == Question)
            <==> exists i | 0 <= i < |feed| :: QualifiesAsQuestion(feed[i], cx) && p == QuestionItem(feed[i], cx)
  {
    FlatMapMembership(feed, PostItems(cx), p);
    if p.kind == Question {
      forall post: FeedPost ensures p !in FollowupItems(post, cx) {
        FlatMapMembership(cx.detail(post.id).children, ChildItem(post, cx), p);
      }
    }
  }

  /** `post` yields the Follow-up item `p`. */
  predicate YieldsFollowup(post: FeedPost, cx: Cycle, p: PendingPost) {
    var children := cx.detail(post.id).children;
    && HasUnansweredFollowups(post)
    && exists j | 0 <= j < |children| :: QualifiesAsFollowup(children[j], cx) && p == FollowupItem(children[j], post, cx)
  }

  /** The Follow-up items of the output are exactly those the posts yield:
      one per qualifying child of a post whose follow-up counter is positive. */
  lemma ClassifyFollowups(feed: seq<FeedPost>, cx: Cycle, p: PendingPost)
    ensures (p in Classify(feed, cx) && p.kind == Followup)
            <==> exists i | 0 <= i < |feed| :: YieldsFollowup(feed[i], cx, p)
  {
    FlatMapMembership(feed, PostItems(cx), p);
    forall post: FeedPost ensures (p in PostItems(cx)(post) && p.kind == Followup) <==> YieldsFollowup(post, cx, p) {
      FlatMapMembership(cx.detail(post.id).children, ChildItem(post, cx), p);
    }
  }

  /** Every item reported was created strictly more than `min_threshold`
      before the check time and belongs to the cycle's course. */
  lemma EveryItemIsOldEnough(feed: seq<FeedPost>, cx: Cycle, p: PendingPost)
    requires p in Classify(feed, cx)
    ensures p.creationTime + cx.minThreshold < cx.now
    ensures p.courseId == cx.courseId
  {
    if p.kind == Question {
      ClassifyQuestions(feed, cx, p);
    } else {
      ClassifyFollowups(feed, cx, p);
    }
  }

  /** At most two lookups per post, each for the id of a feed post. */
  lemma FetchLogBounds(feed: seq<FeedPost>)
    ensures |FetchLog(feed)| <= 2 * |feed|
    ensures forall id | id in FetchLog(feed) :: exists i | 0 <= i < |feed| :: id == feed[i].id
  {
    FlatMapLength(feed, PostFetches, 2);
    forall id | id in FetchLog(feed) ensures exists i | 0 <= i < |feed| :: id == feed[i].id {
      FlatMapMembership(feed, PostFetches, id);
    }
  }
}
