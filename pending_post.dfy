/** The `PendingPost` record (main.py:67-91): one unanswered question or
    follow-up, its permalink and the line that describes it. */
module PendingPosts {
  import opened AgeFormat
  import opened Decimal

  datatype Kind = Question | Followup {
    /** The label `PendingPost.Question` / `PendingPost.Followup`. */
    function Name(): string {
      match this
      case Question => "question"
      case Followup => "followup"
    }
  }

  /** Times are whole seconds since a fixed epoch. */
  datatype PendingPost = PendingPost(
    kind: Kind,
    id: string,
    subject: string,
    creationTime: int,
    modifiedTime: int,
    postNum: int,
    courseId: string)

  const LinkPrefix := "https://piazza.com/class/"

  /** `PendingPost.link`: the permalink of the thread the item belongs to.
      The ensures only name the link's three parts for the proofs that slice
      it; the property about links is LinkIdentifiesPost. */
  function Link(p: PendingPost): (r: string)
    ensures |LinkPrefix| + |p.courseId| <= |r|
    ensures r[..|LinkPrefix|] == LinkPrefix
    ensures r[|LinkPrefix|..|LinkPrefix| + |p.courseId|] == p.courseId
    ensures r[|LinkPrefix| + |p.courseId|..] == "/post/" + IntToString(p.postNum)
  {
    LinkPrefix + p.courseId + "/post/" + IntToString(p.postNum)
  }

  /** Within one course, the permalink identifies the post number. */
  lemma LinkIdentifiesPost(p: PendingPost, q: PendingPost)
    requires p.courseId == q.courseId
    ensures Link(p) == Link(q) <==> p.postNum == q.postNum
  {
    if Link(p) == Link(q) {
      var n := |LinkPrefix| + |p.courseId| + |"/post/"|;
      assert IntToString(p.postNum) == Link(p)[n..] == Link(q)[n..] == IntToString(q.postNum);
      IntToStringInjective(p.postNum, q.postNum);
    }
  }

  function SingleAge(createAge: string): string {
    "(created " + createAge + " ago)"
  }

  function DoubleAge(createAge: string, modifyAge: string): string {
    "(created " + createAge + " ago, updated " + modifyAge + " ago)"
  }

  /** The annotation for a creation age and a modification age. */
  function Annotation(createAge: string, modifyAge: string): string {
    if createAge == modifyAge then SingleAge(createAge) else DoubleAge(createAge, modifyAge)
  }

  /** The age annotation of `describe_pending` for an item created
      `created` and modified `modified` seconds ago: one age when the two age
      strings agree, both otherwise. */
  function AgeString(created: int, modified: int): string {
    Annotation(DeltaToStr(created), DeltaToStr(modified))
  }

  lemma NoCommaInAge(seconds: int)
    ensures ',' !in DeltaToStr(seconds)
  {
    var r := DeltaToStr(seconds);
    forall i | 0 <= i < |r| ensures r[i] != ',' {
      assert IsAgeChar(r[i]);
    }
  }

  /** A single-form annotation never spells a two-age one. */
  lemma SingleIsNotDouble(a: string, b: string, c: string)
    requires ',' !in a
    ensures SingleAge(a) != DoubleAge(b, c)
  {
    assert ',' !in SingleAge(a);
    assert DoubleAge(b, c)[9 + |b| + 4] == ',';
  }

  /** For a comma-free creation age the annotation has the single form
      exactly when the two ages are the same string. */
  lemma AnnotationSingleIff(createAge: string, modifyAge: string)
    requires ',' !in createAge
    ensures Annotation(createAge, modifyAge) == SingleAge(createAge) <==> createAge == modifyAge
  {
    if createAge != modifyAge {
      SingleIsNotDouble(createAge, createAge, modifyAge);
    }
  }

  /** The age rule of `describe_pending`: for an item created and modified
      `a` and `b` seconds ago (neither in the future), the annotation has the
      single form exactly when the two ages are the same whole number of
      minutes, and names both ages otherwise. */
  lemma AgeStringRule(a: int, b: int)
    requires a >= 0 && b >= 0
    ensures AgeString(a, b) == SingleAge(DeltaToStr(a)) <==> a / 60 == b / 60
    ensures a / 60 != b / 60 ==> AgeString(a, b) == DoubleAge(DeltaToStr(a), DeltaToStr(b))
  {
    DeltaToStrEqualIff(a, b);
    NoCommaInAge(a);
    AnnotationSingleIff(DeltaToStr(a), DeltaToStr(b));
  }

  /** The part of `describe_pending` before the ages: kind, shortened subject
      and link; `shorten` stands for
      `textwrap.shorten(subject, width=80, placeholder='...')`. */
  function DescribeHead(p: PendingPost, shorten: string -> string): (r: string)
    ensures |r| > |"Unanswered "| + |p.kind.Name()| && r[..11] == "Unanswered " && r[|r| - 1] == ' '
  {
    "Unanswered " + p.kind.Name() + ": [" + shorten(p.subject) + "](<" + Link(p) + ">) "
  }

  /** `describe_pending` without the leading "- " and trailing newline of
      its list line: the head, then the age annotation of the item's ages at
      `now`. */
  function DescribePending(p: PendingPost, now: int, shorten: string -> string): (r: string)
    ensures |r| > |"Unanswered "| + |p.kind.Name()| && r[..11] == "Unanswered "
    ensures var ages := AgeString(now - p.creationTime, now - p.modifiedTime);
      |r| > |ages| && r[|r| - |ages| - 1] == ' ' && r[|r| - |ages|..] == ages
  {
    DescribeHead(p, shorten) + AgeString(now - p.creationTime, now - p.modifiedTime)
  }
}
