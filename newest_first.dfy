/** `pending.sort(key=lambda x: x.creation_time, reverse=True)`
    (main.py:146): a stable sort, newest creation time first. Python's sort
    is stable also with `reverse=True`: items created at the same time keep
    their input order. */
module NewestFirst {
  import opened PendingPosts

  /** Newest first: creation times never increase along the sequence. */
  predicate IsNewestFirst(s: seq<PendingPost>) {
    forall i, j | 0 <= i < j < |s| :: s[i].creationTime >= s[j].creationTime
  }

  /** The items of `s` created at time `t`, in their order in `s`. */
  function CreatedAt(s: seq<PendingPost>, t: int): seq<PendingPost> {
    if s == [] then [] else (if s[0].creationTime == t then [s[0]] else []) + CreatedAt(s[1..], t)
  }

  /** `r` lists, for every creation time, the same items in the same order as `s`. */
  ghost predicate SameOrderPerTime(r: seq<PendingPost>, s: seq<PendingPost>) {
    forall t :: CreatedAt(r, t) == CreatedAt(s, t)
  }

  /** `r` is the stable newest-first sort of `s`. */
  ghost predicate IsStableSortOf(r: seq<PendingPost>, s: seq<PendingPost>) {
    IsNewestFirst(r) && SameOrderPerTime(r, s)
  }

  /** `x` placed before the first item that is not newer than it. */
  function Insert(x: PendingPost, s: seq<PendingPost>): (r: seq<PendingPost>)
    ensures multiset(r) == multiset(s) + multiset{x}
  {
    if s == [] || s[0].creationTime <= x.creationTime then [x] + s
    else
      assert s == [s[0]] + s[1..];
      [s[0]] + Insert(x, s[1..])
  }

  lemma ConsNewestFirst(h: PendingPost, rest: seq<PendingPost>)
    requires IsNewestFirst(rest)
    requires forall k | 0 <= k < |rest| :: rest[k].creationTime <= h.creationTime
    ensures IsNewestFirst([h] + rest)
  {
  }

  /** Inserting into a newest-first sequence keeps it newest first. */
  lemma {:induction false} InsertNewestFirst(x: PendingPost, s: seq<PendingPost>)
    requires IsNewestFirst(s)
    ensures IsNewestFirst(Insert(x, s))
  {
    if s == [] || s[0].creationTime <= x.creationTime {
      ConsNewestFirst(x, s);
    } else {
      var rest := Insert(x, s[1..]);
      InsertNewestFirst(x, s[1..]);
      forall k | 0 <= k < |rest| ensures rest[k].creationTime <= s[0].creationTime {
        assert rest[k] in multiset(rest);
        if rest[k] != x {
          assert rest[k] in multiset(s[1..]);
        }
      }
      ConsNewestFirst(s[0], rest);
    }
  }

  /** Stable insertion sort, newest first. */
  function SortNewestFirst(s: seq<PendingPost>): (r: seq<PendingPost>)
    ensures multiset(r) == multiset(s)
    ensures IsNewestFirst(r)
  {
    if s == [] then [] else
      assert s == [s[0]] + s[1..];
      InsertNewestFirst(s[0], SortNewestFirst(s[1..]));
      Insert(s[0], SortNewestFirst(s[1..]))
  }

  /** The inserted item comes first among the items with its creation time;
      the items of every other time keep their order. */
  lemma {:induction false} InsertCreatedAt(x: PendingPost, s: seq<PendingPost>, t: int)
    ensures CreatedAt(Insert(x, s), t) == (if x.creationTime == t then [x] else []) + CreatedAt(s, t)
  {
    if s == [] || s[0].creationTime <= x.creationTime {
      assert ([x] + s)[1..] == s;
    } else {
      InsertCreatedAt(x, s[1..], t);
      assert ([s[0]] + Insert(x, s[1..]))[1..] == Insert(x, s[1..]);
    }
  }

  /** The sort keeps the input order among items created at the same time. */
  lemma {:induction false} SortKeepsOrderPerTime(s: seq<PendingPost>)
    ensures SameOrderPerTime(SortNewestFirst(s), s)
  {
    if s != [] {
      SortKeepsOrderPerTime(s[1..]);
      forall t ensures CreatedAt(SortNewestFirst(s), t) == CreatedAt(s, t) {
        InsertCreatedAt(s[0], SortNewestFirst(s[1..]), t);
      }
    }
  }

  lemma SortIsStableSort(s: seq<PendingPost>)
    ensures IsStableSortOf(SortNewestFirst(s), s)
  {
    SortKeepsOrderPerTime(s);
  }

  lemma {:induction false} CreatedAtNonEmpty(s: seq<PendingPost>, t: int)
    requires CreatedAt(s, t) != []
    ensures exists i | 0 <= i < |s| :: s[i].creationTime == t
  {
    if s[0].creationTime != t {
      CreatedAtNonEmpty(s[1..], t);
      var i :| 0 <= i < |s[1..]| && s[1..][i].creationTime == t;
      assert s[i + 1].creationTime == t;
    }
  }

  /** There is only one stable newest-first order of a sequence. */
  lemma {:induction false} StableSortUnique(r1: seq<PendingPost>, r2: seq<PendingPost>)
    requires IsNewestFirst(r1) && IsNewestFirst(r2) && SameOrderPerTime(r1, r2)
    ensures r1 == r2
  {
    // a first item shows up at its own time in both, so both are empty or neither
    if r1 != [] {
      assert CreatedAt(r2, r1[0].creationTime) == CreatedAt(r1, r1[0].creationTime) != [];
    }
    if r2 != [] {
      assert CreatedAt(r1, r2[0].creationTime) == CreatedAt(r2, r2[0].creationTime) != [];
    }
    if r1 != [] {
      var t1, t2 := r1[0].creationTime, r2[0].creationTime;
      CreatedAtNonEmpty(r2, t1);
      CreatedAtNonEmpty(r1, t2);
      assert t1 == t2;
      assert CreatedAt(r1, t1)[0] == r1[0] && CreatedAt(r2, t1)[0] == r2[0];
      assert r1[0] == r2[0];
      forall t ensures CreatedAt(r1[1..], t) == CreatedAt(r2[1..], t) {
        var h := if t == t1 then [r1[0]] else [];
        assert CreatedAt(r1, t) == h + CreatedAt(r1[1..], t);
        assert CreatedAt(r2, t) == h + CreatedAt(r2[1..], t);
        assert CreatedAt(r1, t) == CreatedAt(r2, t);
        assert CreatedAt(r1[1..], t) == CreatedAt(r1, t)[|h|..];
        assert CreatedAt(r2[1..], t) == CreatedAt(r2, t)[|h|..];
      }
      StableSortUnique(r1[1..], r2[1..]);
      assert r1 == [r1[0]] + r1[1..] && r2 == [r2[0]] + r2[1..];
    }
  }

  /** Any stable newest-first order of `s` is the one SortNewestFirst builds. */
  lemma IsStableSortOfIsSort(r: seq<PendingPost>, s: seq<PendingPost>)
    requires IsStableSortOf(r, s)
    ensures r == SortNewestFirst(s)
  {
    SortIsStableSort(s);
    StableSortUnique(r, SortNewestFirst(s));
  }

  lemma {:induction false} CreatedAtAppend(a: seq<PendingPost>, b: seq<PendingPost>, t: int)
    ensures CreatedAt(a + b, t) == CreatedAt(a, t) + CreatedAt(b, t)
  {
    if a == [] {
      assert a + b == b;
    } else {
      var h := if a[0].creationTime == t then [a[0]] else [];
      assert (a + b)[0] == a[0];
      assert (a + b)[1..] == a[1..] + b;
      CreatedAtAppend(a[1..], b, t);
      assert CreatedAt(a + b, t) == h + CreatedAt(a[1..] + b, t);
    }
  }

  /** Swapping two neighbours created at different times keeps every
      per-time order. */
  lemma SwapKeepsOrderPerTime(s: seq<PendingPost>, j: nat)
    requires 0 < j < |s| && s[j - 1].creationTime != s[j].creationTime
    ensures SameOrderPerTime(s[j - 1 := s[j]][j := s[j - 1]], s)
  {
    var s' := s[j - 1 := s[j]][j := s[j - 1]];
    var pre, x, y, post := s[..j - 1], s[j - 1], s[j], s[j + 1..];
    assert s == pre + [x, y] + post;
    assert s' == pre + [y, x] + post;
    forall t ensures CreatedAt(s', t) == CreatedAt(s, t) {
      CreatedAtAppend(pre + [x, y], post, t);
      CreatedAtAppend(pre, [x, y], t);
      CreatedAtAppend(pre + [y, x], post, t);
      CreatedAtAppend(pre, [y, x], t);
      assert [x, y][1..] == [y] && [y, x][1..] == [x];
    }
  }

  /** The in-place sinking step's state: the first `i + 1` items are newest
      first except around position `j`, and the item at `j` is newer than
      everything after it up to `i`. */
  ghost predicate SinkingAt(s: seq<PendingPost>, i: nat, j: nat) {
    && j <= i < |s|
    && (forall p, q | 0 <= p < q <= i && p != j && q != j :: s[p].creationTime >= s[q].creationTime)
    && (forall q | j < q <= i :: s[j].creationTime > s[q].creationTime)
  }

  lemma SinkingDone(s: seq<PendingPost>, i: nat, j: nat)
    requires SinkingAt(s, i, j)
    requires j == 0 || s[j - 1].creationTime >= s[j].creationTime
    ensures IsNewestFirst(s[..i + 1])
  {
  }

  lemma SinkingStep(s: seq<PendingPost>, i: nat, j: nat)
    requires SinkingAt(s, i, j) && 0 < j && s[j - 1].creationTime < s[j].creationTime
    ensures SinkingAt(s[j - 1 := s[j]][j := s[j - 1]], i, j - 1)
  {
  }

  /** Moves the item at `i` left past every older item before it, so that
      a newest-first prefix of length `i` grows to one of length `i + 1`;
      items created at the same time are never swapped. */
  method SinkIntoPlace(a: array<PendingPost>, i: nat)
    requires i < a.Length && IsNewestFirst(a[..i])
    modifies a
    ensures IsNewestFirst(a[..i + 1])
    ensures a[i + 1..] == old(a[i + 1..])
    ensures SameOrderPerTime(a[..], old(a[..]))
  {
    var j: nat := i;
    while j > 0 && a[j - 1].creationTime < a[j].creationTime
      invariant SinkingAt(a[..], i, j)
      invariant a[i + 1..] == old(a[i + 1..])
      invariant SameOrderPerTime(a[..], old(a[..]))
    {
      ghost var before := a[..];
      a[j - 1], a[j] := a[j], a[j - 1];
      assert a[..] == before[j - 1 := before[j]][j := before[j - 1]];
      SwapKeepsOrderPerTime(before, j);
      SinkingStep(before, i, j);
      j := j - 1;
    }
    SinkingDone(a[..], i, j);
  }

  /** Insertion sort in place (Python's own algorithm is not modelled, only
      the order it produces). */
  method SortInPlace(a: array<PendingPost>)
    modifies a
    ensures a[..] == SortNewestFirst(old(a[..]))
  {
    for i := 0 to a.Length
      invariant IsNewestFirst(a[..i])
      invariant SameOrderPerTime(a[..], old(a[..]))
    {
      SinkIntoPlace(a, i);
    }
    assert a[..] == a[..a.Length];
    IsStableSortOfIsSort(a[..], old(a[..]));
  }
}
