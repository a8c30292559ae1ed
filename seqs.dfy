/** Mapping each element of a sequence to a sequence and joining the
    results in order: the shape of every "for each x: append what x gives"
    loop of the source. */
module Seqs {

  function FlatMap<A, B>(s: seq<A>, f: A -> seq<B>): seq<B> {
    if s == [] then [] else FlatMap(s[..|s| - 1], f) + f(s[|s| - 1])
  }

  lemma {:induction false} FlatMapAppend<A, B>(a: seq<A>, b: seq<A>, f: A -> seq<B>)
    ensures FlatMap(a + b, f) == FlatMap(a, f) + FlatMap(b, f)
  {
    if b == [] {
      assert a + b == a;
    } else {
      var b' := b[..|b| - 1];
      assert (a + b)[..|a + b| - 1] == a + b';
      assert (a + b)[|a + b| - 1] == b[|b| - 1];
      FlatMapAppend(a, b', f);
    }
  }

  /** One more element of a prefix adds what that element gives. */
  lemma FlatMapStep<A, B>(s: seq<A>, i: nat, f: A -> seq<B>)
    requires i < |s|
    ensures FlatMap(s[..i + 1], f) == FlatMap(s[..i], f) + f(s[i])
  {
    assert s[..i + 1][..i] == s[..i];
  }

  lemma FlatMapOne<A, B>(x: A, f: A -> seq<B>)
    ensures FlatMap([x], f) == f(x)
  {
    assert [x][..0] == [];
  }

  /** Around element `i`: what comes before it, what it gives, what comes after. */
  lemma FlatMapAround<A, B>(s: seq<A>, i: nat, f: A -> seq<B>)
    requires i < |s|
    ensures FlatMap(s, f) == FlatMap(s[..i], f) + f(s[i]) + FlatMap(s[i + 1..], f)
  {
    assert s == s[..i] + [s[i]] + s[i + 1..];
    FlatMapAppend(s[..i] + [s[i]], s[i + 1..], f);
    FlatMapAppend(s[..i], [s[i]], f);
    FlatMapOne(s[i], f);
  }

  /** An element of the result comes from some element of the input. */
  lemma {:induction false} FlatMapMembership<A, B>(s: seq<A>, f: A -> seq<B>, y: B)
    ensures y in FlatMap(s, f) <==> exists i | 0 <= i < |s| :: y in f(s[i])
  {
    if s != [] {
      var init := s[..|s| - 1];
      FlatMapMembership(init, f, y);
      assert forall i | 0 <= i < |init| :: init[i] == s[i];
    }
  }

  /** Each element contributing at most `k` gives at most `k` per element. */
  lemma {:induction false} FlatMapLength<A, B>(s: seq<A>, f: A -> seq<B>, k: nat)
    requires forall i | 0 <= i < |s| :: |f(s[i])| <= k
    ensures |FlatMap(s, f)| <= k * |s|
  {
    if s != [] {
      var init := s[..|s| - 1];
      assert forall i | 0 <= i < |init| :: init[i] == s[i];
      FlatMapLength(init, f, k);
    }
  }
}
