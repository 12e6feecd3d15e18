/** Sequence helpers: `filter`-like passes, written once over any element
    type. */
module Seqs {

  /** Each element replaced by the (possibly empty) sequence `g` gives it,
      in order: the shape of `filter` and of a `forEach` that pushes. */
  function FlatMap<A, B>(xs: seq<A>, g: A -> seq<B>): seq<B>
    decreases |xs|
  {
    if |xs| == 0 then [] else FlatMap(xs[..|xs| - 1], g) + g(xs[|xs| - 1])
  }

  /** The pass distributes over concatenation, so it keeps input order. */
  lemma {:induction false} FlatMapAppend<A, B>(a: seq<A>, b: seq<A>, g: A -> seq<B>)
    ensures FlatMap(a + b, g) == FlatMap(a, g) + FlatMap(b, g)
    decreases |b|
  {
    if |b| == 0 {
      assert a + b == a;
    } else {
      var b' := b[..|b| - 1];
      FlatMapAppend(a, b', g);
      var ab := a + b;
      assert ab[..|ab| - 1] == a + b';
      assert ab[|ab| - 1] == b[|b| - 1];
    }
  }

  /** A sequence holds its prefix's elements and its last one. */
  lemma MultisetSnoc<T>(s: seq<T>)
    requires |s| > 0
    ensures multiset(s) == multiset(s[..|s| - 1]) + multiset{s[|s| - 1]}
  {
    assert s == s[..|s| - 1] + [s[|s| - 1]];
  }
}
