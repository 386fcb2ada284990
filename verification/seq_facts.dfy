/** Two ways of taking a non-empty sequence apart, stated once so that
    proofs can use them as plain equalities, and the concatenation of one
    sequence per element. */
module SeqFacts {

  /** A non-empty sequence is its front followed by its last element. */
  lemma FrontLast<T>(xs: seq<T>)
    requires |xs| > 0
    ensures xs == xs[..|xs| - 1] + [xs[|xs| - 1]]
  {
  }

  /** A non-empty sequence is its first element followed by its tail. */
  lemma HeadTail<T>(xs: seq<T>)
    requires |xs| > 0
    ensures xs == [xs[0]] + xs[1..]
  {
  }

  /** `f(x)` for every `x` of `xs`, concatenated in order. */
  function FlatMap<A, T>(xs: seq<A>, f: A -> seq<T>): seq<T>
    decreases |xs|
  {
    if |xs| == 0 then [] else f(xs[0]) + FlatMap(xs[1..], f)
  }

  /** An element is in the concatenation exactly when it is in the part of
      some element. */
  lemma {:induction false} FlatMapMember<A, T>(xs: seq<A>, f: A -> seq<T>, t: T)
    ensures t in FlatMap(xs, f) <==> exists k :: 0 <= k < |xs| && t in f(xs[k])
    decreases |xs|
  {
    if |xs| > 0 {
      var rest := xs[1..];
      FlatMapMember(rest, f, t);
      if exists k :: 0 <= k < |rest| && t in f(rest[k]) {
        var k :| 0 <= k < |rest| && t in f(rest[k]);
        assert rest[k] == xs[k + 1];
      }
      if exists k :: 0 <= k < |xs| && t in f(xs[k]) {
        var k :| 0 <= k < |xs| && t in f(xs[k]);
        if k > 0 {
          assert xs[k] == rest[k - 1];
        }
      }
    }
  }
}
