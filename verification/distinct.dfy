/** First-occurrence de-duplication, the list idiom both loops of the page
    search use: `if x not in acc: acc.append(x)`. */
module Distinct {
  import opened SeqFacts

  /** No element occurs twice. */
  predicate NoDup<T(==,!new)>(xs: seq<T>) {
    forall i, j :: 0 <= i < j < |xs| ==> xs[i] != xs[j]
  }

  /** Appends each element of `xs`, in order, to `acc` unless it is already
      there. `acc` stays a prefix, nothing new is duplicated, and exactly the
      elements of `acc` and `xs` end up in the result. */
  function AppendNew<T(==,!new)>(acc: seq<T>, xs: seq<T>): (r: seq<T>)
    ensures acc <= r
    ensures |r| <= |acc| + |xs|
    ensures NoDup(acc) ==> NoDup(r)
    ensures forall x :: x in r <==> x in acc || x in xs
    decreases |xs|
  {
    if |xs| == 0 then acc
    else
      var next := if xs[0] in acc then acc else acc + [xs[0]];
      assert forall x :: x in xs <==> x == xs[0] || x in xs[1..] by {
        assert xs == [xs[0]] + xs[1..];
      }
      AppendNew(next, xs[1..])
  }

  /** `xs` with every repeated element dropped after its first occurrence. */
  function Dedup<T(==,!new)>(xs: seq<T>): (r: seq<T>)
    ensures |r| <= |xs|
    ensures NoDup(r)
    ensures forall x :: x in r <==> x in xs
  {
    AppendNew([], xs)
  }

  /** In a duplicate-free list, a prefix holding element `j` holds every
      earlier element too. */
  lemma PrefixHoldsEarlier<T(!new)>(p: seq<T>, r: seq<T>, i: nat, j: nat)
    requires p <= r && NoDup(r)
    requires i < j < |r| && r[j] in p
    ensures r[i] in p
  {
    var m :| 0 <= m < |p| && p[m] == r[j];
    assert r[m] == r[j];
    assert p[i] == r[i];
  }

  /** Appending a concatenation is appending one part after the other. */
  lemma {:induction false} AppendNewConcat<T(!new)>(acc: seq<T>, xs: seq<T>, ys: seq<T>)
    ensures AppendNew(acc, xs + ys) == AppendNew(AppendNew(acc, xs), ys)
    decreases |xs|
  {
    if |xs| > 0 {
      var next := if xs[0] in acc then acc else acc + [xs[0]];
      assert (xs + ys)[0] == xs[0];
      assert (xs + ys)[1..] == xs[1..] + ys;
      AppendNewConcat(next, xs[1..], ys);
    } else {
      assert xs + ys == ys;
    }
  }

  /** One more element is appended exactly when it is new. */
  lemma AppendNewSnoc<T(!new)>(acc: seq<T>, xs: seq<T>, x: T)
    ensures AppendNew(acc, xs + [x]) ==
      var r := AppendNew(acc, xs); if x in r then r else r + [x]
  {
    AppendNewConcat(acc, xs, [x]);
    var r := AppendNew(acc, xs);
    assert AppendNew(if x in r then r else r + [x], []) == if x in r then r else r + [x];
  }

  /** De-duplicating the input first does not change what gets appended:
      `acc` followed by the new elements of `xs`, first occurrence first. */
  lemma {:induction false} AppendNewDedup<T(!new)>(acc: seq<T>, xs: seq<T>)
    ensures AppendNew(acc, Dedup(xs)) == AppendNew(acc, xs)
    decreases |xs|
  {
    if |xs| > 0 {
      AppendNewDedup(acc, xs[..|xs| - 1]);
      AppendNewDedupStep(acc, xs);
    }
  }

  lemma AppendNewDedupStep<T(!new)>(acc: seq<T>, xs: seq<T>)
    requires |xs| > 0
    requires AppendNew(acc, Dedup(xs[..|xs| - 1])) == AppendNew(acc, xs[..|xs| - 1])
    ensures AppendNew(acc, Dedup(xs)) == AppendNew(acc, xs)
  {
    var front := xs[..|xs| - 1];
    var x := xs[|xs| - 1];
    FrontLast(xs);
    var d := Dedup(front);
    var r := AppendNew(acc, front);
    AppendNewSnoc([], front, x);
    AppendNewSnoc(acc, front, x);
    if x in front {
      assert Dedup(front + [x]) == d;
      assert x in r;
    } else {
      assert Dedup(front + [x]) == d + [x];
      AppendNewSnoc(acc, d, x);
    }
  }

  /** The titles found in any prefix of the input come first, in the same
      order, in the result for the whole input. */
  lemma DedupPrefix<T(!new)>(xs: seq<T>, k: nat)
    requires k <= |xs|
    ensures Dedup(xs[..k]) <= Dedup(xs)
  {
    assert xs == xs[..k] + xs[k..];
    AppendNewConcat([], xs[..k], xs[k..]);
  }

  /** A list without duplicates is left as it is. */
  lemma {:induction false} DedupOfNoDup<T(!new)>(xs: seq<T>)
    requires NoDup(xs)
    ensures Dedup(xs) == xs
    decreases |xs|
  {
    if |xs| > 0 {
      var front := xs[..|xs| - 1];
      var x := xs[|xs| - 1];
      FrontLast(xs);
      assert NoDup(front);
      DedupOfNoDup(front);
      AppendNewSnoc([], front, x);
      assert x !in front;
    }
  }

  /** Index of the first occurrence of `x` in `xs`. */
  function IndexOf<T(==,!new)>(xs: seq<T>, x: T): (i: nat)
    requires x in xs
    ensures i < |xs| && xs[i] == x && x !in xs[..i]
  {
    if xs[0] == x then 0
    else
      assert xs == [xs[0]] + xs[1..];
      var i := 1 + IndexOf(xs[1..], x);
      assert xs[..i] == [xs[0]] + xs[1..][..i - 1];
      i
  }

  /** First-seen order: of two results, the one met first in the input
      comes first. */
  lemma {:induction false} DedupOrder<T(!new)>(xs: seq<T>, i: nat, j: nat)
    requires i < j < |Dedup(xs)|
    ensures IndexOf(xs, Dedup(xs)[i]) < IndexOf(xs, Dedup(xs)[j])
    decreases |xs|
  {
    var front := xs[..|xs| - 1];
    var x := xs[|xs| - 1];
    FrontLast(xs);
    AppendNewSnoc([], front, x);
    var d := Dedup(front);
    var r := Dedup(xs);
    assert r == if x in front then d else d + [x];
    assert r[i] == d[i] && d[i] in front;
    IndexOfPrefix(front, [x], d[i]);
    if j < |d| {
      DedupOrder(front, i, j);
      assert r[j] == d[j] && d[j] in front;
      IndexOfPrefix(front, [x], d[j]);
    } else {
      assert r[j] == x && x !in front;
      assert xs[..|front|] == front;
    }
  }

  lemma {:induction false} IndexOfPrefix<T(!new)>(xs: seq<T>, ys: seq<T>, y: T)
    requires y in xs
    ensures IndexOf(xs + ys, y) == IndexOf(xs, y)
    decreases |xs|
  {
    if xs[0] != y {
      assert (xs + ys)[1..] == xs[1..] + ys;
      assert xs == [xs[0]] + xs[1..];
      IndexOfPrefix(xs[1..], ys, y);
    }
  }
}
