/** Sequences used as the keys of an insertion-ordered Python dict. */
module Dict {

  ghost predicate Distinct<T(!new)>(xs: seq<T>) {
    forall i, j :: 0 <= i < j < |xs| ==> xs[i] != xs[j]
  }

  // `d.pop(x, None)` on the keys of an insertion-ordered dict.
  function Remove<T(==)>(xs: seq<T>, x: T): (r: seq<T>)
    ensures |r| <= |xs|
  {
    if xs == [] then [] else if xs[0] == x then xs[1..] else [xs[0]] + Remove(xs[1..], x)
  }

  function PositionOf<T(==)>(xs: seq<T>, x: T): (i: nat)
    requires x in xs
    ensures i < |xs| && xs[i] == x
  {
    if xs[0] == x then 0 else 1 + PositionOf(xs[1..], x)
  }

  lemma RemoveAbsent<T>(xs: seq<T>, x: T)
    requires x !in xs
    ensures Remove(xs, x) == xs
  {
  }

  lemma {:induction false} RemoveAt<T>(xs: seq<T>, i: nat)
    requires i < |xs| && xs[i] !in xs[..i]
    ensures Remove(xs, xs[i]) == xs[..i] + xs[i + 1..]
  {
    if i > 0 {
      assert xs[0] in xs[..i];
      assert xs[1..][..i - 1] == xs[..i][1..];
      RemoveAt(xs[1..], i - 1);
    }
  }

  lemma DistinctWithout<T(!new)>(xs: seq<T>, i: nat)
    requires i < |xs| && Distinct(xs)
    ensures Distinct(xs[..i] + xs[i + 1..]) && xs[i] !in xs[..i] + xs[i + 1..]
  {
    var rest := xs[..i] + xs[i + 1..];
    assert forall k :: 0 <= k < |rest| ==> rest[k] == if k < i then xs[k] else xs[k + 1];
  }
}
