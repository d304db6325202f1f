/** Facts about sequences that several modules need. */
module Sequences {

  lemma Associative<T>(a: seq<T>, b: seq<T>, c: seq<T>)
    ensures (a + b) + c == a + (b + c)
  {
  }

  function Flatten<T>(chunks: seq<seq<T>>): seq<T> {
    if chunks == [] then [] else chunks[0] + Flatten(chunks[1..])
  }

  lemma {:induction false} FlattenSnoc<T>(chunks: seq<seq<T>>, chunk: seq<T>)
    ensures Flatten(chunks + [chunk]) == Flatten(chunks) + chunk
  {
    if chunks == [] {
      assert [chunk][1..] == [];
    } else {
      assert (chunks + [chunk])[1..] == chunks[1..] + [chunk];
      FlattenSnoc(chunks[1..], chunk);
      Associative(chunks[0], Flatten(chunks[1..]), chunk);
    }
  }

  lemma {:induction false} FlattenLength<T>(chunks: seq<seq<T>>, n: nat)
    requires n <= |chunks|
    ensures |Flatten(chunks[..n])| <= |Flatten(chunks)|
  {
    if n > 0 {
      assert chunks[..n][1..] == chunks[1..][..n - 1];
      FlattenLength(chunks[1..], n - 1);
    }
  }

  lemma TailMultiset<T>(xs: seq<T>)
    requires xs != []
    ensures multiset(xs[1..]) == multiset(xs) - multiset{xs[0]}
  {
    assert xs == [xs[0]] + xs[1..];
  }

  /** One element moves from the head of `xs` to the end of `a`. */
  lemma OneMore<T>(a: seq<T>, xs: seq<T>, k: nat)
    requires k < |xs|
    ensures xs[1..][k..] == xs[k + 1..]
    ensures (a + [xs[0]]) + xs[1..][..k] == a + xs[..k + 1]
  {
    assert xs[..k + 1] == [xs[0]] + xs[1..][..k];
  }

  predicate NoRepeat<T(==)>(xs: seq<T>) {
    forall i, j :: 0 <= i < j < |xs| ==> xs[i] != xs[j]
  }

  lemma NoRepeatSnoc<T>(xs: seq<T>, x: T)
    requires NoRepeat(xs) && x !in xs
    ensures NoRepeat(xs + [x])
  {
  }

  predicate Increasing(ids: seq<nat>) {
    forall i, j :: 0 <= i < j < |ids| ==> ids[i] < ids[j]
  }

  lemma IncreasingSnoc(ids: seq<nat>, id: nat)
    requires Increasing(ids) && forall x <- ids :: x < id
    ensures Increasing(ids + [id])
  {
    forall i | 0 <= i < |ids| ensures ids[i] < id {
      assert ids[i] in ids;
    }
  }

  lemma IncreasingWithout(ids: seq<nat>, n: nat, rest: seq<nat>)
    requires Increasing(ids) && n < |ids| && rest == ids[..n] + ids[n + 1..]
    ensures Increasing(rest) && forall id <- rest :: id in ids
  {
    var step := (k: int) => if k < n then k else k + 1;
    assert forall k :: 0 <= k < |rest| ==> rest[k] == ids[step(k)];
    forall i, j | 0 <= i < j < |rest| ensures rest[i] < rest[j] {
      assert rest[i] == ids[step(i)] && rest[j] == ids[step(j)];
    }
  }
}
