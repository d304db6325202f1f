/** `Array.prototype.sort` with a comparator: stable, by a key that the comparator reads. */
module Order {

  /** `x` goes behind everything that is not after it. */
  function Insert<T>(x: T, xs: seq<T>, key: T -> int): (r: seq<T>)
    ensures |r| == |xs| + 1
  {
    if xs != [] && key(xs[0]) <= key(x) then [xs[0]] + Insert(x, xs[1..], key) else [x] + xs
  }

  /** Ascending by key, equal keys in the order given. */
  function Sort<T>(xs: seq<T>, key: T -> int): (r: seq<T>)
    ensures |r| == |xs|
  {
    if xs == [] then [] else Insert(xs[|xs| - 1], Sort(xs[..|xs| - 1], key), key)
  }

  ghost predicate Ascending<T>(xs: seq<T>, key: T -> int) {
    forall i, j :: 0 <= i < j < |xs| ==> key(xs[i]) <= key(xs[j])
  }

  lemma {:induction false} InsertHolds<T>(x: T, xs: seq<T>, key: T -> int)
    ensures multiset(Insert(x, xs, key)) == multiset(xs) + multiset{x}
  {
    if xs != [] && key(xs[0]) <= key(x) {
      InsertHolds(x, xs[1..], key);
      assert xs == [xs[0]] + xs[1..];
    }
  }

  lemma {:induction false} InsertAscends<T>(x: T, xs: seq<T>, key: T -> int)
    requires Ascending(xs, key)
    ensures Ascending(Insert(x, xs, key), key)
  {
    if xs != [] && key(xs[0]) <= key(x) {
      var tail := xs[1..];
      assert forall i :: 0 <= i < |tail| ==> tail[i] == xs[i + 1];
      InsertAscends(x, tail, key);
      HeadStaysLeast(x, xs, key);
    }
  }

  lemma HeadStaysLeast<T>(x: T, xs: seq<T>, key: T -> int)
    requires xs != [] && key(xs[0]) <= key(x) && Ascending(xs, key)
    ensures forall y <- Insert(x, xs[1..], key) :: key(xs[0]) <= key(y)
  {
    InsertHolds(x, xs[1..], key);
    forall y | y in Insert(x, xs[1..], key) ensures key(xs[0]) <= key(y) {
      assert y in multiset(Insert(x, xs[1..], key));
      assert y == x || y in xs[1..];
    }
  }

  lemma {:induction false} SortKeeps<T>(xs: seq<T>, key: T -> int)
    ensures multiset(Sort(xs, key)) == multiset(xs) && Ascending(Sort(xs, key), key)
  {
    if xs != [] {
      var init := xs[..|xs| - 1];
      SortKeeps(init, key);
      InsertHolds(xs[|xs| - 1], Sort(init, key), key);
      InsertAscends(xs[|xs| - 1], Sort(init, key), key);
      assert xs == init + [xs[|xs| - 1]];
    }
  }
}
