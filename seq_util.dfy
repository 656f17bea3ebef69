/** Sequence helpers shared by the store and the selectors: the first-occurrence
    search of `Array.prototype.indexOf` and `String.prototype.indexOf`, and
    duplicate-freedom, on which the order invariants rest. */
module SeqUtil {

  /** Every element occurs at most once. */
  predicate NoDuplicates<T(==)>(xs: seq<T>)
  {
    forall i, j | 0 <= i < j < |xs| :: xs[i] != xs[j]
  }

  /** Position of the first occurrence of `x` in `xs`, or -1 when there is none. */
  function IndexOf<T(==)>(xs: seq<T>, x: T): (k: int)
    ensures -1 <= k < |xs|
    ensures k == -1 <==> x !in xs
    ensures 0 <= k ==> xs[k] == x && forall j | 0 <= j < k :: xs[j] != x
  {
    if xs == [] then -1
    else if xs[0] == x then 0
    else
      var k := IndexOf(xs[1..], x);
      if k < 0 then -1 else k + 1
  }

  /** In a duplicate-free sequence the first occurrence is the only one. */
  lemma IndexOfUnique<T>(xs: seq<T>, k: int)
    requires NoDuplicates(xs) && 0 <= k < |xs|
    ensures IndexOf(xs, xs[k]) == k
  {
  }

  /** The sequence with the elements at positions `i` and `j` exchanged. */
  function SwapAt<T>(xs: seq<T>, i: nat, j: nat): (r: seq<T>)
    requires i < |xs| && j < |xs|
    ensures |r| == |xs| && r[i] == xs[j] && r[j] == xs[i]
    ensures forall k | 0 <= k < |xs| && k != i && k != j :: r[k] == xs[k]
    ensures multiset(r) == multiset(xs)
  {
    var r := xs[i := xs[j]][j := xs[i]];
    SwapAtPermutes(xs, i, j);
    r
  }

  lemma SwapAtPermutes<T>(xs: seq<T>, i: nat, j: nat)
    requires i < |xs| && j < |xs|
    ensures multiset(xs[i := xs[j]][j := xs[i]]) == multiset(xs)
  {
    var once := xs[i := xs[j]];
    assert multiset(once) == multiset(xs) - multiset{xs[i]} + multiset{xs[j]};
    assert once[j] == (if i == j then xs[j] else xs[j]);
    assert multiset(once[j := xs[i]]) == multiset(once) - multiset{once[j]} + multiset{xs[i]};
  }

  /** Exchanging the same two positions twice, in either order, restores the
      sequence. */
  lemma {:induction false} SwapAtTwice<T>(xs: seq<T>, i: nat, j: nat)
    requires i < |xs| && j < |xs|
    ensures SwapAt(SwapAt(xs, i, j), i, j) == xs
    ensures SwapAt(SwapAt(xs, i, j), j, i) == xs
  {
    var r := SwapAt(SwapAt(xs, i, j), i, j);
    assert forall k | 0 <= k < |xs| :: r[k] == xs[k];
    var r' := SwapAt(SwapAt(xs, i, j), j, i);
    assert forall k | 0 <= k < |xs| :: r'[k] == xs[k];
  }

  /** Duplicate-freedom depends only on the multiset of elements. */
  lemma NoDuplicatesPermutation<T>(xs: seq<T>, ys: seq<T>)
    requires multiset(xs) == multiset(ys) && NoDuplicates(xs)
    ensures NoDuplicates(ys)
  {
    forall i, j | 0 <= i < j < |ys| ensures ys[i] != ys[j] {
      MultiplicityAtMostOne(xs, ys[i]);
      RepeatedMultiplicity(ys, i, j);
    }
  }

  /** An element found at two positions occurs at least twice. */
  lemma RepeatedMultiplicity<T>(ys: seq<T>, i: int, j: int)
    requires 0 <= i < j < |ys|
    ensures ys[i] == ys[j] ==> multiset(ys)[ys[i]] >= 2
  {
    var x := ys[i];
    assert ys == ys[..i] + [x] + ys[i + 1..j] + [ys[j]] + ys[j + 1..];
  }

  lemma {:induction false} MultiplicityAtMostOne<T>(xs: seq<T>, x: T)
    requires NoDuplicates(xs)
    ensures multiset(xs)[x] <= 1
  {
    if xs != [] {
      assert xs == [xs[0]] + xs[1..];
      assert NoDuplicates(xs[1..]) by {
        forall i, j | 0 <= i < j < |xs[1..]| ensures xs[1..][i] != xs[1..][j] {
          assert xs[1..][i] == xs[i + 1] && xs[1..][j] == xs[j + 1];
        }
      }
      MultiplicityAtMostOne(xs[1..], x);
      if xs[0] == x {
        assert x !in xs[1..] by {
          forall k | 0 <= k < |xs[1..]| ensures xs[1..][k] != x {
            assert xs[1..][k] == xs[k + 1];
          }
        }
      }
    }
  }

  /** A witness that a non-empty set has an element. */
  lemma PickElement<T>(r: set<T>) returns (x: T)
    requires r != {}
    ensures x in r
  {
    x :| x in r;
  }

  /** Dropping the element at `k` removes one occurrence of it. */
  lemma RemoveAtMultiset<T>(xs: seq<T>, k: int)
    requires 0 <= k < |xs|
    ensures multiset(xs[..k] + xs[k + 1..]) == multiset(xs) - multiset{xs[k]}
  {
    assert xs == xs[..k] + [xs[k]] + xs[k + 1..];
  }
}
