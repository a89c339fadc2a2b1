/** `np.argsort` over one-dimensional keys: the positions of the keys in
    ascending order of key.  Equal keys keep their positions' order (a
    stable sort); NumPy's default sort does not promise that, and nothing
    below depends on it except where the keys are distinct. */
module Argsorting {
  import opened Seqs

  /** The keys, read in the order the positions in `order` list them, never
      decrease. */
  predicate SortedBy(keys: seq<real>, order: seq<int>) {
    InRange(order, |keys|) &&
    forall x, y :: 0 <= x < y < |order| ==> keys[order[x]] <= keys[order[y]]
  }

  /** Integer keys as real keys. */
  function AsReals(v: seq<int>): (r: seq<real>)
    ensures |r| == |v|
    ensures forall x :: 0 <= x < |v| ==> r[x] == v[x] as real
  {
    seq(|v|, x requires 0 <= x < |v| => v[x] as real)
  }

  /** Inserts position i after every position whose key is not above its own. */
  function Insert(order: seq<int>, keys: seq<real>, i: nat): (r: seq<int>)
    requires InRange(order, |keys|) && i < |keys|
    ensures multiset(r) == multiset(order) + multiset{i}
  {
    if order == [] then [i]
    else
      var last := order[|order| - 1];
      var front := order[..|order| - 1];
      assert order == front + [last];
      if keys[last] <= keys[i] then order + [i]
      else Insert(front, keys, i) + [last]
  }

  /** Insertion adds i and keeps the positions in range. */
  lemma InsertInRange(order: seq<int>, keys: seq<real>, i: nat)
    requires InRange(order, |keys|) && i < |keys|
    ensures InRange(Insert(order, keys, i), |keys|)
    ensures forall e :: e in Insert(order, keys, i) <==> e in order || e == i
  {
    var r := Insert(order, keys, i);
    forall e ensures e in r <==> e in order || e == i {
      assert e in r <==> e in multiset(r);
      assert e in order <==> e in multiset(order);
    }
  }

  /** Insertion keeps the keys in order. */
  lemma {:induction false} InsertSorted(order: seq<int>, keys: seq<real>, i: nat)
    requires SortedBy(keys, order) && i < |keys|
    ensures SortedBy(keys, Insert(order, keys, i))
  {
    var r := Insert(order, keys, i);
    InsertInRange(order, keys, i);
    if order != [] {
      var last := order[|order| - 1];
      var front := order[..|order| - 1];
      assert order == front + [last];
      if keys[last] <= keys[i] {
        assert r == order + [i];
        forall x, y | 0 <= x < y < |r| ensures keys[r[x]] <= keys[r[y]] {
          if y == |order| {
            assert keys[order[x]] <= keys[last];
          }
        }
      } else {
        var r' := Insert(front, keys, i);
        assert r == r' + [last];
        assert SortedBy(keys, front);
        InsertSorted(front, keys, i);
        InsertInRange(front, keys, i);
        forall x, y | 0 <= x < y < |r| ensures keys[r[x]] <= keys[r[y]] {
          if y == |r'| {
            assert r'[x] in r';
            if r'[x] != i {
              var z :| 0 <= z < |front| && front[z] == r'[x];
              assert order[z] == r'[x];
            }
          } else {
            assert r[x] == r'[x] && r[y] == r'[y];
          }
        }
      }
    }
  }

  /** The positions of keys, sorted by key, equal keys in position order. */
  function Argsort(keys: seq<real>): (r: seq<int>)
    ensures IsIndexPermutation(r, |keys|)
    ensures SortedBy(keys, r)
  {
    if keys == [] then []
    else
      var prev := Argsort(keys[..|keys| - 1]);
      InsertLast(keys, prev);
      Insert(prev, keys, |keys| - 1)
  }

  /** Inserting the last position into a sorted order of the others sorts
      them all. */
  lemma InsertLast(keys: seq<real>, prev: seq<int>)
    requires |keys| >= 1
    requires IsIndexPermutation(prev, |keys| - 1) && SortedBy(keys[..|keys| - 1], prev)
    ensures InRange(prev, |keys|)
    ensures IsIndexPermutation(Insert(prev, keys, |keys| - 1), |keys|)
    ensures SortedBy(keys, Insert(prev, keys, |keys| - 1))
  {
    IndexPermutationIff(prev, |keys| - 1);
    SortedWiden(keys, prev);
    InsertLastPermutes(keys, prev);
    InsertSorted(prev, keys, |keys| - 1);
  }

  /** An order sorted by a prefix of the keys is sorted by all of them. */
  lemma SortedWiden(keys: seq<real>, prev: seq<int>)
    requires |keys| >= 1 && InRange(prev, |keys| - 1) && SortedBy(keys[..|keys| - 1], prev)
    ensures InRange(prev, |keys|) && SortedBy(keys, prev)
  {
    var n := |keys|;
    forall x, y | 0 <= x < y < |prev| ensures keys[prev[x]] <= keys[prev[y]] {
      assert keys[..n - 1][prev[x]] <= keys[..n - 1][prev[y]];
    }
  }

  lemma InsertLastPermutes(keys: seq<real>, prev: seq<int>)
    requires |keys| >= 1 && InRange(prev, |keys|) && IsIndexPermutation(prev, |keys| - 1)
    ensures IsIndexPermutation(Insert(prev, keys, |keys| - 1), |keys|)
  {
    var n := |keys|;
    var before := Range(n - 1);
    RangeSnoc(n - 1);
    calc {
      multiset(Insert(prev, keys, n - 1));
      multiset(before) + multiset{n - 1};
      multiset(before + [n - 1]);
    }
  }

  lemma RangeSnoc(n: nat)
    ensures Range(n + 1) == Range(n) + [n]
  {
  }

  // ---------------------------------------------------------------------

  /** n distinct ascending integers from 0..n-1 are 0, 1, ..., n-1. */
  lemma {:induction false} AscendingRangeIsIdentity(w: seq<int>, r: nat)
    requires InRange(w, |w|)
    requires forall x, y :: 0 <= x < y < |w| ==> w[x] < w[y]
    requires r < |w|
    ensures w[r] == r
  {
    AscendingLower(w, r);
    AscendingUpper(w, r);
  }

  lemma {:induction false} AscendingLower(w: seq<int>, r: nat)
    requires InRange(w, |w|)
    requires forall x, y :: 0 <= x < y < |w| ==> w[x] < w[y]
    requires r < |w|
    ensures w[r] >= r
  {
    if r > 0 {
      AscendingLower(w, r - 1);
    }
  }

  lemma {:induction false} AscendingUpper(w: seq<int>, r: nat)
    requires InRange(w, |w|)
    requires forall x, y :: 0 <= x < y < |w| ==> w[x] < w[y]
    requires r < |w|
    ensures w[r] <= r
    decreases |w| - r
  {
    if r < |w| - 1 {
      AscendingUpper(w, r + 1);
    }
  }

  /** Sorting a permutation v of 0..k-1 gives its inverse: the argsort t
      satisfies v[t[r]] == r and t[v[x]] == x. */
  lemma ArgsortOfPermutation(v: seq<int>, k: nat)
    requires IsIndexPermutation(v, k)
    ensures var t := Argsort(AsReals(v));
            |t| == |v| == k && InRange(t, k) && InRange(v, k) &&
            (forall r :: 0 <= r < k ==> v[t[r]] == r) &&
            (forall x :: 0 <= x < k ==> t[v[x]] == x)
  {
    var t := Argsort(AsReals(v));
    IndexPermutationIff(v, k);
    IndexPermutationIff(t, k);
    var w := Select(v, t);
    assert forall x, y :: 0 <= x < y < k ==> w[x] < w[y] by {
      forall x, y | 0 <= x < y < k ensures w[x] < w[y] {
        assert AsReals(v)[t[x]] <= AsReals(v)[t[y]];
        assert w[x] != w[y];
      }
    }
    forall r | 0 <= r < k ensures v[t[r]] == r {
      AscendingRangeIsIdentity(w, r);
    }
    forall x | 0 <= x < k ensures t[v[x]] == x {
      assert v[t[v[x]]] == v[x];
    }
  }
}
