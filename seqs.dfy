/** Sequence vocabulary shared by the permutation generator, the brute-force
    search and the correspondence merge: swaps, distinctness, index
    permutations of 0..n-1, fancy indexing and factorial. */
module Seqs {

  /** n! */
  function Fact(n: nat): (r: nat)
    ensures r >= 1
  {
    if n == 0 then 1 else n * Fact(n - 1)
  }

  /** The list 0, 1, ..., n-1 (Python's `list(range(n))`). */
  function Range(n: nat): (r: seq<int>)
    ensures |r| == n
    ensures forall i :: 0 <= i < n ==> r[i] == i
  {
    seq(n, i => i)
  }

  /** Exchange of two positions, as the tuple assignment
      `s[i], s[j] = s[j], s[i]` does. */
  function Swap<T>(s: seq<T>, i: nat, j: nat): (r: seq<T>)
    requires i < |s| && j < |s|
    ensures |r| == |s|
  {
    s[i := s[j]][j := s[i]]
  }

  /** What the exchange puts at each position. */
  lemma SwapAt<T>(s: seq<T>, i: nat, j: nat, p: nat)
    requires i < |s| && j < |s| && p < |s|
    ensures Swap(s, i, j)[p] == if p == i then s[j] else if p == j then s[i] else s[p]
  {
  }

  function Last<T>(s: seq<T>): T
    requires s != []
  {
    s[|s| - 1]
  }

  predicate Distinct<T(==)>(s: seq<T>) {
    forall i, j :: 0 <= i < j < |s| ==> s[i] != s[j]
  }

  predicate InRange(v: seq<int>, n: nat) {
    forall i :: 0 <= i < |v| ==> 0 <= v[i] < n
  }

  /** v lists every index 0..n-1 exactly once. */
  predicate IsIndexPermutation(v: seq<int>, n: nat) {
    multiset(v) == multiset(Range(n))
  }

  /** Fancy indexing `xs[idx]`: the elements of xs at the positions idx. */
  function Select<T>(xs: seq<T>, idx: seq<int>): (r: seq<T>)
    requires InRange(idx, |xs|)
    ensures |r| == |idx|
    ensures forall i :: 0 <= i < |idx| ==> r[i] == xs[idx[i]]
  {
    seq(|idx|, i requires 0 <= i < |idx| => xs[idx[i]])
  }

  /** Distinct indices into distinct values select distinct values. */
  lemma SelectDistinct(xs: seq<int>, idx: seq<int>, m: nat)
    requires Distinct(xs) && InRange(xs, m) && Distinct(idx) && InRange(idx, |xs|)
    ensures InRange(Select(xs, idx), m) && Distinct(Select(xs, idx))
  {
    var r := Select(xs, idx);
    forall i, j | 0 <= i < j < |r| ensures r[i] != r[j] {
      assert idx[i] != idx[j];
    }
  }

  /** The finite set of values of a sequence. */
  function Elements<T>(s: seq<T>): set<T> {
    set i | 0 <= i < |s| :: s[i]
  }

  lemma UpdateSame<T>(s: seq<T>, k: nat)
    requires k < |s|
    ensures s[k := s[k]] == s
  {
  }

  lemma UpdateTwice<T>(s: seq<T>, k: nat, u: T, v: T)
    requires k < |s|
    ensures s[k := u][k := v] == s[k := v]
  {
  }

  lemma AppendAssoc<T>(x: seq<T>, y: seq<T>, z: seq<T>)
    ensures x + (y + z) == (x + y) + z
  {
  }

  /** Dropping the head of a non-empty sequence commutes with appending. */
  lemma DropFirstAppend<T>(g: seq<T>, t: seq<T>, z: seq<T>)
    requires |g| >= 1
    ensures g[1..] + (t + z) == (g + t)[1..] + z
  {
    assert (g + t)[1..] == g[1..] + t;
  }

  // ---------------------------------------------------------------------
  // Swaps keep the multiset.

  lemma SwapMultiset<T>(s: seq<T>, i: nat, j: nat)
    requires i < |s| && j < |s|
    ensures multiset(Swap(s, i, j)) == multiset(s)
  {
    if i != j {
      var t := s[i := s[j]];
      assert multiset(t) == multiset(s) - multiset{s[i]} + multiset{s[j]};
      assert multiset(t[j := s[i]]) == multiset(t) - multiset{t[j]} + multiset{s[i]};
    }
  }

  /** Swapping two positions below k keeps multiset of the first k elements
      and everything from k on. */
  lemma SwapPrefix<T>(s: seq<T>, i: nat, j: nat, k: nat)
    requires i < k && j < k && k <= |s|
    ensures Swap(s, i, j)[..k] == Swap(s[..k], i, j)
    ensures Swap(s, i, j)[k..] == s[k..]
    ensures multiset(Swap(s, i, j)[..k]) == multiset(s[..k])
  {
    assert Swap(s, i, j)[..k] == Swap(s[..k], i, j);
    SwapMultiset(s[..k], i, j);
  }

  // ---------------------------------------------------------------------
  // Distinctness and multisets.

  lemma {:induction false} DistinctCount<T>(s: seq<T>, x: T)
    requires Distinct(s)
    ensures multiset(s)[x] == if x in s then 1 else 0
  {
    if s != [] {
      var t := s[1..];
      assert s == [s[0]] + t;
      assert Distinct(t) by {
        forall i, j | 0 <= i < j < |t| ensures t[i] != t[j] {
          assert t[i] == s[i + 1] && t[j] == s[j + 1];
        }
      }
      DistinctCount(t, x);
      forall j | 0 <= j < |t| ensures t[j] != s[0] {
        assert t[j] == s[j + 1];
      }
      assert multiset(s) == multiset{s[0]} + multiset(t);
    }
  }

  /** A sequence is distinct exactly when no value occurs twice in it. */
  lemma {:induction false} DistinctIffCounts<T>(s: seq<T>)
    ensures Distinct(s) <==> forall x :: multiset(s)[x] <= 1
  {
    if Distinct(s) {
      forall x ensures multiset(s)[x] <= 1 {
        DistinctCount(s, x);
      }
    } else {
      var i, j :| 0 <= i < j < |s| && s[i] == s[j];
      var x := s[i];
      assert s == s[..i] + [s[i]] + s[i + 1..j] + [s[j]] + s[j + 1..];
      assert multiset(s)[x] >= 2 by {
        assert multiset(s) == multiset(s[..i]) + multiset{x} + multiset(s[i + 1..j]) + multiset{x} + multiset(s[j + 1..]);
      }
    }
  }

  /** A rearrangement of a distinct sequence is distinct. */
  lemma DistinctPreserved<T>(s: seq<T>, t: seq<T>)
    requires Distinct(s) && multiset(t) == multiset(s)
    ensures Distinct(t)
  {
    DistinctIffCounts(s);
    DistinctIffCounts(t);
  }

  /** No element of x occurs in y. */
  ghost predicate Apart<T>(x: seq<T>, y: seq<T>) {
    forall i, j :: 0 <= i < |x| && 0 <= j < |y| ==> x[i] != y[j]
  }

  /** Two distinct sequences with no element in common concatenate to a
      distinct sequence. */
  lemma DistinctAppend<T>(x: seq<T>, y: seq<T>)
    requires Distinct(x) && Distinct(y) && Apart(x, y)
    ensures Distinct(x + y)
  {
    var s := x + y;
    forall i, j | 0 <= i < j < |s| ensures s[i] != s[j] {
      if j < |x| {
        assert s[i] == x[i] && s[j] == x[j];
      } else if i < |x| {
        assert s[i] == x[i] && s[j] == y[j - |x|];
      } else {
        assert s[i] == y[i - |x|] && s[j] == y[j - |x|];
      }
    }
  }

  lemma DistinctPrefix<T>(s: seq<T>, k: nat)
    requires Distinct(s) && k <= |s|
    ensures Distinct(s[..k])
  {
    var t := s[..k];
    forall i, j | 0 <= i < j < |t| ensures t[i] != t[j] {
      assert t[i] == s[i] && t[j] == s[j];
    }
  }

  /** Two distinct sequences with the same values are rearrangements of each other. */
  lemma SameElementsSameMultiset<T>(s: seq<T>, t: seq<T>)
    requires Distinct(s) && Distinct(t)
    requires forall x :: x in s <==> x in t
    ensures multiset(s) == multiset(t)
  {
    forall x ensures multiset(s)[x] == multiset(t)[x] {
      DistinctCount(s, x);
      DistinctCount(t, x);
    }
  }

  lemma {:induction false} DistinctCard<T>(s: seq<T>)
    requires Distinct(s)
    ensures |Elements(s)| == |s|
  {
    if s != [] {
      var t := s[..|s| - 1];
      DistinctPrefix(s, |s| - 1);
      DistinctCard(t);
      assert Elements(s) == Elements(t) + {s[|s| - 1]} by {
        forall x | x in Elements(s) ensures x in Elements(t) + {s[|s| - 1]} {
          var i :| 0 <= i < |s| && s[i] == x;
          if i < |s| - 1 { assert t[i] == x; }
        }
        forall x | x in Elements(t) ensures x in Elements(s) {
          var i :| 0 <= i < |t| && t[i] == x;
          assert s[i] == x;
        }
      }
      forall i | 0 <= i < |t| ensures t[i] != s[|s| - 1] {
        assert t[i] == s[i];
      }
    }
  }

  // ---------------------------------------------------------------------
  // Index permutations.

  /** The two usual readings of "v is a permutation of 0..n-1" agree:
      a rearrangement of 0..n-1, and n distinct indices below n. */
  lemma IndexPermutationIff(v: seq<int>, n: nat)
    ensures IsIndexPermutation(v, n) <==> |v| == n && InRange(v, n) && Distinct(v)
  {
    var r := Range(n);
    assert Distinct(r);
    if IsIndexPermutation(v, n) {
      assert |v| == |multiset(v)| == |multiset(r)| == n;
      forall i | 0 <= i < |v| ensures 0 <= v[i] < n {
        assert v[i] in multiset(v);
        assert v[i] in multiset(r);
      }
      DistinctPreserved(r, v);
    }
    if |v| == n && InRange(v, n) && Distinct(v) {
      var ev, er := Elements(v), Elements(r);
      DistinctCard(v);
      DistinctCard(r);
      assert ev <= er by {
        forall x | x in ev ensures x in er {
          var i :| 0 <= i < |v| && v[i] == x;
          assert r[x] == x;
        }
      }
      assert |er - ev| == |er| - |ev| == 0;
      assert er == ev;
      forall x ensures x in v <==> x in r {
        assert x in v <==> x in ev;
        assert x in r <==> x in er;
      }
      SameElementsSameMultiset(v, r);
    }
  }

  /** Every index below n occurs in a permutation of 0..n-1. */
  lemma IndexPermutationCovers(v: seq<int>, n: nat, x: int)
    requires IsIndexPermutation(v, n) && 0 <= x < n
    ensures exists i :: 0 <= i < |v| && v[i] == x
  {
    assert Range(n)[x] == x;
    assert x in multiset(Range(n));
    assert x in multiset(v);
    assert x in v;
  }
}
