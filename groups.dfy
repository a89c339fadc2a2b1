/** Grouping atoms by label: `np.where(atoms == label)` lists the positions
    holding a label in ascending order, and the rank of a position is how
    many positions before it hold the same label. */
module Groups {
  import opened Seqs

  /** Strictly increasing. */
  predicate Ascending(r: seq<int>) {
    forall x, y :: 0 <= x < y < |r| ==> r[x] < r[y]
  }

  /** `np.where(s == l)`: the positions of s holding l, in ascending order;
      there are as many as l occurs in s. */
  function Where<L(==)>(s: seq<L>, l: L): (r: seq<int>)
    ensures InRange(r, |s|)
    ensures forall x :: 0 <= x < |r| ==> s[r[x]] == l
    ensures Ascending(r)
    ensures |r| == multiset(s)[l]
  {
    if s == [] then []
    else
      var k := |s| - 1;
      assert s == s[..k] + [s[k]];
      Where(s[..k], l) + (if s[k] == l then [k] else [])
  }

  /** The positions of l within a prefix of s come first among those of s. */
  lemma {:induction false} WherePrefix<L>(s: seq<L>, k: nat, l: L)
    requires k <= |s|
    ensures |Where(s[..k], l)| <= |Where(s, l)|
    ensures Where(s, l)[..|Where(s[..k], l)|] == Where(s[..k], l)
  {
    if k < |s| {
      var s' := s[..|s| - 1];
      assert s'[..k] == s[..k];
      WherePrefix(s', k, l);
    } else {
      assert s[..k] == s;
    }
  }

  /** How many positions before i hold the label at i. */
  function Rank<L(==)>(s: seq<L>, i: nat): nat
    requires i < |s|
  {
    |Where(s[..i], s[i])|
  }

  /** The group of the label at i lists i at i's rank. */
  lemma WhereAtRank<L>(s: seq<L>, i: nat)
    requires i < |s|
    ensures Rank(s, i) < |Where(s, s[i])|
    ensures Where(s, s[i])[Rank(s, i)] == i
  {
    var l := s[i];
    var t := s[..i + 1];
    assert t[..i] == s[..i];
    assert Where(t, l) == Where(s[..i], l) + [i];
    WherePrefix(s, i + 1, l);
  }

  /** Rank undoes the listing: the x-th position of a group has rank x. */
  lemma RankAt<L>(s: seq<L>, l: L, x: nat)
    requires x < |Where(s, l)|
    ensures Rank(s, Where(s, l)[x]) == x
  {
    var i := Where(s, l)[x];
    WhereAtRank(s, i);
  }

  /** A position of the group sits at index x of it exactly when its rank is x. */
  lemma RankIff<L>(s: seq<L>, i: nat, x: nat)
    requires i < |s| && x < |Where(s, s[i])|
    ensures Rank(s, i) == x <==> Where(s, s[i])[x] == i
  {
    WhereAtRank(s, i);
    RankAt(s, s[i], x);
  }

  /** A sub-multiset has no more elements. */
  lemma SubMultisetCard<L>(a: multiset<L>, b: multiset<L>)
    requires a <= b
    ensures |a| <= |b|
  {
    assert b == a + (b - a);
  }
}
