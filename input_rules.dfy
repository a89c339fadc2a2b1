/** Two string rules lifted out of the input handling of calculate_rmsd.py:
    how an ATOM line of a PDB file names its element
    (calculate_rmsd.py:1027-1039), and how `main` guesses the input format
    from the first file name when none is given
    (calculate_rmsd.py:1191-1200). */
module InputRules {
  import opened Wrappers

  // ---------------------------------------------------------------------
  // The atom type of a PDB ATOM line.

  /** The element letters taken from the first character of the atom name. */
  predicate Element(c: char) {
    c == 'H' || c == 'C' || c == 'N' || c == 'O' || c == 'S' || c == 'P'
  }

  /** The atom type read from the whitespace-separated tokens of an ATOM
      line: the first character of the third token when it is one of
      H, C, N, O, S, P; otherwise its second character when that is H (a
      hydrogen name such as 1HD1).  None is the parse error: an unknown
      letter, or a token or character that is not there to index. */
  function AtomType(tokens: seq<string>): (r: Option<char>)
    ensures r.Some? ==> Element(r.value) && |tokens| >= 3 && |tokens[2]| >= 1
  {
    if |tokens| < 3 || |tokens[2]| < 1 then None
    else if Element(tokens[2][0]) then Some(tokens[2][0])
    else if |tokens[2]| < 2 then None
    else if tokens[2][1] == 'H' then Some('H')
    else None
  }

  /** The atom type is always an element letter taken from the atom name,
      and the line is accepted exactly when the name starts with an element
      letter or has H second. */
  lemma AtomTypeSound(tokens: seq<string>)
    ensures var r := AtomType(tokens);
            (r.Some? <==> |tokens| >= 3 && |tokens[2]| >= 1 &&
                          (Element(tokens[2][0]) || (|tokens[2]| >= 2 && tokens[2][1] == 'H'))) &&
            (r.Some? ==> Element(r.value) &&
                         (r.value == tokens[2][0] || (r.value == 'H' && tokens[2][1] == 'H')))
  {
  }

  /** The alpha carbon "CA" is carbon, the hydrogen "1HD1" is hydrogen,
      zinc "ZN" is rejected, and so is a line too short to name an atom. */
  lemma AtomTypeExamples()
    ensures AtomType(["ATOM", "1", "CA"]) == Some('C')
    ensures AtomType(["ATOM", "7", "1HD1", "LEU"]) == Some('H')
    ensures AtomType(["ATOM", "9", "ZN"]) == None
    ensures AtomType(["ATOM", "9"]) == None
  {
  }

  // ---------------------------------------------------------------------
  // The format guessed from the file name.

  /** `s.split('.')`: the pieces between the dots, as many as the dots plus
      one. */
  function Split(s: string): (r: seq<string>)
    ensures |r| >= 1
    ensures forall i :: 0 <= i < |r| ==> '.' !in r[i]
  {
    if s == [] then [""]
    else
      var init := Split(s[..|s| - 1]);
      var c := s[|s| - 1];
      if c == '.' then init + [""]
      else init[..|init| - 1] + [init[|init| - 1] + [c]]
  }

  /** `'.'.join(parts)`. */
  function Join(parts: seq<string>): string {
    if |parts| <= 1 then (if parts == [] then "" else parts[0])
    else Join(parts[..|parts| - 1]) + "." + parts[|parts| - 1]
  }

  /** Joining the pieces gives the name back. */
  lemma {:induction false} JoinSplit(s: string)
    ensures Join(Split(s)) == s
  {
    if s != [] {
      var init := Split(s[..|s| - 1]);
      var c := s[|s| - 1];
      JoinSplit(s[..|s| - 1]);
      assert s[..|s| - 1] + [c] == s;
      if c == '.' {
        assert Split(s) == init + [""];
        JoinNewPiece(init);
      } else {
        assert Split(s) == init[..|init| - 1] + [init[|init| - 1] + [c]];
        JoinExtendLast(init, c);
      }
    }
  }

  /** A dot ends the last piece and starts an empty one. */
  lemma JoinNewPiece(init: seq<string>)
    requires |init| >= 1
    ensures Join(init + [""]) == Join(init) + "."
  {
    assert (init + [""])[..|init|] == init;
  }

  /** Any other character extends the last piece. */
  lemma JoinExtendLast(init: seq<string>, c: char)
    requires |init| >= 1
    ensures Join(init[..|init| - 1] + [init[|init| - 1] + [c]]) == Join(init) + [c]
  {
    var m := |init|;
    var parts := init[..m - 1] + [init[m - 1] + [c]];
    if m > 1 {
      assert parts[..m - 1] == init[..m - 1];
    }
  }

  /** A piece appended after a dot becomes one more piece. */
  lemma {:induction false} SplitAppend(s: string, w: string)
    requires '.' !in w
    ensures Split(s + "." + w) == Split(s) + [w]
    decreases |w|
  {
    if w == [] {
      assert s + "." + w == s + ".";
      assert (s + ".")[..|s|] == s;
    } else {
      var w' := w[..|w| - 1];
      SplitAppend(s, w');
      assert (s + "." + w)[..|s + "." + w| - 1] == s + "." + w';
      assert w' + [w[|w| - 1]] == w;
    }
  }

  /** A dot-free name is a single piece. */
  lemma {:induction false} SplitSingle(w: string)
    requires '.' !in w
    ensures Split(w) == [w]
    decreases |w|
  {
    if w != [] {
      SplitSingle(w[..|w| - 1]);
      assert w[..|w| - 1] + [w[|w| - 1]] == w;
    }
  }

  /** Splitting undoes joining dot-free pieces. */
  lemma {:induction false} SplitJoin(parts: seq<string>)
    requires |parts| >= 1 && forall i :: 0 <= i < |parts| ==> '.' !in parts[i]
    ensures Split(Join(parts)) == parts
  {
    if |parts| == 1 {
      SplitSingle(parts[0]);
    } else {
      var init := parts[..|parts| - 1];
      SplitJoin(init);
      SplitAppend(Join(init), parts[|parts| - 1]);
      assert init + [parts[|parts| - 1]] == parts;
    }
  }

  /** The format of the input files when `--format` is not given: the text
      after the last dot, or the last two pieces for a compressed file such
      as x.pdb.gz. */
  function FormatFromName(name: string): (r: string)
    ensures '.' in r <==> |Split(name)| >= 3 && Split(name)[|Split(name)| - 1] == "gz"
  {
    var parts := Split(name);
    var suffix := parts[|parts| - 1];
    if suffix != "gz" then suffix
    else if |parts| >= 3 then
      var x := parts[|parts| - 2];
      assert (x + "." + suffix)[|x|] == '.';
      x + "." + suffix
    else suffix
  }

  /** The format is a tail of the name that starts right after a dot (or
      is the whole name), holds no dot unless it is a compressed format
      "x.gz", and is the whole name only when the name has no dot. */
  lemma FormatIsTail(name: string)
    ensures var f := FormatFromName(name);
            |f| <= |name| && name[|name| - |f|..] == f &&
            (|f| == |name| || name[|name| - |f| - 1] == '.') &&
            ('.' !in f || exists x :: '.' !in x && f == x + ".gz") &&
            (|f| == |name| <==> '.' !in name)
  {
    var parts := Split(name);
    var n := |parts|;
    var f := FormatFromName(name);
    JoinSplit(name);
    if n == 1 {
      assert name == parts[0];
    } else {
      var last := parts[n - 1];
      var init := parts[..n - 1];
      assert name == Join(init) + "." + last;
      assert '.' in name by { assert name[|Join(init)|] == '.'; }
      if last == "gz" && n >= 3 {
        var x := parts[n - 2];
        assert init[..n - 2] == parts[..n - 2];
        assert Join(init) == Join(parts[..n - 2]) + "." + x;
        assert name == Join(parts[..n - 2]) + "." + (x + ".gz");
        assert f == x + ".gz";
      } else {
        assert f == last;
      }
    }
  }

  /** A compressed PDB file is read as "pdb.gz". */
  lemma FormatOfCompressed()
    ensures FormatFromName("protein.pdb.gz") == "pdb.gz"
  {
    var parts := ["protein", "pdb", "gz"];
    assert parts[..2][..1] == ["protein"];
    assert Join(parts[..2]) == "protein.pdb";
    assert Join(parts) == "protein.pdb.gz";
    SplitJoin(parts);
  }

  /** A name with a single ".gz" keeps "gz" as its format. */
  lemma FormatOfBareGz()
    ensures FormatFromName("archive.gz") == "gz"
  {
    var parts := ["archive", "gz"];
    assert parts[..1] == ["archive"];
    assert Join(parts) == "archive.gz";
    SplitJoin(parts);
  }
}
