/**
 * The parts of java.lang.String the location splitter relies on, for the one
 * pattern it uses: contains("of"), indexOf("of", from) and split("(?<=of)").
 * The regular expression (?<=of) is a zero-width look-behind: it matches at
 * every position immediately after an occurrence of "of". String.split with
 * the default limit 0 returns the input itself when nothing matches and
 * otherwise drops the trailing empty pieces.
 */
module JavaLang {
  import opened Wrappers

  /** The value of an ArrayIndexOutOfBoundsException / IndexOutOfBoundsException. */
  datatype IndexOutOfBounds = IndexOutOfBounds(index: int, length: int)

  /** The two characters "of" start at index i of s. */
  predicate OfAt(s: string, i: int)
  {
    0 <= i < |s| - 1 && s[i] == 'o' && s[i + 1] == 'f'
  }

  /** i is the first index at or after from where "of" starts. */
  predicate FirstOfFrom(s: string, from: int, i: int)
  {
    from <= i && OfAt(s, i) && forall j :: from <= j < i ==> !OfAt(s, j)
  }

  /** s.indexOf("of", from); None stands for -1. */
  function IndexOfFrom(s: string, from: nat): (r: Option<nat>)
    decreases |s| - from
    ensures r.Some? ==> FirstOfFrom(s, from, r.value)
    ensures r.None? ==> forall j :: from <= j ==> !OfAt(s, j)
  {
    if from + 1 >= |s| then None
    else if s[from] == 'o' && s[from + 1] == 'f' then Some(from)
    else IndexOfFrom(s, from + 1)
  }

  /** s.contains("of"), which Java defines as indexOf("of") >= 0. */
  function Contains(s: string): (b: bool)
    ensures b <==> exists i :: OfAt(s, i)
  {
    var r := IndexOfFrom(s, 0);
    if r.Some? then assert OfAt(s, r.value); true else false
  }

  /** The pieces joined back together, in order. */
  function Concat(pieces: seq<string>): string
  {
    if pieces == [] then "" else pieces[0] + Concat(pieces[1..])
  }

  /** No "of" occurs anywhere in s. */
  ghost predicate NoOf(s: string)
  {
    forall j :: !OfAt(s, j)
  }

  /** s ends with "of" and holds no other: a piece the split cuts off after its "of". */
  predicate PieceThroughOf(s: string)
  {
    |s| >= 2 && OfAt(s, |s| - 2) && forall j :: 0 <= j < |s| - 2 ==> !OfAt(s, j)
  }

  /** s cut at every position right after an "of", empty pieces kept. */
  function CutAfterOf(s: string): (r: seq<string>)
    decreases |s|
    ensures |r| >= 1 && Concat(r) == s
    ensures forall k :: 0 <= k < |r| - 1 ==> PieceThroughOf(r[k])
    ensures NoOf(r[|r| - 1])
  {
    match IndexOfFrom(s, 0)
    case None =>
      assert [s][1..] == [];
      [s]
    case Some(i) =>
      var first := s[..i + 2];
      var rest := CutAfterOf(s[i + 2..]);
      var r := [first] + rest;
      assert r[1..] == rest;
      assert first + s[i + 2..] == s;
      assert PieceThroughOf(first) by {
        forall j | 0 <= j < i ensures !OfAt(first, j) {
          assert !OfAt(s, j);
        }
        assert OfAt(s, i);
      }
      assert forall k :: 1 <= k < |r| ==> r[k] == rest[k - 1];
      r
  }

  /** The trailing empty pieces removed, as String.split does for limit 0. */
  function DropTrailingEmpty(pieces: seq<string>): (r: seq<string>)
    decreases |pieces|
    ensures |r| <= |pieces| && r == pieces[..|r|]
    ensures r == [] || r[|r| - 1] != ""
    ensures forall k :: |r| <= k < |pieces| ==> pieces[k] == ""
  {
    if pieces != [] && pieces[|pieces| - 1] == "" then DropTrailingEmpty(pieces[..|pieces| - 1])
    else pieces
  }

  /**
   * s.split("(?<=of)"). The pieces rejoin to s; every piece but the last runs
   * through exactly one "of", at its end; the last holds no "of" or ends with
   * its only one (when an empty piece after it was dropped), and is empty only
   * when s is.
   */
  function SplitAfterOf(s: string): (r: seq<string>)
    ensures |r| >= 1 && Concat(r) == s
    ensures forall k :: 0 <= k < |r| - 1 ==> PieceThroughOf(r[k])
    ensures NoOf(r[|r| - 1]) || PieceThroughOf(r[|r| - 1])
    ensures s != "" ==> r[|r| - 1] != ""
  {
    if !Contains(s) then
      assert [s][1..] == [];
      [s]
    else
      var cut := CutAfterOf(s);
      var r := DropTrailingEmpty(cut);
      assert |cut| >= 2;
      DropAtMostLast(cut);
      assert cut == r + cut[|r|..];
      ConcatAppend(r, cut[|r|..]);
      ConcatAllEmpty(cut[|r|..]);
      r
  }

  lemma {:induction false} ConcatAppend(a: seq<string>, b: seq<string>)
    ensures Concat(a + b) == Concat(a) + Concat(b)
  {
    if a == [] {
      assert a + b == b;
    } else {
      assert (a + b)[1..] == a[1..] + b;
      ConcatAppend(a[1..], b);
    }
  }

  lemma {:induction false} ConcatAllEmpty(pieces: seq<string>)
    requires forall k :: 0 <= k < |pieces| ==> pieces[k] == ""
    ensures Concat(pieces) == ""
  {
    if pieces != [] {
      ConcatAllEmpty(pieces[1..]);
    }
  }

  /** The first two pieces, then the rest. */
  lemma ConcatFirstTwo(pieces: seq<string>)
    requires |pieces| >= 2
    ensures Concat(pieces) == pieces[0] + pieces[1] + Concat(pieces[2..])
  {
    assert pieces[1..][1..] == pieces[2..];
  }

  /** A piece through its only "of" cannot be a proper prefix of another such piece. */
  lemma PieceThroughOfPrefix(p: string, s: string)
    requires PieceThroughOf(p) && |p| < |s| && s[..|p|] == p
    ensures !PieceThroughOf(s)
  {
    assert OfAt(s, |p| - 2);
  }

  /** The occurrences of "of" in a suffix are those of the whole, shifted. */
  lemma OfAtSuffix(s: string, d: nat, k: int)
    requires d <= |s| && 0 <= k
    ensures OfAt(s[d..], k) <==> OfAt(s, d + k)
  {
  }

  /** When the first "of" starts at i, the first piece ends right after it. */
  lemma CutAfterFirstOf(s: string, i: int)
    requires FirstOfFrom(s, 0, i)
    ensures CutAfterOf(s) == [s[..i + 2]] + CutAfterOf(s[i + 2..])
  {
  }

  /** A text without "of" is one piece. */
  lemma CutWithoutOf(s: string)
    requires forall j :: !OfAt(s, j)
    ensures CutAfterOf(s) == [s]
  {
  }

  /** No "of" starts on the 'f' of another: occurrences never overlap. */
  lemma NoOfInsideOf(s: string, i: int)
    requires OfAt(s, i)
    ensures !OfAt(s, i + 1)
  {
  }

  /** The first piece of the split is s up to and including its first "of". */
  lemma SplitFirstPiece(s: string, i: int)
    requires FirstOfFrom(s, 0, i)
    ensures |SplitAfterOf(s)| >= 1 && SplitAfterOf(s)[0] == s[..i + 2]
  {
  }

  /** Cutting stops right after each "of": with a second "of" at j the second piece ends there. */
  lemma CutSecondPiece(s: string, i: int, j: int)
    requires FirstOfFrom(s, 0, i) && FirstOfFrom(s, i + 1, j)
    ensures |CutAfterOf(s)| >= 3 && CutAfterOf(s)[1] == s[i + 2..j + 2]
  {
    RestFirstOf(s, i, j);
    var rest := s[i + 2..];
    var k := j - (i + 2);
    CutShape(rest, k);
    var second := CutAfterOf(rest)[0];
    assert second == s[i + 2..j + 2];
    CutShape(s, i);
  }

  /** The cut after the first "of": its length and second piece in terms of the rest's cut. */
  lemma CutShape(s: string, i: int)
    requires FirstOfFrom(s, 0, i)
    ensures |CutAfterOf(s)| == 1 + |CutAfterOf(s[i + 2..])| >= 2
    ensures CutAfterOf(s)[0] == s[..i + 2]
    ensures CutAfterOf(s)[1] == CutAfterOf(s[i + 2..])[0]
  {
    CutAfterFirstOf(s, i);
  }

  /** The next "of" after the first, seen from the text after the first. */
  lemma RestFirstOf(s: string, i: int, j: int)
    requires FirstOfFrom(s, 0, i) && FirstOfFrom(s, i + 1, j)
    ensures i + 2 <= j && FirstOfFrom(s[i + 2..], 0, j - (i + 2))
  {
    NoOfInsideOf(s, i);
    var rest := s[i + 2..];
    var k := j - (i + 2);
    OfAtSuffix(s, i + 2, k);
    forall m | 0 <= m < k ensures !OfAt(rest, m) {
      OfAtSuffix(s, i + 2, m);
    }
  }

  /** At most the last piece of a cut is empty, so at most one piece is dropped. */
  lemma DropAtMostLast(cut: seq<string>)
    requires forall k :: 0 <= k < |cut| - 1 ==> PieceThroughOf(cut[k])
    ensures |DropTrailingEmpty(cut)| + 1 >= |cut|
  {
  }

  /** With a second "of" at j, the second piece runs from after the first "of" through the second. */
  lemma SplitSecondPieceToNextOf(s: string, i: int, j: int)
    requires FirstOfFrom(s, 0, i) && FirstOfFrom(s, i + 1, j)
    ensures var parts := SplitAfterOf(s);
      |parts| >= 2 && parts[0] == s[..i + 2] && parts[1] == s[i + 2..j + 2]
  {
    SplitFirstPiece(s, i);
    CutSecondPiece(s, i, j);
    DropAtMostLast(CutAfterOf(s));
  }

  /** With no second "of", the rest after the first "of" is the last piece, dropped when empty. */
  lemma SplitSecondPieceToEnd(s: string, i: int)
    requires FirstOfFrom(s, 0, i)
    requires forall j :: i < j ==> !OfAt(s, j)
    ensures SplitAfterOf(s) == if i + 2 < |s| then [s[..i + 2], s[i + 2..]] else [s]
  {
    assert Contains(s);
    var rest := s[i + 2..];
    forall m | 0 <= m ensures !OfAt(rest, m) {
      OfAtSuffix(s, i + 2, m);
    }
    CutAfterFirstOf(s, i);
    CutWithoutOf(rest);
    var cut := CutAfterOf(s);
    assert cut == [s[..i + 2], rest];
    if i + 2 == |s| {
      assert s[..i + 2] == s;
      assert DropTrailingEmpty(cut) == DropTrailingEmpty([s]);
    }
  }

  /** No "of" can start where there is no 'o'. */
  lemma NoOfWithoutO(s: string, lo: int, hi: int)
    requires 0 <= lo <= hi <= |s| && 'o' !in s[lo..hi]
    ensures forall j :: lo <= j < hi ==> !OfAt(s, j)
  {
    forall j | lo <= j < hi ensures !OfAt(s, j) {
      assert s[j] == s[lo..hi][j - lo];
    }
  }

  /** No "of" can start before a stretch with no 'f'. */
  lemma NoOfWithoutF(s: string, lo: int)
    requires 0 <= lo < |s| && 'f' !in s[lo + 1..]
    ensures forall j :: lo <= j ==> !OfAt(s, j)
  {
    forall j | lo <= j && j + 1 < |s| ensures !OfAt(s, j) {
      assert s[j + 1] == s[lo + 1..][j - lo];
    }
  }
}
