/**
 * The value computations of QuakeAdapter.java: the split of a place text into
 * an offset phrase and a primary location, and the choice of a colour resource
 * from the floor of the magnitude. The adapter's backing list, inherited from
 * ArrayAdapter, is the class QuakeAdapter.
 */
module QuakeAdapterModel {
  import opened Wrappers
  import opened JavaLang
  import opened QuakeInfoRecord

  // ---------------------------------------------------------------------------
  // Location split

  /** The two texts shown for a place: "74km NW of" over " Rumoi, Japan". */
  datatype Location = Location(offset: string, primary: string)

  /** The offset shown when the place text holds no "of". */
  const DefaultOffset: string := "Near the"

  /**
   * getView's split of the place text: with an "of", the first two pieces of
   * split("(?<=of)"); without one, DefaultOffset and the whole text. When the
   * only "of" ends the text the split has a single piece and parts[1] throws.
   * On success with an "of", the offset runs through the first "of", and the
   * primary follows it directly and holds no "of" except at its end.
   */
  function SplitLocation(quakeLocation: string): (r: Result<Location, IndexOutOfBounds>)
    ensures !Contains(quakeLocation) ==> r == Success(Location(DefaultOffset, quakeLocation))
    ensures r.Failure? <==> PieceThroughOf(quakeLocation)
    ensures r.Failure? ==> r.error == IndexOutOfBounds(1, 1)
    ensures r.Success? && Contains(quakeLocation) ==>
      PieceThroughOf(r.value.offset) && r.value.primary != "" &&
      (NoOf(r.value.primary) || PieceThroughOf(r.value.primary)) &&
      r.value.offset + r.value.primary <= quakeLocation
  {
    if Contains(quakeLocation) then
      var parts := SplitAfterOf(quakeLocation);
      if |parts| < 2 then
        assert parts[1..] == [] && Concat(parts[1..]) == "";
        assert Concat(parts) == parts[0] + Concat(parts[1..]);
        assert parts[0] == quakeLocation;
        Failure(IndexOutOfBounds(1, |parts|))
      else
        ConcatFirstTwo(parts);
        PieceThroughOfPrefix(parts[0], quakeLocation);
        Success(Location(parts[0], parts[1]))
    else
      assert PieceThroughOf(quakeLocation) ==> OfAt(quakeLocation, |quakeLocation| - 2);
      Success(Location(DefaultOffset, quakeLocation))
  }

  /** The text holds no "of" exactly when the offset is "Near the" and the primary is the whole text. */
  lemma SplitWithoutOf(quakeLocation: string)
    ensures (forall i :: !OfAt(quakeLocation, i)) <==>
      SplitLocation(quakeLocation) == Success(Location(DefaultOffset, quakeLocation))
  {
    if i :| OfAt(quakeLocation, i) {
      var first := IndexOfFrom(quakeLocation, 0).value;
      SplitFirstPiece(quakeLocation, first);
      var parts := SplitAfterOf(quakeLocation);
      if |parts| >= 2 {
        assert parts[0][|parts[0]| - 1] == 'f' != DefaultOffset[|DefaultOffset| - 1];
      }
    }
  }

  /** Whenever the split succeeds on a text with an "of", the offset is the text through its first "of". */
  lemma SplitOffsetThroughFirstOf(quakeLocation: string, i: int)
    requires FirstOfFrom(quakeLocation, 0, i)
    ensures SplitLocation(quakeLocation).Success? ==>
      SplitLocation(quakeLocation).value.offset == quakeLocation[..i + 2]
  {
  }

  /** A second "of" at j truncates the primary: it ends right after that "of", leading spaces kept. */
  lemma SplitPrimaryToNextOf(quakeLocation: string, i: int, j: int)
    requires FirstOfFrom(quakeLocation, 0, i) && FirstOfFrom(quakeLocation, i + 1, j)
    ensures SplitLocation(quakeLocation) ==
      Success(Location(quakeLocation[..i + 2], quakeLocation[i + 2..j + 2]))
  {
    SplitSecondPieceToNextOf(quakeLocation, i, j);
  }

  /** With a single "of" that does not end the text, the primary is all the text after it, untrimmed. */
  lemma SplitPrimaryToEnd(quakeLocation: string, i: int)
    requires FirstOfFrom(quakeLocation, 0, i) && i + 2 < |quakeLocation|
    requires forall j :: i < j ==> !OfAt(quakeLocation, j)
    ensures SplitLocation(quakeLocation) ==
      Success(Location(quakeLocation[..i + 2], quakeLocation[i + 2..]))
  {
    SplitSecondPieceToEnd(quakeLocation, i);
  }

  /** With a single "of" that does not end the text, offset and primary rejoin to the text. */
  lemma SplitSingleOfRejoins(quakeLocation: string, i: int)
    requires FirstOfFrom(quakeLocation, 0, i) && i + 2 < |quakeLocation|
    requires forall j :: i < j ==> !OfAt(quakeLocation, j)
    ensures SplitLocation(quakeLocation).Success?
    ensures SplitLocation(quakeLocation).value.offset + SplitLocation(quakeLocation).value.primary
      == quakeLocation
  {
    SplitPrimaryToEnd(quakeLocation, i);
    assert quakeLocation[..i + 2] + quakeLocation[i + 2..] == quakeLocation;
  }

  /** The split throws exactly when the text holds one "of" and that "of" ends it. */
  lemma SplitFailsIffLoneTrailingOf(quakeLocation: string)
    ensures SplitLocation(quakeLocation).Failure? <==>
      OfAt(quakeLocation, |quakeLocation| - 2) &&
      forall j :: 0 <= j < |quakeLocation| - 2 ==> !OfAt(quakeLocation, j)
  {
    var s := quakeLocation;
    var first := IndexOfFrom(s, 0);
    if first.None? {
      assert !Contains(s);
    } else {
      var i := first.value;
      var next := IndexOfFrom(s, i + 1);
      if next.Some? {
        SplitSecondPieceToNextOf(s, i, next.value);
        assert OfAt(s, i) && i < |s| - 2;
      } else {
        SplitSecondPieceToEnd(s, i);
        if i + 2 == |s| {
          assert SplitAfterOf(s) == [s];
        }
      }
    }
  }

  /** A place text as the live feed words it: the primary keeps the space after "of". */
  lemma SplitLocationExample(s: string)
    requires s == "10km SSE of Loloan, Indonesia"
    ensures SplitLocation(s) == Success(Location("10km SSE of", " Loloan, Indonesia"))
  {
    NoOfWithoutO(s, 0, 9);
    NoOfWithoutF(s, 10);
    SplitPrimaryToEnd(s, 9);
    assert s[..11] == "10km SSE of" && s[11..] == " Loloan, Indonesia";
  }

  /** A place text without "of" is shown under "Near the". */
  lemma SplitLocationNearExample(s: string)
    requires s == "Pacific-Antarctic Ridge"
    ensures SplitLocation(s) == Success(Location(DefaultOffset, s))
  {
    NoOfWithoutO(s, 0, |s|);
    SplitWithoutOf(s);
  }

  /** The match is case-sensitive and may fall inside a word: "Soft" ends the primary. */
  lemma SplitLocationInsideWordExample(s: string)
    requires s == "5km E of Soft Hill"
    ensures SplitLocation(s) == Success(Location("5km E of", " Sof"))
  {
    NoOfWithoutO(s, 0, 6);
    NoOfWithoutO(s, 7, 10);
    SplitPrimaryToNextOf(s, 6, 10);
    assert s[..8] == "5km E of" && s[8..12] == " Sof";
  }

  /** A text whose only "of" is at its very end makes the split throw. */
  lemma SplitLocationTrailingOfExample(s: string)
    requires s == "East of"
    ensures SplitLocation(s) == Failure(IndexOutOfBounds(1, 1))
  {
    NoOfWithoutO(s, 0, 5);
    assert FirstOfFrom(s, 0, 5);
    SplitSecondPieceToEnd(s, 5);
    assert SplitAfterOf(s) == [s];
  }

  /**
   * The split the code evidently means: cut once, after the first "of", as
   * split("(?<=of)", 2) would. It never throws and loses nothing.
   */
  function SplitLocationAtFirstOf(quakeLocation: string): (r: Location)
    ensures Contains(quakeLocation) ==> r.offset + r.primary == quakeLocation
  {
    match IndexOfFrom(quakeLocation, 0)
    case None => Location(DefaultOffset, quakeLocation)
    case Some(i) =>
      assert quakeLocation[..i + 2] + quakeLocation[i + 2..] == quakeLocation;
      Location(quakeLocation[..i + 2], quakeLocation[i + 2..])
  }

  /** The corrected split: offset through the first "of", all the rest as primary, the two rejoining. */
  lemma SplitAtFirstOfRejoins(quakeLocation: string)
    ensures (forall i :: !OfAt(quakeLocation, i)) ==>
      SplitLocationAtFirstOf(quakeLocation) == Location(DefaultOffset, quakeLocation)
    ensures forall i :: FirstOfFrom(quakeLocation, 0, i) ==>
      SplitLocationAtFirstOf(quakeLocation).offset == quakeLocation[..i + 2] &&
      SplitLocationAtFirstOf(quakeLocation).offset + SplitLocationAtFirstOf(quakeLocation).primary
        == quakeLocation
  {
  }

  /** Where the text has at most one "of" and does not end with it, the code as written already splits so. */
  lemma SplitAgreesWithSplitAtFirstOf(quakeLocation: string, i: int)
    requires FirstOfFrom(quakeLocation, 0, i) && i + 2 < |quakeLocation|
    requires forall j :: i < j ==> !OfAt(quakeLocation, j)
    ensures SplitLocation(quakeLocation) == Success(SplitLocationAtFirstOf(quakeLocation))
  {
    SplitPrimaryToEnd(quakeLocation, i);
    SplitAtFirstOfRejoins(quakeLocation);
  }

  /** The texts on which the code as written goes wrong are split whole by the corrected split. */
  lemma SplitAtFirstOfExamples(s: string, t: string)
    requires s == "East of" && t == "5km E of Soft Hill"
    ensures SplitLocationAtFirstOf(s) == Location("East of", "")
    ensures SplitLocationAtFirstOf(t) == Location("5km E of", " Soft Hill")
  {
    NoOfWithoutO(s, 0, 5);
    assert FirstOfFrom(s, 0, 5);
    NoOfWithoutO(t, 0, 6);
    assert FirstOfFrom(t, 0, 6);
    SplitAtFirstOfRejoins(s);
    SplitAtFirstOfRejoins(t);
    assert t[..8] == "5km E of" && t[8..] == " Soft Hill";
  }

  // ---------------------------------------------------------------------------
  // Magnitude colour

  /** The colour resources R.color.magnitude1 .. magnitude9 and magnitude10plus. */
  datatype MagnitudeColor =
    | Magnitude1 | Magnitude2 | Magnitude3 | Magnitude4 | Magnitude5
    | Magnitude6 | Magnitude7 | Magnitude8 | Magnitude9 | Magnitude10Plus

  /** The floors of magnitude each colour stands for, as the resource names say. */
  predicate Covers(color: MagnitudeColor, magFloor: int)
  {
    match color
    case Magnitude1 => 0 <= magFloor <= 1
    case Magnitude2 => magFloor == 2
    case Magnitude3 => magFloor == 3
    case Magnitude4 => magFloor == 4
    case Magnitude5 => magFloor == 5
    case Magnitude6 => magFloor == 6
    case Magnitude7 => magFloor == 7
    case Magnitude8 => magFloor == 8
    case Magnitude9 => magFloor == 9
    case Magnitude10Plus => magFloor < 0 || 9 < magFloor
  }

  /** getMagnitudeColor's switch on (int) Math.floor(magnitude), up to the resource identifier. */
  function GetMagnitudeColor(magnitude: real): (color: MagnitudeColor)
    ensures Covers(color, magnitude.Floor)
  {
    match magnitude.Floor
    case 0 => Magnitude1
    case 1 => Magnitude1
    case 2 => Magnitude2
    case 3 => Magnitude3
    case 4 => Magnitude4
    case 5 => Magnitude5
    case 6 => Magnitude6
    case 7 => Magnitude7
    case 8 => Magnitude8
    case 9 => Magnitude9
    case _ => Magnitude10Plus
  }

  /** Every floor is covered by exactly one colour, and that is the colour chosen. */
  lemma ColorIsTheOneCovering(magnitude: real, color: MagnitudeColor)
    ensures GetMagnitudeColor(magnitude) == color <==> Covers(color, magnitude.Floor)
  {
  }

  /** The colour depends on the floor of the magnitude only. */
  lemma ColorDependsOnlyOnFloor(m: real, n: real)
    requires m.Floor == n.Floor
    ensures GetMagnitudeColor(m) == GetMagnitudeColor(n)
  {
  }

  /** Floors 0 and 1 share magnitude1; floors 2 to 9 each have a colour of their own, shared with no other floor. */
  lemma ColorsOfFloors(m: real, n: real)
    ensures 0 <= m.Floor <= 1 ==> GetMagnitudeColor(m) == Magnitude1
    ensures 2 <= m.Floor <= 9 && m.Floor != n.Floor ==> GetMagnitudeColor(m) != GetMagnitudeColor(n)
    ensures (m.Floor < 0 || 9 < m.Floor) ==> GetMagnitudeColor(m) == Magnitude10Plus
  {
  }

  /** The magnitude of the sample feed entry, 6.7, gets magnitude6. */
  lemma MagnitudeColorExample()
    ensures GetMagnitudeColor(6.7) == Magnitude6
    ensures GetMagnitudeColor(1.2) == GetMagnitudeColor(0.0) == Magnitude1
    ensures GetMagnitudeColor(-0.5) == Magnitude10Plus
  {
  }

  // ---------------------------------------------------------------------------
  // The adapter's backing list

  /** The ArrayAdapter behind the earthquake list: the records it shows, in order. */
  class QuakeAdapter {
    var items: seq<QuakeInfo>

    /** QuakeAdapter(context, quakeInfoList): the adapter starts with the given records. */
    constructor (quakeInfoList: seq<QuakeInfo>)
      ensures items == quakeInfoList
    {
      items := quakeInfoList;
    }

    /** ArrayAdapter.clear: no record is left. */
    method Clear()
      modifies this
      ensures items == []
    {
      items := [];
    }

    /** ArrayAdapter.addAll: the records are appended after the present ones, in order. */
    method AddAll(collection: seq<QuakeInfo>)
      modifies this
      ensures items == old(items) + collection
    {
      items := items + collection;
    }

    /** ArrayAdapter.getItem: the record at the position, or the exception of List.get. */
    method GetItem(position: int) returns (r: Result<QuakeInfo, IndexOutOfBounds>)
      ensures r.Success? <==> 0 <= position < |items|
      ensures r.Success? ==> r.value == items[position]
      ensures r.Failure? ==> r.error == IndexOutOfBounds(position, |items|)
    {
      if 0 <= position < |items| {
        r := Success(items[position]);
      } else {
        r := Failure(IndexOutOfBounds(position, |items|));
      }
    }
  }
}
