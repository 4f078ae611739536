/** The 90-cell storage behind a board (BoardPawns.cs). The C# type is an
    inline array inside a value type, so every copy of a board carries its own
    cells; here the cells are a sequence of fixed length and a write yields a
    new sequence. */
module BoardPawns {
  import opened Results
  import opened Pieces
  import opened Locations

  const CellCount: int := 90

  /** Exactly 90 optional pieces, indexed rank by rank. */
  type Grid = s: seq<Option<Pawn>> | |s| == 90 witness Nones(90)

  /** n empty cells. */
  function Nones(n: nat): (s: seq<Option<Pawn>>)
    ensures |s| == n && forall i :: 0 <= i < n ==> s[i] == None
  {
    if n == 0 then [] else Nones(n - 1) + [None]
  }

  const EmptyGrid: Grid := seq(90, i => None)

  /** The cell that stores an on-board location: y * 9 + x. */
  function CellIndex(loc: Location): (i: int)
    requires IsLocationAvailable(loc)
    ensures 0 <= i < CellCount
  {
    loc.y * Width + loc.x
  }

  /** The location stored in a cell; the inverse of CellIndex. */
  function CellLocation(i: int): (loc: Location)
    requires 0 <= i < CellCount
    ensures IsLocationAvailable(loc) && CellIndex(loc) == i
  {
    Location(i % Width, i / Width)
  }

  /** CellIndex is a bijection from the on-board locations onto 0..89. */
  lemma CellIndexBijective(a: Location, b: Location)
    requires IsLocationAvailable(a) && IsLocationAvailable(b)
    ensures CellIndex(a) == CellIndex(b) <==> a == b
    ensures CellLocation(CellIndex(a)) == a
  {
    var i := CellIndex(a);
    assert i == a.y * Width + a.x;
    assert i % Width == a.x && i / Width == a.y;
    if CellIndex(a) == CellIndex(b) {
      assert a.x == i % Width == b.x;
    }
  }

  /** The occupant of a location, or IndexOutOfRange off the board. */
  function GetPawn(g: Grid, loc: Location): (r: Result<Option<Pawn>>)
    ensures r.Failure? <==> !IsLocationAvailable(loc)
    ensures r.Failure? ==> r.error == IndexOutOfRange
    ensures r.Success? ==> r.value == g[CellIndex(loc)]
  {
    if !IsLocationAvailable(loc) then Failure(IndexOutOfRange)
    else Success(g[loc.y * Width + loc.x])
  }

  /** Replaces the occupant of a location; off the board it throws and writes nothing. */
  function SetPawn(g: Grid, loc: Location, p: Option<Pawn>): (r: Result<Grid>)
    ensures r.Failure? <==> !IsLocationAvailable(loc)
    ensures r.Failure? ==> r.error == IndexOutOfRange
    ensures r.Success? ==> r.value == g[CellIndex(loc) := p]
  {
    if !IsLocationAvailable(loc) then Failure(IndexOutOfRange)
    else Success(g[loc.y * Width + loc.x := p])
  }

  /** After SetPawn the location reads back the new occupant and every other
      location reads as before. */
  lemma SetPawnGetPawn(g: Grid, loc: Location, p: Option<Pawn>)
    requires IsLocationAvailable(loc)
    ensures SetPawn(g, loc, p).Success?
    ensures GetPawn(SetPawn(g, loc, p).value, loc) == Success(p)
    ensures forall other :: IsLocationAvailable(other) && other != loc ==>
      GetPawn(SetPawn(g, loc, p).value, other) == GetPawn(g, other)
  {
    forall other | IsLocationAvailable(other) && other != loc
      ensures CellIndex(other) != CellIndex(loc)
    {
      CellIndexBijective(other, loc);
    }
  }

  /** Cell-wise equality, one index after the other. */
  method Equals(a: Grid, b: Grid) returns (eq: bool)
    ensures eq <==> a == b
  {
    var i := 0;
    while i < 9 * 10
      invariant 0 <= i <= CellCount
      invariant a[..i] == b[..i]
    {
      if a[i] != b[i] {
        return false;
      }
      i := i + 1;
    }
    assert a == a[..i] && b == b[..i];
    return true;
  }
}
