/** The board value: 90 optional pieces and two running material scores
    (Board.cs, state part). The C# type is a record struct, so a board is a
    value: every assignment copies it and an in-place update of a variable is
    the functional update of its value. */
module Boards {
  import opened Results
  import opened Pieces
  import opened Locations
  import BoardPawns

  datatype Board = Board(selfScore: int, opponentScore: int, pawns: BoardPawns.Grid)

  /** `new Board()`: no pieces, both scores 0. */
  const EmptyBoard: Board := Board(0, 0, BoardPawns.EmptyGrid)

  /** The occupant of a square; nothing for a square off the board. */
  function At(b: Board, loc: Location): Option<Pawn> {
    if IsLocationAvailable(loc) then b.pawns[BoardPawns.CellIndex(loc)] else None
  }

  function GetScore(b: Board, camp: Camp): int {
    match camp
    case Self => b.selfScore
    case Opponent => b.opponentScore
  }

  function GetPawn(b: Board, loc: Location): (r: Result<Option<Pawn>>)
    ensures r.Failure? <==> !IsLocationAvailable(loc)
    ensures r.Failure? ==> r.error == IndexOutOfRange
    ensures r.Success? ==> r.value == At(b, loc)
  {
    BoardPawns.GetPawn(b.pawns, loc)
  }

  // ---------------------------------------------------------------------------
  // Material and the score invariant

  /** Self's material balance over a run of cells: Self weights minus Opponent weights. */
  function Material(cells: seq<Option<Pawn>>): int {
    if |cells| == 0 then 0 else Material(cells[..|cells| - 1]) + SignedWeight(cells[|cells| - 1])
  }

  /** Replacing one cell changes the balance by exactly the two occupants' weights. */
  lemma {:induction false} MaterialUpdate(cells: seq<Option<Pawn>>, i: int, p: Option<Pawn>)
    requires 0 <= i < |cells|
    ensures Material(cells[i := p]) == Material(cells) - SignedWeight(cells[i]) + SignedWeight(p)
  {
    var n := |cells|;
    var u := cells[i := p];
    assert u[..n - 1] == if i == n - 1 then cells[..n - 1] else cells[..n - 1][i := p];
    if i < n - 1 {
      MaterialUpdate(cells[..n - 1], i, p);
    }
  }

  /** A run of empty cells has no material. */
  lemma {:induction false} MaterialOfEmpty(cells: seq<Option<Pawn>>)
    requires forall i :: 0 <= i < |cells| ==> cells[i].None?
    ensures Material(cells) == 0
  {
    if |cells| > 0 {
      MaterialOfEmpty(cells[..|cells| - 1]);
    }
  }

  /** The score invariant: SelfScore is the material balance over the whole
      board and OpponentScore is its negation. */
  ghost predicate ScoresConsistent(b: Board) {
    b.selfScore == Material(b.pawns) && b.opponentScore == -b.selfScore
  }

  /** The default board satisfies the score invariant. */
  lemma EmptyBoardConsistent()
    ensures ScoresConsistent(EmptyBoard)
    ensures forall loc :: At(EmptyBoard, loc).None?
  {
    var g := BoardPawns.EmptyGrid;
    assert forall i :: 0 <= i < |g| ==> g[i].None?;
    MaterialOfEmpty(g);
  }

  /** Under the invariant, each camp's score is its own material advantage. */
  lemma ScoreIsMaterialAdvantage(b: Board)
    requires ScoresConsistent(b)
    ensures GetScore(b, Self) == Material(b.pawns)
    ensures GetScore(b, Opponent) == -GetScore(b, Self)
  {
  }

  // ---------------------------------------------------------------------------
  // SetPawn and MovePawn

  /** Replaces the occupant of a square: the old occupant's weight is taken
      back from both scores, the new occupant's weight is added. Off the
      board it throws before changing anything. */
  function SetPawn(b: Board, loc: Location, pawn: Option<Pawn>): (r: Result<Board>)
    ensures r.Failure? <==> !IsLocationAvailable(loc)
    ensures r.Failure? ==> r.error == IndexOutOfRange
    ensures r.Success? ==> r.value.pawns == b.pawns[BoardPawns.CellIndex(loc) := pawn]
  {
    var origin :- GetPawn(b, loc);
    var cells := BoardPawns.SetPawn(b.pawns, loc, pawn).value;
    // SignedWeight folds the camp test: a Self piece counts for SelfScore
    // and against OpponentScore, an Opponent piece the other way round.
    Success(Board(b.selfScore - SignedWeight(origin) + SignedWeight(pawn),
                  b.opponentScore + SignedWeight(origin) - SignedWeight(pawn),
                  cells))
  }

  /** On the board, SetPawn puts the new occupant on the square, leaves every
      other square as it was, and moves both scores by the difference of the
      two occupants' signed weights. */
  lemma SetPawnEffect(b: Board, loc: Location, pawn: Option<Pawn>)
    requires IsLocationAvailable(loc)
    ensures SetPawn(b, loc, pawn).Success?
    ensures At(SetPawn(b, loc, pawn).value, loc) == pawn
    ensures forall other :: other != loc ==> At(SetPawn(b, loc, pawn).value, other) == At(b, other)
    ensures SetPawn(b, loc, pawn).value.selfScore == b.selfScore - SignedWeight(At(b, loc)) + SignedWeight(pawn)
    ensures SetPawn(b, loc, pawn).value.opponentScore == b.opponentScore + SignedWeight(At(b, loc)) - SignedWeight(pawn)
  {
    forall other | other != loc && IsLocationAvailable(other)
      ensures At(SetPawn(b, loc, pawn).value, other) == At(b, other)
    {
      BoardPawns.CellIndexBijective(loc, other);
    }
  }

  /** Every SetPawn keeps the score invariant. */
  lemma SetPawnKeepsScores(b: Board, loc: Location, pawn: Option<Pawn>)
    requires IsLocationAvailable(loc)
    ensures SetPawn(b, loc, pawn).Success?
    ensures ScoresConsistent(b) ==> ScoresConsistent(SetPawn(b, loc, pawn).value)
  {
    MaterialUpdate(b.pawns, BoardPawns.CellIndex(loc), pawn);
  }

  /** Moves whatever stands on `from` to `to`, capturing any occupant of `to`;
      nothing happens when `from` is empty. */
  function MovePawn(b: Board, from: Location, to: Location): (r: Result<Board>)
    ensures r.Failure? <==> !IsLocationAvailable(from) || (At(b, from).Some? && !IsLocationAvailable(to))
    ensures r.Failure? ==> r.error == IndexOutOfRange
    ensures r.Success? && At(b, from).None? ==> r.value == b
  {
    var pawn :- GetPawn(b, from);
    if pawn.None? then Success(b)
    else
      var cleared := SetPawn(b, from, None).value;
      SetPawn(cleared, to, pawn)
  }

  /** A successful move of a piece puts it on `to`, empties `from` (a move
      onto its own square changes nothing) and leaves every other square as
      it was. */
  lemma MovePawnEffect(b: Board, from: Location, to: Location)
    requires MovePawn(b, from, to).Success? && At(b, from).Some?
    ensures At(MovePawn(b, from, to).value, to) == At(b, from)
    ensures from != to ==> At(MovePawn(b, from, to).value, from) == None
    ensures from == to ==> MovePawn(b, from, to).value == b
    ensures forall other :: other != from && other != to ==> At(MovePawn(b, from, to).value, other) == At(b, other)
  {
    var cleared := SetPawn(b, from, None).value;
    SetPawnEffect(b, from, None);
    SetPawnEffect(cleared, to, At(b, from));
    if from == to {
      SetPawnEffect(b, from, At(b, from));
      BoardsEqual(MovePawn(b, from, to).value, b);
    }
  }

  /** A successful move keeps the score invariant. */
  lemma MovePawnKeepsScores(b: Board, from: Location, to: Location)
    requires ScoresConsistent(b)
    requires MovePawn(b, from, to).Success?
    ensures ScoresConsistent(MovePawn(b, from, to).value)
  {
    if At(b, from).Some? {
      SetPawnKeepsScores(b, from, None);
      SetPawnKeepsScores(SetPawn(b, from, None).value, to, At(b, from));
    }
  }

  /** A board is determined by its squares and its two scores. */
  lemma BoardsEqual(a: Board, b: Board)
    requires forall loc :: At(a, loc) == At(b, loc)
    requires a.selfScore == b.selfScore && a.opponentScore == b.opponentScore
    ensures a == b
  {
    forall i | 0 <= i < BoardPawns.CellCount
      ensures a.pawns[i] == b.pawns[i]
    {
      assert At(a, BoardPawns.CellLocation(i)) == At(b, BoardPawns.CellLocation(i));
    }
  }

  // ---------------------------------------------------------------------------
  // Square predicates

  predicate IsLocationEmpty(b: Board, loc: Location) {
    IsLocationAvailable(loc) && At(b, loc).None?
  }

  predicate IsLocationSpecifiedCamp(b: Board, loc: Location, camp: Camp) {
    IsLocationAvailable(loc) && At(b, loc).Some? && At(b, loc).value.camp == camp
  }

  predicate IsLocationDifferentCamp(b: Board, loc: Location, camp: Camp) {
    IsLocationAvailable(loc) && At(b, loc).Some? && At(b, loc).value.camp != camp
  }

  /** An on-board square is exactly one of: empty, own piece, other piece;
      an off-board square is none of them. */
  lemma SquarePartition(b: Board, loc: Location, camp: Camp)
    ensures IsLocationAvailable(loc) ==>
      (IsLocationEmpty(b, loc) || IsLocationSpecifiedCamp(b, loc, camp) || IsLocationDifferentCamp(b, loc, camp))
    ensures !(IsLocationEmpty(b, loc) && IsLocationSpecifiedCamp(b, loc, camp))
    ensures !(IsLocationEmpty(b, loc) && IsLocationDifferentCamp(b, loc, camp))
    ensures !(IsLocationSpecifiedCamp(b, loc, camp) && IsLocationDifferentCamp(b, loc, camp))
    ensures !IsLocationAvailable(loc) ==>
      !IsLocationEmpty(b, loc) && !IsLocationSpecifiedCamp(b, loc, camp) && !IsLocationDifferentCamp(b, loc, camp)
  {
  }
}

module BoardScan {
  import opened Results
  import opened Pieces
  import opened Locations
  import opened Boards
  import BoardPawns

  // ---------------------------------------------------------------------------
  // EnumerateAllPawns

  /** Pieces listed in strictly increasing cell order, i.e. rank by rank
      (y ascending), and within a rank file by file (x ascending). */
  ghost predicate InScanOrder(ps: seq<PawnOnBoard>) {
    (forall k :: 0 <= k < |ps| ==> IsLocationAvailable(ps[k].location)) &&
    forall j, k :: 0 <= j < k < |ps| && IsLocationAvailable(ps[j].location) && IsLocationAvailable(ps[k].location) ==>
      BoardPawns.CellIndex(ps[j].location) < BoardPawns.CellIndex(ps[k].location)
  }

  /** The pieces standing on cells 0 .. n-1, in cell order. */
  function PawnsBelow(b: Board, n: int): seq<PawnOnBoard>
    requires 0 <= n <= BoardPawns.CellCount
  {
    if n == 0 then []
    else
      PawnsBelow(b, n - 1) +
      match b.pawns[n - 1]
      case Some(p) => [PawnOnBoard(p, BoardPawns.CellLocation(n - 1))]
      case None => []
  }

  /** PawnsBelow lists, in scan order, exactly the pieces of cells 0 .. n-1. */
  lemma {:induction false} PawnsBelowExactly(b: Board, n: int)
    requires 0 <= n <= BoardPawns.CellCount
    ensures InScanOrder(PawnsBelow(b, n))
    ensures forall k :: 0 <= k < |PawnsBelow(b, n)| ==>
      BoardPawns.CellIndex(PawnsBelow(b, n)[k].location) < n &&
      At(b, PawnsBelow(b, n)[k].location) == Some(PawnsBelow(b, n)[k].pawn)
    ensures forall i :: 0 <= i < n && b.pawns[i].Some? ==>
      PawnOnBoard(b.pawns[i].value, BoardPawns.CellLocation(i)) in PawnsBelow(b, n)
  {
    if n > 0 {
      PawnsBelowExactly(b, n - 1);
    }
  }

  /** What EnumerateAllPawns yields: every piece with its square, in scan order. */
  function AllPawns(b: Board): seq<PawnOnBoard> {
    PawnsBelow(b, BoardPawns.CellCount)
  }

  /** EnumerateAllPawns yields exactly the occupied squares, each once, in scan order. */
  lemma AllPawnsExactly(b: Board, p: Pawn, loc: Location)
    ensures InScanOrder(AllPawns(b))
    ensures PawnOnBoard(p, loc) in AllPawns(b) <==> At(b, loc) == Some(p)
    ensures forall j, k :: 0 <= j < k < |AllPawns(b)| ==> AllPawns(b)[j].location != AllPawns(b)[k].location
  {
    var ps := AllPawns(b);
    PawnsBelowExactly(b, BoardPawns.CellCount);
    if At(b, loc) == Some(p) {
      var i := BoardPawns.CellIndex(loc);
      BoardPawns.CellIndexBijective(loc, loc);
      assert b.pawns[i] == Some(p);
    }
  }

  /** The two nested scan loops of EnumerateAllPawns. */
  method EnumerateAllPawns(b: Board) returns (ps: seq<PawnOnBoard>)
    ensures ps == AllPawns(b)
  {
    ps := [];
    for y := 0 to Height
      invariant ps == PawnsBelow(b, y * Width)
    {
      for x := 0 to Width
        invariant ps == PawnsBelow(b, y * Width + x)
      {
        var loc := Location(x, y);
        var pawn := BoardPawns.GetPawn(b.pawns, loc).value;
        BoardPawns.CellIndexBijective(loc, loc);
        assert BoardPawns.CellIndex(loc) == y * Width + x;
        if pawn.Some? {
          ps := ps + [PawnOnBoard(pawn.value, loc)];
        }
      }
    }
  }

  /** The pieces of one camp, in the order given. */
  function PawnsOf(ps: seq<PawnOnBoard>, camp: Camp): (r: seq<PawnOnBoard>)
    ensures |r| <= |ps|
  {
    if ps == [] then []
    else if ps[0].pawn.camp == camp then [ps[0]] + PawnsOf(ps[1..], camp)
    else PawnsOf(ps[1..], camp)
  }

  /** Filtering by camp keeps exactly the pieces of that camp. */
  lemma {:induction false} PawnsOfMember(ps: seq<PawnOnBoard>, camp: Camp, x: PawnOnBoard)
    ensures x in PawnsOf(ps, camp) <==> x in ps && x.pawn.camp == camp
  {
    if ps != [] {
      PawnsOfMember(ps[1..], camp, x);
      assert x in ps <==> x == ps[0] || x in ps[1..];
    }
  }

  /** Dropping the first piece of a scan-ordered list leaves it scan-ordered,
      and every piece after the first lies on a later cell. */
  lemma ScanOrderTail(ps: seq<PawnOnBoard>)
    requires InScanOrder(ps) && ps != []
    ensures InScanOrder(ps[1..])
    ensures forall x :: x in ps[1..] ==>
      IsLocationAvailable(x.location) &&
      BoardPawns.CellIndex(ps[0].location) < BoardPawns.CellIndex(x.location)
  {
    hide BoardPawns.CellIndex, IsLocationAvailable;
    var rest := ps[1..];
    forall j, k | 0 <= j < k < |rest|
      ensures BoardPawns.CellIndex(rest[j].location) < BoardPawns.CellIndex(rest[k].location)
    {
      assert rest[j] == ps[j + 1] && rest[k] == ps[k + 1];
    }
    forall x | x in rest
      ensures IsLocationAvailable(x.location)
      ensures BoardPawns.CellIndex(ps[0].location) < BoardPawns.CellIndex(x.location)
    {
      var i :| 0 <= i < |rest| && rest[i] == x;
      assert ps[i + 1] == x;
    }
  }

  /** A piece on a cell before every cell of a scan-ordered list extends it
      in scan order. */
  lemma ScanOrderCons(p: PawnOnBoard, s: seq<PawnOnBoard>)
    requires InScanOrder(s) && IsLocationAvailable(p.location)
    requires forall k :: 0 <= k < |s| ==> BoardPawns.CellIndex(p.location) < BoardPawns.CellIndex(s[k].location)
    ensures InScanOrder([p] + s)
  {
    hide BoardPawns.CellIndex, IsLocationAvailable;
    var r := [p] + s;
    forall j, k | 0 <= j < k < |r|
      ensures BoardPawns.CellIndex(r[j].location) < BoardPawns.CellIndex(r[k].location)
    {
      if j == 0 {
        assert r[k] == s[k - 1];
      } else {
        assert r[j] == s[j - 1] && r[k] == s[k - 1];
      }
    }
  }

  /** Filtering by camp keeps the scan order. */
  lemma {:induction false} PawnsOfKeepsOrder(ps: seq<PawnOnBoard>, camp: Camp)
    requires InScanOrder(ps)
    ensures InScanOrder(PawnsOf(ps, camp))
  {
    if ps != [] {
      var rest := ps[1..];
      ScanOrderTail(ps);
      PawnsOfKeepsOrder(rest, camp);
      var fr := PawnsOf(rest, camp);
      if ps[0].pawn.camp == camp {
        forall k | 0 <= k < |fr|
          ensures BoardPawns.CellIndex(ps[0].location) < BoardPawns.CellIndex(fr[k].location)
        {
          PawnsOfMember(rest, camp, fr[k]);
        }
        ScanOrderCons(ps[0], fr);
      }
    }
  }

  /** What the camp overload of EnumerateAllPawns yields. */
  function AllPawnsOf(b: Board, camp: Camp): seq<PawnOnBoard> {
    PawnsOf(AllPawns(b), camp)
  }

  /** The camp overload yields exactly that camp's pieces, in scan order. */
  lemma AllPawnsOfExactly(b: Board, camp: Camp, p: Pawn, loc: Location)
    ensures InScanOrder(AllPawnsOf(b, camp))
    ensures PawnOnBoard(p, loc) in AllPawnsOf(b, camp) <==> At(b, loc) == Some(p) && p.camp == camp
  {
    AllPawnsExactly(b, p, loc);
    PawnsOfKeepsOrder(AllPawns(b), camp);
    PawnsOfMember(AllPawns(b), camp, PawnOnBoard(p, loc));
  }
}

module Opening {
  import opened Results
  import opened Pieces
  import opened Locations
  import opened Boards

  // ---------------------------------------------------------------------------
  // CreateNew

  /** The back rank, file by file: chariot, horse, elephant, advisor,
      general, advisor, elephant, horse, chariot. */
  function BackRankKind(x: int): PawnKind
    requires 0 <= x < Width
  {
    if x == 0 || x == 8 then Chariot
    else if x == 1 || x == 7 then Horse
    else if x == 2 || x == 6 then Elephant
    else if x == 3 || x == 5 then Advisor
    else General
  }

  /** The traditional opening position: each camp has its back rank on its
      own edge (rank 0 for Self, 9 for Opponent), cannons on files 1 and 7
      two ranks in (2 and 7), and soldiers on the even files three ranks in
      (3 and 6). */
  function OpeningPawnAt(loc: Location): Option<Pawn> {
    var camp := if loc.y < 5 then Self else Opponent;
    if !IsLocationAvailable(loc) then None
    else if loc.y == 0 || loc.y == 9 then Some(Pawn(camp, BackRankKind(loc.x)))
    else if (loc.y == 2 || loc.y == 7) && (loc.x == 1 || loc.x == 7) then Some(Pawn(camp, Cannon))
    else if (loc.y == 3 || loc.y == 6) && loc.x % 2 == 0 then Some(Pawn(camp, Soldier))
    else None
  }

  /** The board holds the opening pieces of the given ranks and of files
      0 .. n-1 of rank y, and nothing else. */
  ghost predicate Partial(b: Board, ranks: set<int>, y: int, n: int) {
    forall loc :: At(b, loc) == if loc.y in ranks || (loc.y == y && loc.x < n) then OpeningPawnAt(loc) else None
  }

  /** One SetPawn of CreateNew: the next opening piece of rank loc.y, on a
      square still empty; its weight moves both scores. */
  method Put(b: Board, p: Pawn, loc: Location, ghost ranks: set<int>, ghost n: int) returns (r: Board)
    requires IsLocationAvailable(loc) && OpeningPawnAt(loc) == Some(p)
    requires Partial(b, ranks, loc.y, n) && loc.y !in ranks && n <= loc.x
    requires forall k :: n <= k < loc.x ==> OpeningPawnAt(Location(k, loc.y)).None?
    ensures Partial(r, ranks, loc.y, loc.x + 1)
    ensures r.selfScore == b.selfScore + SignedWeight(Some(p))
    ensures r.opponentScore == b.opponentScore - SignedWeight(Some(p))
    ensures ScoresConsistent(b) ==> ScoresConsistent(r)
  {
    SetPawnKeepsScores(b, loc, Some(p));
    r := SetPawn(b, loc, Some(p)).value;
  }

  /** The SetPawn calls of CreateNew that set up Self's back rank (rank 0). */
  method SetSelfBackRank(b: Board, ghost ranks: set<int>) returns (r: Board)
    requires Partial(b, ranks, 0, 0) && 0 !in ranks
    ensures Partial(r, ranks, 0, Width)
    ensures r.selfScore == b.selfScore + 1042 && r.opponentScore == b.opponentScore - 1042
    ensures ScoresConsistent(b) ==> ScoresConsistent(r)
  {
    r := b;
    r := Put(r, Pawn(Self, Chariot), Location(0, 0), ranks, 0);
    r := Put(r, Pawn(Self, Horse), Location(1, 0), ranks, 1);
    r := Put(r, Pawn(Self, Elephant), Location(2, 0), ranks, 2);
    r := Put(r, Pawn(Self, Advisor), Location(3, 0), ranks, 3);
    r := Put(r, Pawn(Self, General), Location(4, 0), ranks, 4);
    r := Put(r, Pawn(Self, Advisor), Location(5, 0), ranks, 5);
    r := Put(r, Pawn(Self, Elephant), Location(6, 0), ranks, 6);
    r := Put(r, Pawn(Self, Horse), Location(7, 0), ranks, 7);
    r := Put(r, Pawn(Self, Chariot), Location(8, 0), ranks, 8);
  }

  /** The SetPawn calls of CreateNew that set up Self's two cannons (rank 2). */
  method SetSelfCannons(b: Board, ghost ranks: set<int>) returns (r: Board)
    requires Partial(b, ranks, 2, 0) && 2 !in ranks
    ensures Partial(r, ranks, 2, Width)
    ensures r.selfScore == b.selfScore + 16 && r.opponentScore == b.opponentScore - 16
    ensures ScoresConsistent(b) ==> ScoresConsistent(r)
  {
    r := b;
    r := Put(r, Pawn(Self, Cannon), Location(1, 2), ranks, 0);
    r := Put(r, Pawn(Self, Cannon), Location(7, 2), ranks, 2);
  }

  /** The SetPawn calls of CreateNew that set up Self's five soldiers (rank 3). */
  method SetSelfSoldiers(b: Board, ghost ranks: set<int>) returns (r: Board)
    requires Partial(b, ranks, 3, 0) && 3 !in ranks
    ensures Partial(r, ranks, 3, Width)
    ensures r.selfScore == b.selfScore + 5 && r.opponentScore == b.opponentScore - 5
    ensures ScoresConsistent(b) ==> ScoresConsistent(r)
  {
    r := b;
    r := Put(r, Pawn(Self, Soldier), Location(0, 3), ranks, 0);
    r := Put(r, Pawn(Self, Soldier), Location(2, 3), ranks, 1);
    r := Put(r, Pawn(Self, Soldier), Location(4, 3), ranks, 3);
    r := Put(r, Pawn(Self, Soldier), Location(6, 3), ranks, 5);
    r := Put(r, Pawn(Self, Soldier), Location(8, 3), ranks, 7);
  }

  /** The SetPawn calls of CreateNew that set up Opponent's back rank (rank 9). */
  method SetOpponentBackRank(b: Board, ghost ranks: set<int>) returns (r: Board)
    requires Partial(b, ranks, 9, 0) && 9 !in ranks
    ensures Partial(r, ranks, 9, Width)
    ensures r.selfScore == b.selfScore - 1042 && r.opponentScore == b.opponentScore + 1042
    ensures ScoresConsistent(b) ==> ScoresConsistent(r)
  {
    r := b;
    r := Put(r, Pawn(Opponent, Chariot), Location(0, 9), ranks, 0);
    r := Put(r, Pawn(Opponent, Horse), Location(1, 9), ranks, 1);
    r := Put(r, Pawn(Opponent, Elephant), Location(2, 9), ranks, 2);
    r := Put(r, Pawn(Opponent, Advisor), Location(3, 9), ranks, 3);
    r := Put(r, Pawn(Opponent, General), Location(4, 9), ranks, 4);
    r := Put(r, Pawn(Opponent, Advisor), Location(5, 9), ranks, 5);
    r := Put(r, Pawn(Opponent, Elephant), Location(6, 9), ranks, 6);
    r := Put(r, Pawn(Opponent, Horse), Location(7, 9), ranks, 7);
    r := Put(r, Pawn(Opponent, Chariot), Location(8, 9), ranks, 8);
  }

  /** The SetPawn calls of CreateNew that set up Opponent's two cannons (rank 7). */
  method SetOpponentCannons(b: Board, ghost ranks: set<int>) returns (r: Board)
    requires Partial(b, ranks, 7, 0) && 7 !in ranks
    ensures Partial(r, ranks, 7, Width)
    ensures r.selfScore == b.selfScore - 16 && r.opponentScore == b.opponentScore + 16
    ensures ScoresConsistent(b) ==> ScoresConsistent(r)
  {
    r := b;
    r := Put(r, Pawn(Opponent, Cannon), Location(1, 7), ranks, 0);
    r := Put(r, Pawn(Opponent, Cannon), Location(7, 7), ranks, 2);
  }

  /** The SetPawn calls of CreateNew that set up Opponent's five soldiers (rank 6). */
  method SetOpponentSoldiers(b: Board, ghost ranks: set<int>) returns (r: Board)
    requires Partial(b, ranks, 6, 0) && 6 !in ranks
    ensures Partial(r, ranks, 6, Width)
    ensures r.selfScore == b.selfScore - 5 && r.opponentScore == b.opponentScore + 5
    ensures ScoresConsistent(b) ==> ScoresConsistent(r)
  {
    r := b;
    r := Put(r, Pawn(Opponent, Soldier), Location(0, 6), ranks, 0);
    r := Put(r, Pawn(Opponent, Soldier), Location(2, 6), ranks, 1);
    r := Put(r, Pawn(Opponent, Soldier), Location(4, 6), ranks, 3);
    r := Put(r, Pawn(Opponent, Soldier), Location(6, 6), ranks, 5);
    r := Put(r, Pawn(Opponent, Soldier), Location(8, 6), ranks, 7);
  }

  /** The starting position: the 32 SetPawn calls on an empty board, in the
      six groups above. It yields exactly the opening position, with both
      scores zero and the score invariant holding. */
  method CreateNew() returns (b: Board)
    ensures forall loc :: At(b, loc) == OpeningPawnAt(loc)
    ensures b.selfScore == 0 && b.opponentScore == 0
    ensures ScoresConsistent(b)
  {
    b := EmptyBoard;
    EmptyBoardConsistent();
    b := SetSelfBackRank(b, {});
    b := SetSelfCannons(b, {0});
    b := SetSelfSoldiers(b, {0, 2});
    b := SetOpponentBackRank(b, {0, 2, 3});
    b := SetOpponentCannons(b, {0, 2, 3, 9});
    b := SetOpponentSoldiers(b, {0, 2, 3, 9, 7});
  }
}
