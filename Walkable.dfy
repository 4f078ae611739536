/** Destination generators of Board.cs: the four ray enumerators and the
    seven per-piece generators. Each generator is a finite sequence of
    destinations in the order the C# iterator yields them. */
module Walkable {
  import opened Results
  import opened Pieces
  import opened Locations
  import opened Boards

  // ---------------------------------------------------------------------------
  // Rays

  /** Left and right run along a rank (x decreasing / increasing), up and
      down along a file (y increasing / decreasing). */
  datatype Direction = Left | Right | Up | Down

  /** The square k steps from loc in direction d. */
  function Toward(loc: Location, d: Direction, k: int): Location {
    match d
    case Left => Location(loc.x - k, loc.y)
    case Right => Location(loc.x + k, loc.y)
    case Up => Location(loc.x, loc.y + k)
    case Down => Location(loc.x, loc.y - k)
  }

  /** How many squares lie strictly beyond loc before the edge. */
  function RayLength(loc: Location, d: Direction): nat
    requires IsLocationAvailable(loc)
  {
    match d
    case Left => loc.x
    case Right => Width - 1 - loc.x
    case Up => Height - 1 - loc.y
    case Down => loc.y
  }

  /** The squares beyond loc in direction d, nearest first, each with its
      occupant: exactly the on-board squares of that half-line. */
  function Ray(b: Board, loc: Location, d: Direction): (r: seq<BoardLocation>)
    requires IsLocationAvailable(loc)
    ensures |r| == RayLength(loc, d)
    ensures forall i :: 0 <= i < |r| ==>
      r[i].location == Toward(loc, d, i + 1) && r[i].pawn == At(b, r[i].location)
    ensures forall k :: 1 <= k ==> (IsLocationAvailable(Toward(loc, d, k)) <==> k <= |r|)
  {
    seq(RayLength(loc, d), i => BoardLocation(Toward(loc, d, i + 1), At(b, Toward(loc, d, i + 1))))
  }

  /** EnumerateLeft: throws for an off-board origin, else walks x down to 0. */
  method EnumerateLeft(b: Board, loc: Location) returns (r: Result<seq<BoardLocation>>)
    ensures r == if IsLocationAvailable(loc) then Success(Ray(b, loc, Left)) else Failure(IndexOutOfRange)
  {
    if !IsLocationAvailable(loc) {
      return Failure(IndexOutOfRange);
    }
    var ray: seq<BoardLocation> := [];
    for x := loc.x downto 0
      invariant ray == Ray(b, loc, Left)[..loc.x - x]
    {
      var current := Location(x, loc.y);
      ray := ray + [BoardLocation(current, GetPawn(b, current).value)];
    }
    assert ray == Ray(b, loc, Left);
    return Success(ray);
  }

  /** EnumerateRight: throws for an off-board origin, else walks x up to 8. */
  method EnumerateRight(b: Board, loc: Location) returns (r: Result<seq<BoardLocation>>)
    ensures r == if IsLocationAvailable(loc) then Success(Ray(b, loc, Right)) else Failure(IndexOutOfRange)
  {
    if !IsLocationAvailable(loc) {
      return Failure(IndexOutOfRange);
    }
    var ray: seq<BoardLocation> := [];
    for x := loc.x + 1 to Width
      invariant ray == Ray(b, loc, Right)[..x - loc.x - 1]
    {
      var current := Location(x, loc.y);
      ray := ray + [BoardLocation(current, GetPawn(b, current).value)];
    }
    assert ray == Ray(b, loc, Right);
    return Success(ray);
  }

  /** EnumerateUp: throws for an off-board origin, else walks y up to 9. */
  method EnumerateUp(b: Board, loc: Location) returns (r: Result<seq<BoardLocation>>)
    ensures r == if IsLocationAvailable(loc) then Success(Ray(b, loc, Up)) else Failure(IndexOutOfRange)
  {
    if !IsLocationAvailable(loc) {
      return Failure(IndexOutOfRange);
    }
    var ray: seq<BoardLocation> := [];
    for y := loc.y + 1 to Height
      invariant ray == Ray(b, loc, Up)[..y - loc.y - 1]
    {
      var current := Location(loc.x, y);
      ray := ray + [BoardLocation(current, GetPawn(b, current).value)];
    }
    assert ray == Ray(b, loc, Up);
    return Success(ray);
  }

  /** EnumerateDown: throws for an off-board origin, else walks y down to 0. */
  method EnumerateDown(b: Board, loc: Location) returns (r: Result<seq<BoardLocation>>)
    ensures r == if IsLocationAvailable(loc) then Success(Ray(b, loc, Down)) else Failure(IndexOutOfRange)
  {
    if !IsLocationAvailable(loc) {
      return Failure(IndexOutOfRange);
    }
    var ray: seq<BoardLocation> := [];
    for y := loc.y downto 0
      invariant ray == Ray(b, loc, Down)[..loc.y - y]
    {
      var current := Location(loc.x, y);
      ray := ray + [BoardLocation(current, GetPawn(b, current).value)];
    }
    assert ray == Ray(b, loc, Down);
    return Success(ray);
  }

  /** The four rays in the order both ray pieces scan them. */
  function Rays(b: Board, loc: Location): seq<seq<BoardLocation>>
    requires IsLocationAvailable(loc)
  {
    [Ray(b, loc, Left), Ray(b, loc, Right), Ray(b, loc, Up), Ray(b, loc, Down)]
  }

  /** Calls the four enumerators, as both ray pieces do before scanning. */
  method EnumerateRays(b: Board, loc: Location) returns (r: Result<seq<seq<BoardLocation>>>)
    ensures r == if IsLocationAvailable(loc) then Success(Rays(b, loc)) else Failure(IndexOutOfRange)
  {
    var left := EnumerateLeft(b, loc);
    var right := EnumerateRight(b, loc);
    var up := EnumerateUp(b, loc);
    var down := EnumerateDown(b, loc);
    if left.Failure? {
      return Failure(left.error);
    }
    return Success([left.value, right.value, up.value, down.value]);
  }

  // ---------------------------------------------------------------------------
  // Shape of a ray

  /** The locations of a run of squares. */
  function Locs(ray: seq<BoardLocation>): (r: seq<Location>)
    ensures |r| == |ray| && forall i :: 0 <= i < |ray| ==> r[i] == ray[i].location
  {
    seq(|ray|, i requires 0 <= i < |ray| => ray[i].location)
  }

  /** Index of the first occupied square of a ray, |ray| when all are empty. */
  function FirstOccupied(ray: seq<BoardLocation>): (k: nat)
    ensures k <= |ray|
    ensures forall i :: 0 <= i < k ==> ray[i].pawn.None?
    ensures k < |ray| ==> ray[k].pawn.Some?
  {
    if ray == [] || ray[0].pawn.Some? then 0 else 1 + FirstOccupied(ray[1..])
  }

  /** FirstOccupied is the index of the first occupied square. */
  lemma FirstOccupiedAt(ray: seq<BoardLocation>, i: int)
    requires 0 <= i <= |ray|
    requires forall j :: 0 <= j < i ==> ray[j].pawn.None?
    requires i < |ray| ==> ray[i].pawn.Some?
    ensures FirstOccupied(ray) == i
  {
  }

  /** The chariot's moves along one ray: the empty squares before the first
      occupied one, then that square if it holds the other camp. */
  function ChariotRay(ray: seq<BoardLocation>, camp: Camp): seq<Location> {
    var k := FirstOccupied(ray);
    Locs(ray[..k]) + if k < |ray| && ray[k].pawn.value.camp != camp then [ray[k].location] else []
  }

  /** The cannon's moves along one ray: the empty squares before the first
      occupied one (the screen); past the screen only the next occupied
      square, and only if it holds the other camp. */
  function CannonRay(ray: seq<BoardLocation>, camp: Camp): seq<Location> {
    var k := FirstOccupied(ray);
    if k == |ray| then Locs(ray)
    else
      var beyond := ray[k + 1..];
      var m := FirstOccupied(beyond);
      Locs(ray[..k]) + if m < |beyond| && beyond[m].pawn.value.camp != camp then [beyond[m].location] else []
  }

  /** The chariot's ray moves are a prefix of the ray, in ray order, and
      square i is among them exactly when every square before it is empty
      and square i is empty or holds the other camp; so nothing past the
      first occupied square is ever produced. */
  lemma ChariotRayMoves(ray: seq<BoardLocation>, camp: Camp)
    ensures |ChariotRay(ray, camp)| <= |ray|
    ensures forall j :: 0 <= j < |ChariotRay(ray, camp)| ==> ChariotRay(ray, camp)[j] == ray[j].location
    ensures forall i :: 0 <= i < |ray| ==>
      (i < |ChariotRay(ray, camp)| <==>
        (forall j :: 0 <= j < i ==> ray[j].pawn.None?) && (ray[i].pawn.None? || ray[i].pawn.value.camp != camp))
  {
    var k := FirstOccupied(ray);
    assert k < |ray| ==> ray[k].pawn.Some?;
  }

  /** The cannon's ray moves start with the ray's squares before the
      screen (the first occupied square), in order and all empty; past the
      screen at most one more square follows. */
  lemma CannonBeforeScreen(ray: seq<BoardLocation>, camp: Camp)
    ensures forall j :: 0 <= j < |CannonRay(ray, camp)| && j < FirstOccupied(ray) ==>
      CannonRay(ray, camp)[j] == ray[j].location && ray[j].pawn.None?
    ensures FirstOccupied(ray) == |ray| ==> |CannonRay(ray, camp)| == |ray|
    ensures FirstOccupied(ray) < |ray| ==>
      |CannonRay(ray, camp)| == FirstOccupied(ray) || |CannonRay(ray, camp)| == FirstOccupied(ray) + 1
  {
  }

  /** The square after the screen is produced exactly when, past the screen,
      the next occupied square holds the other camp, and it is that square;
      so the screen itself is never produced. */
  lemma {:induction false} CannonPastScreen(ray: seq<BoardLocation>, camp: Camp, i: int)
    requires FirstOccupied(ray) < i < |ray|
    requires forall j :: FirstOccupied(ray) < j < i ==> ray[j].pawn.None?
    requires ray[i].pawn.Some?
    ensures |CannonRay(ray, camp)| == FirstOccupied(ray) + 1 <==> ray[i].pawn.value.camp != camp
    ensures |CannonRay(ray, camp)| == FirstOccupied(ray) + 1 ==> CannonRay(ray, camp)[FirstOccupied(ray)] == ray[i].location
  {
    var k := FirstOccupied(ray);
    var beyond := ray[k + 1..];
    forall j | 0 <= j < i - k - 1
      ensures beyond[j].pawn.None?
    {
      assert beyond[j] == ray[k + 1 + j];
    }
    assert beyond[i - k - 1] == ray[i];
    FirstOccupiedAt(beyond, i - k - 1);
  }

  /** Past the screen with no occupied square after it, nothing more is produced. */
  lemma {:induction false} CannonNothingPastScreen(ray: seq<BoardLocation>, camp: Camp)
    requires FirstOccupied(ray) < |ray|
    requires forall j :: FirstOccupied(ray) < j < |ray| ==> ray[j].pawn.None?
    ensures |CannonRay(ray, camp)| == FirstOccupied(ray)
  {
    var k := FirstOccupied(ray);
    var beyond := ray[k + 1..];
    forall j | 0 <= j < |beyond|
      ensures beyond[j].pawn.None?
    {
      assert beyond[j] == ray[k + 1 + j];
    }
    FirstOccupiedAt(beyond, |beyond|);
  }

  // ---------------------------------------------------------------------------
  // Chariot and cannon

  /** The chariot moves of several rays, one ray after the other. */
  function ChariotMoves(rays: seq<seq<BoardLocation>>, camp: Camp): seq<Location> {
    if rays == [] then [] else ChariotMoves(rays[..|rays| - 1], camp) + ChariotRay(rays[|rays| - 1], camp)
  }

  /** The cannon moves of several rays, one ray after the other. */
  function CannonMoves(rays: seq<seq<BoardLocation>>, camp: Camp): seq<Location> {
    if rays == [] then [] else CannonMoves(rays[..|rays| - 1], camp) + CannonRay(rays[|rays| - 1], camp)
  }

  /** All chariot moves: left, right, up, down rays in turn. */
  function ChariotTargets(b: Board, loc: Location, camp: Camp): seq<Location>
    requires IsLocationAvailable(loc)
  {
    ChariotMoves(Rays(b, loc), camp)
  }

  /** All cannon moves: left, right, up, down rays in turn. */
  function CannonTargets(b: Board, loc: Location, camp: Camp): seq<Location>
    requires IsLocationAvailable(loc)
  {
    CannonMoves(Rays(b, loc), camp)
  }

  /** The inner loop of the chariot generator over one ray: yield empty and
      enemy squares, stop at the first occupied one. */
  method ScanChariotRay(ray: seq<BoardLocation>, camp: Camp) returns (moves: seq<Location>)
    ensures moves == ChariotRay(ray, camp)
  {
    moves := [];
    var i := 0;
    while i < |ray|
      invariant 0 <= i <= |ray|
      invariant forall j :: 0 <= j < i ==> ray[j].pawn.None?
      invariant moves == Locs(ray[..i])
    {
      var square := ray[i];
      if square.pawn.None? || square.pawn.value.camp != camp {
        moves := moves + [square.location];
      }
      if square.pawn.Some? {
        break;
      }
      assert Locs(ray[..i + 1]) == Locs(ray[..i]) + [square.location];
      i := i + 1;
    }
    FirstOccupiedAt(ray, i);
  }

  /** The chariot generator: the four rays in turn. */
  method GetChariotWalkableLocations(b: Board, loc: Location, camp: Camp) returns (r: Result<seq<Location>>)
    ensures r == if IsLocationAvailable(loc) then Success(ChariotTargets(b, loc, camp)) else Failure(IndexOutOfRange)
  {
    var enumerated := EnumerateRays(b, loc);
    if enumerated.Failure? {
      return Failure(enumerated.error);
    }
    var rays := enumerated.value;
    var result: seq<Location> := [];
    for n := 0 to |rays|
      invariant result == ChariotMoves(rays[..n], camp)
    {
      var moves := ScanChariotRay(rays[n], camp);
      assert rays[..n + 1][..n] == rays[..n];
      result := result + moves;
    }
    assert rays[..|rays|] == rays;
    return Success(result);
  }

  /** The inner loop of the cannon generator over one ray; metEnemy marks
      that the screen has been passed. */
  method ScanCannonRay(b: Board, ray: seq<BoardLocation>, camp: Camp) returns (moves: seq<Location>)
    requires forall j :: 0 <= j < |ray| ==> IsLocationAvailable(ray[j].location) && ray[j].pawn == At(b, ray[j].location)
    ensures moves == CannonRay(ray, camp)
  {
    hide At, FirstOccupied, GetPawn;
    moves := [];
    var metEnemy := false;
    ghost var captured := false;
    var i := 0;
    while i < |ray|
      invariant 0 <= i <= |ray|
      invariant !metEnemy ==> (forall j :: 0 <= j < i ==> ray[j].pawn.None?) && moves == Locs(ray[..i])
      invariant metEnemy ==> FirstOccupied(ray) < i && moves == Locs(ray[..FirstOccupied(ray)]) &&
                             forall j :: FirstOccupied(ray) < j < i ==> ray[j].pawn.None?
      invariant !captured
    {
      var square := ray[i];
      if !metEnemy {
        if IsLocationEmpty(b, square.location) {
          moves := moves + [square.location];
          assert Locs(ray[..i + 1]) == Locs(ray[..i]) + [square.location];
        } else {
          metEnemy := true;
          FirstOccupiedAt(ray, i);
        }
      } else {
        var pawn := GetPawn(b, square.location).value;
        if pawn.Some? {
          if pawn.value.camp != camp {
            moves := moves + [square.location];
          }
          captured := true;
          break;
        }
      }
      i := i + 1;
    }
    var k := FirstOccupied(ray);
    if metEnemy {
      var beyond := ray[k + 1..];
      if captured {
        assert beyond[i - k - 1] == ray[i];
        FirstOccupiedAt(beyond, i - k - 1);
      } else {
        FirstOccupiedAt(beyond, |beyond|);
      }
    } else {
      FirstOccupiedAt(ray, |ray|);
    }
  }

  /** The cannon generator: the four rays in turn. */
  method GetCannonWalkableLocations(b: Board, loc: Location, camp: Camp) returns (r: Result<seq<Location>>)
    ensures r == if IsLocationAvailable(loc) then Success(CannonTargets(b, loc, camp)) else Failure(IndexOutOfRange)
  {
    hide At, CannonRay, Ray;
    var enumerated := EnumerateRays(b, loc);
    if enumerated.Failure? {
      return Failure(enumerated.error);
    }
    var rays := enumerated.value;
    var result: seq<Location> := [];
    for n := 0 to |rays|
      invariant result == CannonMoves(rays[..n], camp)
    {
      var moves := ScanCannonRay(b, rays[n], camp);
      assert rays[..n + 1][..n] == rays[..n];
      result := result + moves;
    }
    assert rays[..|rays|] == rays;
    return Success(result);
  }

  // ---------------------------------------------------------------------------
  // What the ray pieces can land on

  /** A square a piece of `camp` may move to: on the board and empty, or
      holding a piece of the other camp. */
  predicate CanLand(b: Board, t: Location, camp: Camp) {
    IsLocationEmpty(b, t) || IsLocationDifferentCamp(b, t, camp)
  }

  /** A ray of the board: its squares are on the board and carry their occupants. */
  ghost predicate IsRayOf(b: Board, ray: seq<BoardLocation>) {
    forall j :: 0 <= j < |ray| ==> IsLocationAvailable(ray[j].location) && ray[j].pawn == At(b, ray[j].location)
  }

  /** Every chariot move along a ray of the board is a square it may land on. */
  lemma ChariotRayLands(b: Board, ray: seq<BoardLocation>, camp: Camp)
    requires IsRayOf(b, ray)
    ensures forall t :: t in ChariotRay(ray, camp) ==> CanLand(b, t, camp)
  {
    ChariotRayMoves(ray, camp);
    forall t | t in ChariotRay(ray, camp)
      ensures CanLand(b, t, camp)
    {
      var j :| 0 <= j < |ChariotRay(ray, camp)| && ChariotRay(ray, camp)[j] == t;
      assert ray[j].location == t;
    }
  }

  /** Every cannon move along a ray of the board is a square it may land on. */
  lemma CannonRayLands(b: Board, ray: seq<BoardLocation>, camp: Camp)
    requires IsRayOf(b, ray)
    ensures forall t :: t in CannonRay(ray, camp) ==> CanLand(b, t, camp)
  {
    CannonBeforeScreen(ray, camp);
    var k := FirstOccupied(ray);
    if k < |ray| {
      var beyond := ray[k + 1..];
      var m := FirstOccupied(beyond);
      if m < |beyond| {
        assert beyond[m] == ray[k + 1 + m];
      }
    }
  }

  /** The rays of an on-board square are rays of the board. */
  lemma RaysOfBoard(b: Board, loc: Location)
    requires IsLocationAvailable(loc)
    ensures forall n :: 0 <= n < |Rays(b, loc)| ==> IsRayOf(b, Rays(b, loc)[n])
  {
    forall n, j | 0 <= n < 4 && 0 <= j < |Rays(b, loc)[n]|
      ensures IsLocationAvailable(Rays(b, loc)[n][j].location)
    {
      var d := [Left, Right, Up, Down][n];
      assert Rays(b, loc)[n] == Ray(b, loc, d);
      assert IsLocationAvailable(Toward(loc, d, j + 1));
    }
  }

  /** Chariot and cannon only ever move to on-board squares that are empty or
      hold the other camp. */
  lemma {:induction false} RayPiecesLand(b: Board, rays: seq<seq<BoardLocation>>, camp: Camp)
    requires forall n :: 0 <= n < |rays| ==> IsRayOf(b, rays[n])
    ensures forall t :: t in ChariotMoves(rays, camp) ==> CanLand(b, t, camp)
    ensures forall t :: t in CannonMoves(rays, camp) ==> CanLand(b, t, camp)
  {
    if rays != [] {
      RayPiecesLand(b, rays[..|rays| - 1], camp);
      ChariotRayLands(b, rays[|rays| - 1], camp);
      CannonRayLands(b, rays[|rays| - 1], camp);
    }
  }

  // ---------------------------------------------------------------------------
  // Horse, soldier, advisor, elephant, general

  function Abs(n: int): nat {
    if n < 0 then -n else n
  }

  /** The one-element sequence [t] when c holds, nothing otherwise: one
      guarded `yield return`. */
  function YieldIf(c: bool, t: Location): (r: seq<Location>)
    ensures forall u :: u in r <==> c && u == t
  {
    if c then [t] else []
  }

  /** One leg of the horse generator: when the leg square is empty, the two
      jumps past it whose guards hold, in order. */
  function LegJumps(legEmpty: bool, c1: bool, t1: Location, c2: bool, t2: Location): (r: seq<Location>)
    ensures forall t :: t in r <==> legEmpty && ((c1 && t == t1) || (c2 && t == t2))
  {
    if legEmpty then YieldIf(c1, t1) + YieldIf(c2, t2) else []
  }

  /** The horse generator: for each leg square (left, right, up, down) that
      is empty, the two squares beyond it. */
  function HorseTargets(b: Board, loc: Location, camp: Camp): seq<Location> {
    HorseLeft(b, loc, camp) + HorseRight(b, loc, camp) + HorseUp(b, loc, camp) + HorseDown(b, loc, camp)
  }

  /** The left leg: the two squares two files left, onto a square the horse may land on. */
  function HorseLeft(b: Board, loc: Location, camp: Camp): seq<Location> {
    var x, y := loc.x, loc.y;
    LegJumps(IsLocationEmpty(b, Location(x - 1, y)),
      CanLand(b, Location(x - 2, y - 1), camp), Location(x - 2, y - 1),
      CanLand(b, Location(x - 2, y + 1), camp), Location(x - 2, y + 1))
  }

  /** The right leg: the two squares two files right, onto a square the horse may land on. */
  function HorseRight(b: Board, loc: Location, camp: Camp): seq<Location> {
    var x, y := loc.x, loc.y;
    LegJumps(IsLocationEmpty(b, Location(x + 1, y)),
      CanLand(b, Location(x + 2, y - 1), camp), Location(x + 2, y - 1),
      CanLand(b, Location(x + 2, y + 1), camp), Location(x + 2, y + 1))
  }

  /** The up leg: the two squares two ranks up, onto a square the horse may land on. */
  function HorseUp(b: Board, loc: Location, camp: Camp): seq<Location> {
    var x, y := loc.x, loc.y;
    LegJumps(IsLocationEmpty(b, Location(x, y + 1)),
      CanLand(b, Location(x - 1, y + 2), camp), Location(x - 1, y + 2),
      CanLand(b, Location(x + 1, y + 2), camp), Location(x + 1, y + 2))
  }

  /** The down leg: the two squares two ranks down, needing only to be on the board. */
  function HorseDown(b: Board, loc: Location, camp: Camp): seq<Location> {
    var x, y := loc.x, loc.y;
    LegJumps(IsLocationEmpty(b, Location(x, y - 1)),
      IsLocationAvailable(Location(x - 1, y - 2)), Location(x - 1, y - 2),
      IsLocationAvailable(Location(x + 1, y - 2)), Location(x + 1, y - 2))
  }

  /** A horse jump: two squares along one axis and one along the other. */
  predicate HorseJump(from: Location, to: Location) {
    (Abs(to.x - from.x) == 2 && Abs(to.y - from.y) == 1) ||
    (Abs(to.x - from.x) == 1 && Abs(to.y - from.y) == 2)
  }

  /** The square next to `from` in the jump's long direction, which must be
      empty for the jump. */
  function HorseLeg(from: Location, to: Location): Location {
    if to.x == from.x - 2 then Location(from.x - 1, from.y)
    else if to.x == from.x + 2 then Location(from.x + 1, from.y)
    else if to.y == from.y + 2 then Location(from.x, from.y + 1)
    else Location(from.x, from.y - 1)
  }

  /** The horse's rule: a jump whose leg square is empty, onto a square it
      may land on, except that a jump two ranks down only needs an on-board
      destination. */
  predicate HorseRule(b: Board, loc: Location, camp: Camp, t: Location) {
    HorseJump(loc, t) && IsLocationEmpty(b, HorseLeg(loc, t)) &&
    (CanLand(b, t, camp) || (t.y == loc.y - 2 && IsLocationAvailable(t)))
  }

  /** Each leg yields exactly its two jumps, when the leg square is empty
      and the destination passes the leg's test. */
  lemma HorseLeftJumps(b: Board, loc: Location, camp: Camp, t: Location)
    ensures t in HorseLeft(b, loc, camp) <==>
      t.x == loc.x - 2 && (t.y == loc.y - 1 || t.y == loc.y + 1) &&
      IsLocationEmpty(b, Location(loc.x - 1, loc.y)) && CanLand(b, t, camp)
  {
  }

  lemma HorseRightJumps(b: Board, loc: Location, camp: Camp, t: Location)
    ensures t in HorseRight(b, loc, camp) <==>
      t.x == loc.x + 2 && (t.y == loc.y - 1 || t.y == loc.y + 1) &&
      IsLocationEmpty(b, Location(loc.x + 1, loc.y)) && CanLand(b, t, camp)
  {
  }

  lemma HorseUpJumps(b: Board, loc: Location, camp: Camp, t: Location)
    ensures t in HorseUp(b, loc, camp) <==>
      t.y == loc.y + 2 && (t.x == loc.x - 1 || t.x == loc.x + 1) &&
      IsLocationEmpty(b, Location(loc.x, loc.y + 1)) && CanLand(b, t, camp)
  {
  }

  lemma HorseDownJumps(b: Board, loc: Location, camp: Camp, t: Location)
    ensures t in HorseDown(b, loc, camp) <==>
      t.y == loc.y - 2 && (t.x == loc.x - 1 || t.x == loc.x + 1) &&
      IsLocationEmpty(b, Location(loc.x, loc.y - 1)) && IsLocationAvailable(t)
  {
  }

  /** The horse generator yields exactly the destinations of the horse's rule. */
  lemma HorseMoves(b: Board, loc: Location, camp: Camp, t: Location)
    ensures t in HorseTargets(b, loc, camp) <==> HorseRule(b, loc, camp, t)
  {
    assert CanLand(b, t, camp) ==> IsLocationAvailable(t);
    HorseLeftJumps(b, loc, camp, t);
    HorseRightJumps(b, loc, camp, t);
    HorseUpJumps(b, loc, camp, t);
    HorseDownJumps(b, loc, camp, t);
    hide HorseLeft, HorseRight, HorseUp, HorseDown, At, CanLand, IsLocationEmpty, IsLocationAvailable;
    var x, y := loc.x, loc.y;
    if t.x == x - 2 && (t.y == y - 1 || t.y == y + 1) {
      assert HorseJump(loc, t) && HorseLeg(loc, t) == Location(x - 1, y);
    } else if t.x == x + 2 && (t.y == y - 1 || t.y == y + 1) {
      assert HorseJump(loc, t) && HorseLeg(loc, t) == Location(x + 1, y);
    } else if t.y == y + 2 && (t.x == x - 1 || t.x == x + 1) {
      assert HorseJump(loc, t) && HorseLeg(loc, t) == Location(x, y + 1);
    } else if t.y == y - 2 && (t.x == x - 1 || t.x == x + 1) {
      assert HorseJump(loc, t) && HorseLeg(loc, t) == Location(x, y - 1);
    } else {
      assert !HorseJump(loc, t);
    }
  }

  /** The down-branch quirk: a jump two ranks down with an empty leg is
      produced even onto a square holding a piece of the horse's own camp. */
  lemma HorseDownOntoOwnPiece(b: Board, loc: Location, camp: Camp, t: Location)
    requires t.y == loc.y - 2 && Abs(t.x - loc.x) == 1
    requires IsLocationEmpty(b, Location(loc.x, loc.y - 1))
    requires IsLocationSpecifiedCamp(b, t, camp)
    ensures t in HorseTargets(b, loc, camp) && !CanLand(b, t, camp)
  {
    HorseMoves(b, loc, camp, t);
  }

  /** The square straight ahead of a soldier: up for Self, down for Opponent. */
  function Forward(loc: Location, camp: Camp): Location {
    if camp == Self then Location(loc.x, loc.y + 1) else Location(loc.x, loc.y - 1)
  }

  /** Whether a soldier stands beyond the river: rank above 4 for Self,
      below 5 for Opponent. */
  predicate Crossed(loc: Location, camp: Camp) {
    if camp == Self then loc.y > 4 else loc.y < 5
  }

  /** The soldier generator: the forward square, then, once across the
      river, the left and right squares under the test
      `IsLocationAvailable || IsLocationDifferentCamp`. */
  function SoldierTargets(b: Board, loc: Location, camp: Camp): seq<Location> {
    var left := Location(loc.x - 1, loc.y);
    var right := Location(loc.x + 1, loc.y);
    var forward := Forward(loc, camp);
    YieldIf(CanLand(b, forward, camp), forward) +
    if Crossed(loc, camp) then
      YieldIf(IsLocationAvailable(left) || IsLocationDifferentCamp(b, left, camp), left) +
      YieldIf(IsLocationAvailable(right) || IsLocationDifferentCamp(b, right, camp), right)
    else []
  }

  /** A soldier moves forward onto a square it may land on, or, once across
      the river, one square sideways onto any on-board square. */
  lemma SoldierMoves(b: Board, loc: Location, camp: Camp, t: Location)
    ensures t in SoldierTargets(b, loc, camp) <==>
      (t == Forward(loc, camp) && CanLand(b, t, camp)) ||
      (Crossed(loc, camp) && t.y == loc.y && Abs(t.x - loc.x) == 1 && IsLocationAvailable(t))
  {
  }

  /** The sideways quirk: across the river a soldier's sideways step is
      produced even onto a square holding a piece of its own camp. */
  lemma SoldierSidewaysOntoOwnPiece(b: Board, loc: Location, camp: Camp, t: Location)
    requires Crossed(loc, camp) && t.y == loc.y && Abs(t.x - loc.x) == 1
    requires IsLocationSpecifiedCamp(b, t, camp)
    ensures t in SoldierTargets(b, loc, camp) && !CanLand(b, t, camp)
  {
    SoldierMoves(b, loc, camp, t);
  }

  /** The palace of a camp: files 3..5, ranks 0..2 for Self and 7..9 for Opponent. */
  predicate InPalace(camp: Camp, t: Location) {
    3 <= t.x <= 5 && if camp == Self then 0 <= t.y <= 2 else 7 <= t.y <= 9
  }

  /** The candidate steps in order, skipping those outside the palace and
      those the piece may not land on. */
  function PalaceSteps(b: Board, camp: Camp, steps: seq<Location>): (r: seq<Location>)
    ensures forall t :: t in r <==> t in steps && InPalace(camp, t) && CanLand(b, t, camp)
  {
    if steps == [] then []
    else YieldIf(InPalace(camp, steps[0]) && CanLand(b, steps[0], camp), steps[0]) + PalaceSteps(b, camp, steps[1..])
  }

  /** The advisor generator: the four diagonal neighbours, in the order
      left-up, right-up, left-down, right-down. */
  function AdvisorTargets(b: Board, loc: Location, camp: Camp): seq<Location> {
    PalaceSteps(b, camp, [Location(loc.x - 1, loc.y + 1), Location(loc.x + 1, loc.y + 1),
                          Location(loc.x - 1, loc.y - 1), Location(loc.x + 1, loc.y - 1)])
  }

  /** An advisor moves one square diagonally, inside its palace, onto a
      square it may land on. */
  lemma AdvisorMoves(b: Board, loc: Location, camp: Camp, t: Location)
    ensures t in AdvisorTargets(b, loc, camp) <==>
      Abs(t.x - loc.x) == 1 && Abs(t.y - loc.y) == 1 && InPalace(camp, t) && CanLand(b, t, camp)
  {
  }

  /** The general generator: the four orthogonal neighbours, in the order
      left, right, down, up. */
  function GeneralTargets(b: Board, loc: Location, camp: Camp): seq<Location> {
    PalaceSteps(b, camp, [Location(loc.x - 1, loc.y), Location(loc.x + 1, loc.y),
                          Location(loc.x, loc.y - 1), Location(loc.x, loc.y + 1)])
  }

  /** A general moves one square orthogonally, inside its palace, onto a
      square it may land on. */
  lemma GeneralMoves(b: Board, loc: Location, camp: Camp, t: Location)
    ensures t in GeneralTargets(b, loc, camp) <==>
      Abs(t.x - loc.x) + Abs(t.y - loc.y) == 1 && InPalace(camp, t) && CanLand(b, t, camp)
  {
  }

  /** The elephant generator: for each diagonal, if the "eye" square next to
      the elephant is empty, the square beyond it when it may land there. */
  function ElephantTargets(b: Board, loc: Location, camp: Camp): seq<Location> {
    var x := loc.x;
    var y := loc.y;
    YieldIf(IsLocationEmpty(b, Location(x - 1, y - 1)) && CanLand(b, Location(x - 2, y - 2), camp), Location(x - 2, y - 2)) +
    YieldIf(IsLocationEmpty(b, Location(x + 1, y - 1)) && CanLand(b, Location(x + 2, y - 2), camp), Location(x + 2, y - 2)) +
    YieldIf(IsLocationEmpty(b, Location(x - 1, y + 1)) && CanLand(b, Location(x - 2, y + 2), camp), Location(x - 2, y + 2)) +
    YieldIf(IsLocationEmpty(b, Location(x + 1, y + 1)) && CanLand(b, Location(x + 2, y + 2), camp), Location(x + 2, y + 2))
  }

  /** The square diagonally next to `from` on the way to `to`. */
  function ElephantEye(from: Location, to: Location): Location {
    Location(if to.x < from.x then from.x - 1 else from.x + 1,
             if to.y < from.y then from.y - 1 else from.y + 1)
  }

  /** An elephant moves exactly two squares diagonally when the square in
      between is empty, onto a square it may land on; no river limit applies. */
  lemma ElephantMoves(b: Board, loc: Location, camp: Camp, t: Location)
    ensures t in ElephantTargets(b, loc, camp) <==>
      Abs(t.x - loc.x) == 2 && Abs(t.y - loc.y) == 2 &&
      IsLocationEmpty(b, ElephantEye(loc, t)) && CanLand(b, t, camp)
  {
    hide At;
  }

  // ---------------------------------------------------------------------------
  // GetWalkableLocations

  /** The destinations of a piece, by kind. Only the ray pieces throw, for an
      off-board square. */
  function WalkableLocations(b: Board, p: PawnOnBoard): Result<seq<Location>> {
    var loc := p.location;
    var camp := p.pawn.camp;
    match p.pawn.kind
    case Chariot => if IsLocationAvailable(loc) then Success(ChariotTargets(b, loc, camp)) else Failure(IndexOutOfRange)
    case Horse => Success(HorseTargets(b, loc, camp))
    case Cannon => if IsLocationAvailable(loc) then Success(CannonTargets(b, loc, camp)) else Failure(IndexOutOfRange)
    case Soldier => Success(SoldierTargets(b, loc, camp))
    case Advisor => Success(AdvisorTargets(b, loc, camp))
    case Elephant => Success(ElephantTargets(b, loc, camp))
    case General => Success(GeneralTargets(b, loc, camp))
  }

  /** The dispatch of GetWalkableLocations over the piece kind. */
  method GetWalkableLocations(b: Board, p: PawnOnBoard) returns (r: Result<seq<Location>>)
    ensures r == WalkableLocations(b, p)
  {
    var loc := p.location;
    var camp := p.pawn.camp;
    match p.pawn.kind
    case Chariot => r := GetChariotWalkableLocations(b, loc, camp);
    case Horse => r := Success(HorseTargets(b, loc, camp));
    case Cannon => r := GetCannonWalkableLocations(b, loc, camp);
    case Soldier => r := Success(SoldierTargets(b, loc, camp));
    case Advisor => r := Success(AdvisorTargets(b, loc, camp));
    case Elephant => r := Success(ElephantTargets(b, loc, camp));
    case General => r := Success(GeneralTargets(b, loc, camp));
  }

  /** Every destination any generator yields is on the board; only the ray
      pieces fail, and only for an off-board square; and apart from the two
      quirks (the horse's downward jump and the soldier's sideways step),
      every destination is empty or holds the other camp. */
  lemma WalkableOnBoard(b: Board, p: PawnOnBoard)
    ensures WalkableLocations(b, p).Failure? <==>
      (p.pawn.kind == Chariot || p.pawn.kind == Cannon) && !IsLocationAvailable(p.location)
    ensures WalkableLocations(b, p).Success? ==>
      forall t :: t in WalkableLocations(b, p).value ==> IsLocationAvailable(t)
    ensures WalkableLocations(b, p).Success? && p.pawn.kind != Horse && p.pawn.kind != Soldier ==>
      forall t :: t in WalkableLocations(b, p).value ==> CanLand(b, t, p.pawn.camp)
  {
    hide At, Ray, ChariotRay, CannonRay, FirstOccupied;
    var loc := p.location;
    var camp := p.pawn.camp;
    match p.pawn.kind
    case Chariot =>
      if IsLocationAvailable(loc) {
        RaysOfBoard(b, loc);
        RayPiecesLand(b, Rays(b, loc), camp);
      }
    case Cannon =>
      if IsLocationAvailable(loc) {
        RaysOfBoard(b, loc);
        RayPiecesLand(b, Rays(b, loc), camp);
      }
    case Horse =>
      forall t | t in HorseTargets(b, loc, camp)
        ensures IsLocationAvailable(t)
      {
        HorseMoves(b, loc, camp, t);
      }
    case Soldier =>
      forall t | t in SoldierTargets(b, loc, camp)
        ensures IsLocationAvailable(t)
      {
        SoldierMoves(b, loc, camp, t);
      }
    case Advisor =>
    case Elephant =>
    case General =>
  }
}
