/** The ergodic robot: it grows the whole tree of operations to a depth and
    plays the first operation of the path whose future score offsets weigh
    most. */
module ErgodicRobots {
  import opened Results
  import opened Pieces
  import opened Locations
  import opened Boards
  import BoardScan
  import Walkable
  import opened Games
  import opened StepTrees

  // ---------------------------------------------------------------------------
  // Which camp moves at a depth

  /** The camp whose operations are generated at `depth`: the camp to move at
      depth 1 and below, the two camps alternating from there on. */
  function CampAt(turn: Camp, depth: int): Camp {
    if depth <= 1 || (depth - 1) % 2 == 0 then turn else GetOtherCamp(turn)
  }

  /** Depth 1 is the camp to move, and each depth after it is the other camp
      of the one before. */
  lemma CampAtAlternates(turn: Camp, depth: int)
    ensures CampAt(turn, 1) == turn
    ensures depth >= 1 ==> CampAt(turn, depth + 1) == GetOtherCamp(CampAt(turn, depth))
  {
    if depth >= 1 && (depth - 1) % 2 != 0 {
      OtherCampInvolution(turn);
    }
  }

  /** The loop at the top of GenerateGameOperations: the camp to move,
      switched once for every depth after the first. */
  method OperateCamp(turn: Camp, currentDepth: int) returns (c: Camp)
    ensures c == CampAt(turn, currentDepth)
  {
    c := turn;
    var i := 1;
    while i < currentDepth
      invariant 1 <= i <= if currentDepth >= 1 then currentDepth else 1
      invariant c == CampAt(turn, i)
    {
      CampAtAlternates(turn, i);
      c := GetOtherCamp(c);
      i := i + 1;
    }
  }

  // ---------------------------------------------------------------------------
  // GenerateGameOperations

  /** The operations of one piece: one per destination GetWalkableLocations
      yields, in order, capturing whatever stands there. A failing generator
      yields nothing here; PieceOpsOnBoard shows it never fails for a piece
      that stands on the board. */
  function PieceOps(b: Board, p: PawnOnBoard): (r: seq<GameOperation>)
    ensures Walkable.WalkableLocations(b, p).Success? ==> |r| == |Walkable.WalkableLocations(b, p).value|
  {
    match Walkable.WalkableLocations(b, p)
    case Failure(_) => []
    case Success(ts) => seq(|ts|, k requires 0 <= k < |ts| => GameOperation(p.location, ts[k], At(b, ts[k])))
  }

  /** The operations of a run of pieces, piece after piece. */
  function OpsOf(b: Board, ps: seq<PawnOnBoard>): seq<GameOperation> {
    if ps == [] then [] else OpsOf(b, ps[..|ps| - 1]) + PieceOps(b, ps[|ps| - 1])
  }

  /** GenerateGameOperations for the game whose camp to move is `turn`: every
      destination of every piece of the camp moving at that depth, the
      pieces in scan order. */
  function GenerateOps(turn: Camp, b: Board, currentDepth: int): seq<GameOperation> {
    OpsOf(b, BoardScan.AllPawnsOf(b, CampAt(turn, currentDepth)))
  }

  /** The delegate AppendSteps is given. */
  function GenerateGameOperations(turn: Camp): Factory {
    (b: Board, d: int) => GenerateOps(turn, b, d)
  }

  /** An operation of one piece goes from its square to one of its
      destinations and carries the destination's occupant. */
  lemma PieceOpsMember(b: Board, p: PawnOnBoard, op: GameOperation)
    ensures op in PieceOps(b, p) <==>
      Walkable.WalkableLocations(b, p).Success? && op.from == p.location &&
      op.to in Walkable.WalkableLocations(b, p).value && op.targetPawn == At(b, op.to)
  {
    var w := Walkable.WalkableLocations(b, p);
    if w.Success? && op.from == p.location && op.to in w.value && op.targetPawn == At(b, op.to) {
      var k :| 0 <= k < |w.value| && w.value[k] == op.to;
      assert PieceOps(b, p)[k] == op;
    }
  }

  /** An operation of a run of pieces is an operation of one of them. */
  lemma {:induction false} OpsOfMember(b: Board, ps: seq<PawnOnBoard>, op: GameOperation)
    ensures op in OpsOf(b, ps) <==> exists p :: p in ps && op in PieceOps(b, p)
  {
    if ps != [] {
      var init := ps[..|ps| - 1];
      OpsOfMember(b, init, op);
      assert forall p :: p in ps <==> p in init || p == ps[|ps| - 1];
    }
  }

  /** A piece of the board never makes GetWalkableLocations throw, and its
      operations start from a square of the board, holding that piece, and
      end on a square of the board. */
  lemma PieceOpsOnBoard(b: Board, p: PawnOnBoard, op: GameOperation)
    requires At(b, p.location) == Some(p.pawn)
    ensures Walkable.WalkableLocations(b, p).Success?
    ensures op in PieceOps(b, p) ==>
      IsLocationAvailable(op.from) && At(b, op.from) == Some(p.pawn) && IsLocationAvailable(op.to)
  {
    assert IsLocationAvailable(p.location);
    Walkable.WalkableOnBoard(b, p);
    PieceOpsMember(b, p, op);
  }

  /** GenerateGameOperations yields exactly the operations that move a piece
      of the camp moving at that depth to one of its destinations, capturing
      the destination's occupant. */
  lemma GenerateOpsExactly(turn: Camp, b: Board, d: int, op: GameOperation)
    ensures op in GenerateOps(turn, b, d) <==>
      exists pawn :: At(b, op.from) == Some(pawn) && pawn.camp == CampAt(turn, d) &&
        op.to in Walkable.WalkableLocations(b, PawnOnBoard(pawn, op.from)).value &&
        op.targetPawn == At(b, op.to)
  {
    var camp := CampAt(turn, d);
    var ps := BoardScan.AllPawnsOf(b, camp);
    OpsOfMember(b, ps, op);
    if op in GenerateOps(turn, b, d) {
      var p :| p in ps && op in PieceOps(b, p);
      BoardScan.AllPawnsOfExactly(b, camp, p.pawn, p.location);
      PieceOpsMember(b, p, op);
    }
    if exists pawn :: At(b, op.from) == Some(pawn) && pawn.camp == camp &&
        op.to in Walkable.WalkableLocations(b, PawnOnBoard(pawn, op.from)).value &&
        op.targetPawn == At(b, op.to) {
      var pawn :| At(b, op.from) == Some(pawn) && pawn.camp == camp &&
        op.to in Walkable.WalkableLocations(b, PawnOnBoard(pawn, op.from)).value &&
        op.targetPawn == At(b, op.to);
      var p := PawnOnBoard(pawn, op.from);
      BoardScan.AllPawnsOfExactly(b, camp, pawn, op.from);
      PieceOpsOnBoard(b, p, op);
      PieceOpsMember(b, p, op);
    }
  }

  /** Every operation GenerateGameOperations yields is accepted by the node
      constructor: so AppendSteps never throws with it, and no node below the
      root carries the None operation. */
  lemma GenerateOpsGood(turn: Camp)
    ensures FactoryOk(GenerateGameOperations(turn))
  {
    forall b: Board, d: int, op: GameOperation | op in GenerateGameOperations(turn)(b, d)
      ensures GoodOp(b, op)
    {
      var ps := BoardScan.AllPawnsOf(b, CampAt(turn, d));
      OpsOfMember(b, ps, op);
      var p :| p in ps && op in PieceOps(b, p);
      BoardScan.AllPawnsOfExactly(b, CampAt(turn, d), p.pawn, p.location);
      PieceOpsOnBoard(b, p, op);
      assert op.from != Invalid;
    }
  }

  // ---------------------------------------------------------------------------
  // Weighing paths and picking the best

  /** GetPathWeight: an empty path weighs int.MinValue; otherwise the least
      plus the greatest score offset the look-ahead as written finds from the
      path's first node with a depth of |path| - 1, that is, over that node's
      direct children as soon as the path has two nodes. */
  function PathWeight(nodes: seq<StepNode>, path: seq<nat>, camp: Camp): int
    requires WellFormed(nodes) && InRange(nodes, path)
  {
    if |path| == 0 then -2147483648
    else
      var seen := LookedAt(nodes, path[0], |path| - 1);
      MinOffset(nodes, path[0], seen, camp) + MaxOffset(nodes, path[0], seen, camp)
  }

  /** A path of one node weighs 0. A longer one weighs the sum of a value at
      most 0 and a value at least 0, each 0 or the offset of a direct child
      of its first node, so it lies between the two; the length of the path
      beyond two nodes plays no part. */
  lemma PathWeightBounds(nodes: seq<StepNode>, path: seq<nat>, other: seq<nat>, camp: Camp)
    requires WellFormed(nodes) && InRange(nodes, path) && InRange(nodes, other) && |path| >= 1
    ensures |path| == 1 ==> PathWeight(nodes, path, camp) == 0
    ensures var first := path[0];
            var children := nodes[first].nextSteps;
            var lo := MinOffset(nodes, first, children, camp);
            var hi := MaxOffset(nodes, first, children, camp);
            |path| >= 2 ==>
              lo <= 0 <= hi && lo <= PathWeight(nodes, path, camp) <= hi &&
              (forall c :: c in children ==> lo <= Offset(nodes, first, c, camp) <= hi) &&
              (lo == 0 || exists c :: c in children && lo == Offset(nodes, first, c, camp)) &&
              (hi == 0 || exists c :: c in children && hi == Offset(nodes, first, c, camp))
    ensures |path| >= 2 && |other| >= 2 && other[0] == path[0] ==>
              PathWeight(nodes, other, camp) == PathWeight(nodes, path, camp)
  {
    var children := nodes[path[0]].nextSteps;
    MinOffsetIsLeast(nodes, path[0], children, camp);
    MaxOffsetIsGreatest(nodes, path[0], children, camp);
  }

  /** GetPathWeight with the corrected look-ahead, over every node 1 ..
      |path| - 1 steps below the path's first node. */
  function PathWeightFixed(nodes: seq<StepNode>, path: seq<nat>, camp: Camp): int
    requires WellFormed(nodes) && InRange(nodes, path)
  {
    if |path| == 0 then -2147483648
    else
      var below := Below(nodes, path[0], |path| - 1);
      MinOffset(nodes, path[0], below, camp) + MaxOffset(nodes, path[0], below, camp)
  }

  /** The two weights agree on paths of at most two nodes; on longer paths
      the corrected one takes in more of the tree, so its least offset is at
      most, and its greatest offset at least, those of the weight as written. */
  lemma PathWeightFixedAgrees(nodes: seq<StepNode>, path: seq<nat>, camp: Camp)
    requires WellFormed(nodes) && InRange(nodes, path)
    ensures |path| <= 2 ==> PathWeightFixed(nodes, path, camp) == PathWeight(nodes, path, camp)
    ensures |path| >= 1 ==>
      var seen := LookedAt(nodes, path[0], |path| - 1);
      var below := Below(nodes, path[0], |path| - 1);
      MinOffset(nodes, path[0], below, camp) <= MinOffset(nodes, path[0], seen, camp) &&
      MaxOffset(nodes, path[0], seen, camp) <= MaxOffset(nodes, path[0], below, camp)
  {
    if |path| >= 1 {
      var seen := LookedAt(nodes, path[0], |path| - 1);
      var below := Below(nodes, path[0], |path| - 1);
      LookedAtBelow(nodes, path[0], |path| - 1);
      MinOffsetIsLeast(nodes, path[0], seen, camp);
      MaxOffsetIsGreatest(nodes, path[0], seen, camp);
      MinOffsetIsLeast(nodes, path[0], below, camp);
      MaxOffsetIsGreatest(nodes, path[0], below, camp);
    }
  }

  /** The weights of the paths, in order. */
  function Weights(nodes: seq<StepNode>, paths: seq<seq<nat>>, camp: Camp): (r: seq<int>)
    requires WellFormed(nodes) && forall p :: p in paths ==> InRange(nodes, p)
    ensures |r| == |paths| && forall k :: 0 <= k < |paths| ==> r[k] == PathWeight(nodes, paths[k], camp)
  {
    seq(|paths|, k requires 0 <= k < |paths| => PathWeight(nodes, paths[k], camp))
  }

  /** The index MaxBy picks: the first of the greatest values. */
  function FirstMaxIndex(ws: seq<int>): (r: nat)
    requires |ws| >= 1
    ensures r < |ws|
  {
    if |ws| == 1 then 0
    else
      var i := FirstMaxIndex(ws[..|ws| - 1]);
      if ws[|ws| - 1] > ws[i] then |ws| - 1 else i
  }

  /** FirstMaxIndex holds a greatest value, every earlier value is smaller,
      and these two facts single it out. */
  lemma {:induction false} FirstMaxIndexIsFirstMax(ws: seq<int>, j: nat)
    requires |ws| >= 1
    ensures j < |ws| ==> ws[j] <= ws[FirstMaxIndex(ws)]
    ensures j < FirstMaxIndex(ws) ==> ws[j] < ws[FirstMaxIndex(ws)]
    ensures j < |ws| && (forall k :: 0 <= k < |ws| ==> ws[k] <= ws[j]) && (forall k :: 0 <= k < j ==> ws[k] < ws[j])
            ==> j == FirstMaxIndex(ws)
  {
    var r := FirstMaxIndex(ws);
    if |ws| > 1 {
      var init := ws[..|ws| - 1];
      var i := FirstMaxIndex(init);
      FirstMaxIndexIsFirstMax(init, j);
      if j < |ws| && (forall k :: 0 <= k < |ws| ==> ws[k] <= ws[j]) && (forall k :: 0 <= k < j ==> ws[k] < ws[j]) {
        FirstMaxIndexIsFirstMax(init, r);
        if j < |ws| - 1 {
          assert forall k :: 0 <= k < |init| ==> init[k] <= init[j];
          assert forall k :: 0 <= k < j ==> init[k] < init[j];
        } else {
          FirstMaxIndexIsFirstMax(init, i);
          assert ws[i] < ws[j];
        }
      }
    }
  }

  /** When every path weighs the same, MaxBy picks the first. */
  lemma FirstMaxOfEqual(ws: seq<int>)
    requires |ws| >= 1 && forall k :: 0 <= k < |ws| ==> ws[k] == ws[0]
    ensures FirstMaxIndex(ws) == 0
  {
    FirstMaxIndexIsFirstMax(ws, 0);
  }

  /** MaxBy's loop step: a later value takes over only when strictly greater. */
  lemma FirstMaxIndexSnoc(ws: seq<int>, k: nat)
    requires k < |ws|
    ensures k == 0 ==> FirstMaxIndex(ws[..1]) == 0
    ensures k >= 1 ==>
      FirstMaxIndex(ws[..k + 1]) == if ws[k] > ws[FirstMaxIndex(ws[..k])] then k else FirstMaxIndex(ws[..k])
  {
    assert ws[..k + 1][..k] == ws[..k];
  }

  // ---------------------------------------------------------------------------
  // The robot's step, as a value

  /** A tree that is only a root holding `board`. */
  function RootOnly(board: Board): (r: seq<StepNode>)
    ensures TreeInvariant(r) && NoneOnlyAtRoot(r) && |r| == 1
  {
    var r := [StepNode(board, board, NoneOperation, [])];
    assert ChildrenAfter(r, 0) && LinkedBelow(r, 0);
    r
  }

  /** GetStepTree: the root, grown to `depth` with GenerateGameOperations. */
  function Grown(board: Board, turn: Camp, depth: int): (r: seq<StepNode>)
    ensures TreeInvariant(r) && NoneOnlyAtRoot(r) && |r| >= 1
    ensures r[0] == StepNode(board, board, NoneOperation, r[0].nextSteps)
  {
    var root := RootOnly(board);
    var f := GenerateGameOperations(turn);
    GenerateOpsGood(turn);
    AppendGrows(root, depth, f);
    AppendSpec(root, depth, Some(f)).growth.nodes
  }

  /** The paths GetAllPaths yields for a grown tree: at least one, each a
      chain of the tree starting below the root. */
  function RootPaths(nodes: seq<StepNode>): (r: seq<seq<nat>>)
    requires TreeInvariant(nodes) && NoneOnlyAtRoot(nodes)
    ensures |r| >= 1 && forall p :: p in r ==> IsChain(nodes, p) && StartsBelow(nodes, 0, p)
  {
    PathsShape(nodes, 0);
    Paths(nodes, 0)
  }

  /** The index of the path MaxBy picks among the paths of a tree. */
  function BestPath(nodes: seq<StepNode>, camp: Camp): (r: nat)
    requires TreeInvariant(nodes) && NoneOnlyAtRoot(nodes)
    ensures r < |RootPaths(nodes)|
  {
    FirstMaxIndex(Weights(nodes, RootPaths(nodes), camp))
  }

  /** The operation the robot plays from a tree: that of the first node of
      the best path. */
  function Choose(nodes: seq<StepNode>, camp: Camp): GameOperation
    requires TreeInvariant(nodes) && NoneOnlyAtRoot(nodes)
  {
    var p := RootPaths(nodes)[BestPath(nodes, camp)];
    assert p in RootPaths(nodes);
    nodes[p[0]].operation
  }

  /** The robot plays the None operation exactly when the tree is only its
      root; any other operation is one the node constructor accepted on the
      root's board: from a square of the board holding a piece, to a square
      of the board. */
  lemma ChoosePlaysMove(nodes: seq<StepNode>, camp: Camp)
    requires TreeInvariant(nodes) && NoneOnlyAtRoot(nodes) && nodes[0].operation == NoneOperation
    ensures Choose(nodes, camp) == NoneOperation <==> nodes[0].nextSteps == []
    ensures Choose(nodes, camp) != NoneOperation ==> GoodOp(nodes[0].currentBoard, Choose(nodes, camp))
  {
    var paths := RootPaths(nodes);
    var p := paths[BestPath(nodes, camp)];
    assert p in paths;
    var c := p[0];
    if nodes[0].nextSteps != [] {
      assert c in nodes[0].nextSteps;
      assert LinkedBelow(nodes, 0);
      assert ChildrenAfter(nodes, 0);
    }
  }

  /** The robot follows a path of greatest weight, and the first such path:
      every path weighs at most as much, every earlier one strictly less. */
  lemma ChooseHeaviestPath(nodes: seq<StepNode>, camp: Camp)
    requires TreeInvariant(nodes) && NoneOnlyAtRoot(nodes)
    ensures var ws := Weights(nodes, RootPaths(nodes), camp);
            var best := BestPath(nodes, camp);
            (forall k :: 0 <= k < |ws| ==> ws[k] <= ws[best]) &&
            (forall k :: 0 <= k < best ==> ws[k] < ws[best])
  {
    var ws := Weights(nodes, RootPaths(nodes), camp);
    forall k | 0 <= k < |ws|
      ensures ws[k] <= ws[BestPath(nodes, camp)]
      ensures k < BestPath(nodes, camp) ==> ws[k] < ws[BestPath(nodes, camp)]
    {
      FirstMaxIndexIsFirstMax(ws, k);
    }
  }

  /** GetStep(depth) on a game whose board is `board` and whose camp to move
      is `turn`, for a robot playing `camp`. */
  function StepSpec(board: Board, turn: Camp, camp: Camp, depth: int): Result<GameOperation> {
    if depth <= 0 then Failure(Argument)
    else if turn != camp then Failure(InvalidOperation)
    else Success(Choose(Grown(board, turn, depth), camp))
  }

  /** GetStep never throws for a positive depth on its own turn, and plays
      the None operation exactly when the grown tree is only its root; any
      other operation is a legal-looking move on the current board. */
  lemma StepPlaysMove(board: Board, camp: Camp, depth: int)
    requires depth > 0
    ensures StepSpec(board, camp, camp, depth).Success?
    ensures var op := StepSpec(board, camp, camp, depth).value;
            (op == NoneOperation <==> Grown(board, camp, depth)[0].nextSteps == []) &&
            (op != NoneOperation ==> GoodOp(board, op))
  {
    ChoosePlaysMove(Grown(board, camp, depth), camp);
  }

  // ---------------------------------------------------------------------------
  // The robot

  class ErgodicRobot {
    const game: Game
    const camp: Camp
    const defaultDepth: int

    /** The assignments of the constructor; Create holds its check. */
    constructor Init(game: Game, camp: Camp, defaultDepth: int)
      ensures this.game == game && this.camp == camp && this.defaultDepth == defaultDepth
    {
      this.game := game;
      this.camp := camp;
      this.defaultDepth := defaultDepth;
    }

    /** `new ErgodicRobot(game, camp, defaultDepth)`: a default depth of 0 or
        less throws ArgumentOutOfRangeException. */
    static method Create(game: Game, camp: Camp, defaultDepth: int) returns (r: Result<ErgodicRobot>)
      ensures defaultDepth <= 0 ==> r == Failure(ArgumentOutOfRange)
      ensures defaultDepth > 0 ==>
        r.Success? && fresh(r.value) && r.value.game == game && r.value.camp == camp &&
        r.value.defaultDepth == defaultDepth
    {
      if defaultDepth <= 0 {
        return Failure(ArgumentOutOfRange);
      }
      var robot := new ErgodicRobot.Init(game, camp, defaultDepth);
      return Success(robot);
    }

    /** GetStepTree: a new tree on the game's board, grown to `depth` with
        GenerateGameOperations for the game's camp to move. */
    method GetStepTree(depth: int) returns (tree: RobotStepTree)
      ensures fresh(tree) && tree.Valid()
      ensures tree.nodes == Grown(game.currentBoard, game.currentTurn, depth)
    {
      tree := new RobotStepTree(game.currentBoard);
      var f := GenerateGameOperations(game.currentTurn);
      assert tree.nodes == RootOnly(game.currentBoard);
      var o := tree.AppendSteps(depth, Some(f));
    }

    /** GetPathWeight: the look-ahead as written from the path's first node. */
    method GetPathWeight(tree: RobotStepTree, path: seq<nat>) returns (w: int)
      requires tree.Valid() && InRange(tree.nodes, path)
      ensures w == PathWeight(tree.nodes, path, camp)
    {
      if |path| == 0 {
        return -2147483648;
      }
      var minOffset, maxOffset := tree.GetFutureMinMaxScoreOffset(path[0], camp, |path| - 1);
      w := minOffset + maxOffset;
    }

    /** `allPaths.MaxBy(GetPathWeight)`: the weights in order, a later path
        replacing the best only when it weighs strictly more. */
    method MaxByWeight(tree: RobotStepTree, paths: seq<seq<nat>>) returns (best: nat)
      requires tree.Valid() && |paths| >= 1 && forall p :: p in paths ==> InRange(tree.nodes, p)
      ensures best == FirstMaxIndex(Weights(tree.nodes, paths, camp))
    {
      hide FirstMaxIndex, PathWeight, LookedAt, MinOffset, MaxOffset, Linked, ChildrenAfter;
      ghost var ws := Weights(tree.nodes, paths, camp);
      FirstMaxIndexSnoc(ws, 0);
      var bestWeight := GetPathWeight(tree, paths[0]);
      best := 0;
      var k := 1;
      while k < |paths|
        invariant 1 <= k <= |paths|
        invariant best == FirstMaxIndex(ws[..k]) && best < k && bestWeight == ws[best]
      {
        var w := GetPathWeight(tree, paths[k]);
        FirstMaxIndexSnoc(ws, k);
        if w > bestWeight {
          best, bestWeight := k, w;
        }
        k := k + 1;
      }
      assert ws[..k] == ws;
    }

    /** GetStep(depth): a depth of 0 or less throws ArgumentException, a call
        out of turn InvalidOperationException; otherwise the first operation
        of the best path of the tree grown to `depth`. */
    method GetStep(depth: int) returns (r: Result<GameOperation>)
      ensures r == StepSpec(game.currentBoard, game.currentTurn, camp, depth)
    {
      if depth <= 0 {
        return Failure(Argument);
      }
      if game.currentTurn != camp {
        return Failure(InvalidOperation);
      }
      var tree := GetStepTree(depth);
      var paths := tree.GetAllPaths();
      assert paths == RootPaths(tree.nodes);
      assert forall p :: p in paths ==> InRange(tree.nodes, p);
      var best := MaxByWeight(tree, paths);
      var path := paths[best];
      assert path in paths;
      return Success(tree.nodes[path[0]].operation);
    }

    /** GetStep() with the default depth. */
    method GetStepDefault() returns (r: Result<GameOperation>)
      ensures r == StepSpec(game.currentBoard, game.currentTurn, camp, defaultDepth)
    {
      r := GetStep(defaultDepth);
    }
  }
}
