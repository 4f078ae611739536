/** A game in progress (Game.cs): the current board, whose turn it is, the
    log of moves played and how many of them are currently undone. */
module Games {
  import opened Results
  import opened Pieces
  import opened Locations
  import opened Boards
  import BoardScan
  import Opening
  import BoardPawns

  /** The other camp. */
  function GetOtherCamp(camp: Camp): (r: Camp)
    ensures r != camp
  {
    match camp
    case Self => Opponent
    case Opponent => Self
  }

  /** Swapping twice gives back the camp. */
  lemma OtherCampInvolution(camp: Camp)
    ensures GetOtherCamp(GetOtherCamp(camp)) == camp
  {
  }

  /** The camp to move after the turn has passed n times. */
  function TurnAfter(turn: Camp, n: nat): Camp {
    if n % 2 == 0 then turn else GetOtherCamp(turn)
  }

  lemma TurnAfterStep(turn: Camp, n: nat)
    requires n >= 1
    ensures TurnAfter(turn, n) == GetOtherCamp(TurnAfter(turn, n - 1))
    ensures TurnAfter(turn, n - 1) == GetOtherCamp(TurnAfter(turn, n))
  {
    OtherCampInvolution(turn);
  }

  // ---------------------------------------------------------------------------
  // The state of a game as a value, and what each operation does to it

  /** The four fields of a game: the operation log, the number of logged
      moves currently undone, the board and the camp to move. */
  datatype GameState = GameState(history: seq<GameOperation>, stateOffset: int, board: Board, turn: Camp)

  /** The state after an operation, and whether the operation returned or threw.
      A thrown exception leaves whatever the operation had changed so far. */
  datatype Step = Step(state: GameState, outcome: Outcome)

  /** MovePawn as written. The destination is read first (an off-board
      destination throws before anything changes). With moves undone, the
      truncation loop removes the last log entry until the log is empty and
      then throws on `RemoveAt(-1)`, since it never lowers the offset.
      Otherwise the move is logged with the destination's old occupant, then
      played on the board (an off-board origin throws after the log entry was
      added), then the turn passes. */
  function MoveSpec(s: GameState, from: Location, to: Location): Step {
    var target := GetPawn(s.board, to);
    if target.Failure? then Step(s, Fail(target.error))
    else if s.stateOffset > 0 then Step(s.(history := []), Fail(ArgumentOutOfRange))
    else
      var h := s.history + [GameOperation(from, to, target.value)];
      var moved := MovePawn(s.board, from, to);
      if moved.Failure? then Step(s.(history := h), Fail(moved.error))
      else Step(GameState(h, s.stateOffset, moved.value, GetOtherCamp(s.turn)), Pass)
  }

  /** Takes back the logged move at `idx`: the piece now on its destination
      goes back to its origin, the captured occupant (if any) returns to the
      destination, one more move counts as undone and the turn passes back.
      A bad index throws ArgumentOutOfRange (List indexer); an off-board
      square throws IndexOutOfRange before anything changes. (Once the
      destination has been read, writing it cannot throw.) */
  function UndoEntry(s: GameState, idx: int): (r: Step)
    ensures r.outcome.Pass? <==> 0 <= idx < |s.history| && OnBoard(s.history[idx])
    ensures r.outcome.Fail? ==> r.state == s
    ensures r.outcome.Pass? ==> r.state.history == s.history && r.state.stateOffset == s.stateOffset + 1
    ensures r.outcome.Pass? ==> r.state.turn == GetOtherCamp(s.turn)
  {
    if !(0 <= idx < |s.history|) then Step(s, Fail(ArgumentOutOfRange))
    else
      var back := TakeBack(s.board, s.history[idx]);
      if back.Failure? then Step(s, Fail(back.error))
      else Step(GameState(s.history, s.stateOffset + 1, back.value, GetOtherCamp(s.turn)), Pass)
  }

  /** The board part of taking back a move: the piece on the destination is
      written to the origin, then the recorded occupant to the destination. */
  function TakeBack(b: Board, op: GameOperation): (r: Result<Board>)
    ensures r.Success? <==> IsLocationAvailable(op.from) && IsLocationAvailable(op.to)
    ensures r.Failure? ==> r.error == IndexOutOfRange
  {
    var operated :- GetPawn(b, op.to);
    var b1 :- SetPawn(b, op.from, operated);
    SetPawn(b1, op.to, op.targetPawn)
  }

  /** Replays the logged move at `idx`: the board moves the piece again, one
      fewer move counts as undone and the turn passes. */
  function RedoEntry(s: GameState, idx: int): (r: Step)
    ensures r.outcome.Pass? <==>
              0 <= idx < |s.history| && IsLocationAvailable(s.history[idx].from) &&
              (At(s.board, s.history[idx].from).None? || IsLocationAvailable(s.history[idx].to))
    ensures r.outcome.Fail? ==> r.state == s
    ensures r.outcome.Pass? ==> r.state.history == s.history && r.state.stateOffset == s.stateOffset - 1
    ensures r.outcome.Pass? ==> r.state.turn == GetOtherCamp(s.turn)
  {
    if !(0 <= idx < |s.history|) then Step(s, Fail(ArgumentOutOfRange))
    else
      var op := s.history[idx];
      var moved := MovePawn(s.board, op.from, op.to);
      if moved.Failure? then Step(s, Fail(moved.error))
      else Step(GameState(s.history, s.stateOffset - 1, moved.value, GetOtherCamp(s.turn)), Pass)
  }

  /** The first n iterations of Undo's loop as written: iteration i reads
      entry `|history| - stateOffset - 1 - i` with the offset already raised
      by the earlier iterations; the first failure ends the loop. */
  function UndoIterations(s: GameState, n: nat): Step
    decreases n
  {
    if n == 0 then Step(s, Pass)
    else
      var prev := UndoIterations(s, n - 1);
      if prev.outcome.Fail? then prev
      else UndoEntry(prev.state, |prev.state.history| - prev.state.stateOffset - 1 - (n - 1))
  }

  /** Undo's guard: a positive count of at most the moves not yet undone. */
  predicate UndoAllowed(s: GameState, count: int) {
    count > 0 && s.stateOffset + count <= |s.history|
  }

  /** Undo(count) as written. */
  function UndoSpec(s: GameState, count: int): (r: Step)
    ensures !UndoAllowed(s, count) ==> r == Step(s, Fail(ArgumentOutOfRange))
  {
    if !UndoAllowed(s, count) then Step(s, Fail(ArgumentOutOfRange))
    else UndoIterations(s, count)
  }

  /** The first n iterations of Redo's loop as written: iteration i reads
      entry `|history| - stateOffset + i` with the offset already lowered by
      the earlier iterations; the first failure ends the loop. */
  function RedoIterations(s: GameState, n: nat): Step
    decreases n
  {
    if n == 0 then Step(s, Pass)
    else
      var prev := RedoIterations(s, n - 1);
      if prev.outcome.Fail? then prev
      else RedoEntry(prev.state, |prev.state.history| - prev.state.stateOffset + (n - 1))
  }

  /** Redo's guard: a positive count of at most the moves undone. */
  predicate RedoAllowed(s: GameState, count: int) {
    count > 0 && count <= s.stateOffset
  }

  /** Redo(count) as written. */
  function RedoSpec(s: GameState, count: int): (r: Step)
    ensures !RedoAllowed(s, count) ==> r == Step(s, Fail(ArgumentOutOfRange))
  {
    if !RedoAllowed(s, count) then Step(s, Fail(ArgumentOutOfRange))
    else RedoIterations(s, count)
  }

  /** GetHistory as written: a negative distance throws; distance 0 gives the
      current board; a distance beyond the log indexes before its start and
      throws ArgumentOutOfRange; an entry with an off-board square throws
      IndexOutOfRange on its first read or write; any other positive distance
      rewrites two squares and then repeats forever, because the loop never
      lowers `distance`. */
  function GetHistorySpec(s: GameState, distance: int): (r: Result<Board>)
    ensures distance == 0 <==> r == Success(s.board)
    ensures r.Success? ==> distance == 0
    ensures distance < 0 || distance > |s.history| ==> r == Failure(ArgumentOutOfRange)
    ensures 0 < distance <= |s.history| ==>
      (if OnBoard(s.history[|s.history| - distance]) then r == Failure(Hangs)
       else r == Failure(IndexOutOfRange))
  {
    if distance < 0 then Failure(ArgumentOutOfRange)
    else if distance == 0 then Success(s.board)
    else if |s.history| - distance < 0 then Failure(ArgumentOutOfRange)
    else
      var op := s.history[|s.history| - distance];
      var operated := GetPawn(s.board, op.to);
      if operated.Failure? then Failure(operated.error)
      else if SetPawn(s.board, op.from, operated.value).Failure? then Failure(IndexOutOfRange)
      else Failure(Hangs)
  }

  /** The index of the first piece of the given camp and kind, or |ps|. */
  function FirstOfKind(ps: seq<PawnOnBoard>, camp: Camp, kind: PawnKind): (k: nat)
    ensures k <= |ps|
    ensures forall j :: 0 <= j < k ==> ps[j].pawn != Pawn(camp, kind)
    ensures k < |ps| ==> ps[k].pawn == Pawn(camp, kind)
  {
    if |ps| == 0 then 0
    else if ps[0].pawn == Pawn(camp, kind) then 0
    else 1 + FirstOfKind(ps[1..], camp, kind)
  }

  /** FindPawn: the first piece of that camp and kind in scan order, if any. */
  function FindPawnSpec(b: Board, camp: Camp, kind: PawnKind): Option<PawnOnBoard> {
    var ps := BoardScan.AllPawns(b);
    var k := FirstOfKind(ps, camp, kind);
    if k < |ps| then Some(ps[k]) else None
  }

  /** FindPawn finds nothing exactly when no such piece is on the board; what
      it finds stands where it says, and no such piece comes earlier in scan
      order. */
  lemma FindPawnFirst(b: Board, camp: Camp, kind: PawnKind, loc: Location)
    ensures FindPawnSpec(b, camp, kind).None? ==> At(b, loc) != Some(Pawn(camp, kind))
    ensures FindPawnSpec(b, camp, kind).Some? ==>
      var found := FindPawnSpec(b, camp, kind).value;
      found.pawn == Pawn(camp, kind) && At(b, found.location) == Some(found.pawn) &&
      (At(b, loc) == Some(Pawn(camp, kind)) ==>
         BoardPawns.CellIndex(found.location) <= BoardPawns.CellIndex(loc))
  {
    var ps := BoardScan.AllPawns(b);
    var k := FirstOfKind(ps, camp, kind);
    BoardScan.AllPawnsExactly(b, Pawn(camp, kind), loc);
    if k < |ps| {
      BoardScan.AllPawnsExactly(b, ps[k].pawn, ps[k].location);
    }
    if At(b, loc) == Some(Pawn(camp, kind)) {
      var j :| 0 <= j < |ps| && ps[j] == PawnOnBoard(Pawn(camp, kind), loc);
      assert k <= j;
    }
  }

  // ---------------------------------------------------------------------------
  // Undo and Redo of a single move

  /** Taking back a move of a piece (putting the mover back on its origin and
      the recorded occupant back on its destination) gives the board before
      the move, scores included. */
  lemma {:induction false} TakeBackRestores(b: Board, from: Location, to: Location)
    requires IsLocationAvailable(from) && IsLocationAvailable(to) && At(b, from).Some?
    ensures MovePawn(b, from, to).Success?
    ensures TakeBack(MovePawn(b, from, to).value, GameOperation(from, to, At(b, to))) == Success(b)
  {
    var m := MovePawn(b, from, to).value;
    var b1 := SetPawn(m, from, At(m, to)).value;
    var b2 := SetPawn(b1, to, At(b, to)).value;
    forall loc
      ensures At(b2, loc) == At(b, loc)
    {
      if loc != from && loc != to {
        assert At(b2, loc) == At(b1, loc) == At(m, loc);
      }
    }
    BoardsEqual(b2, b);
  }

  /** Undo(1) right after a move of a piece restores the board (a captured
      piece included) and the turn, keeps the logged move and counts it as
      undone; Redo(1) then gives back exactly the state after the move. */
  lemma {:induction false} UndoRedoRoundTrip(s: GameState, from: Location, to: Location)
    requires s.stateOffset == 0
    requires IsLocationAvailable(from) && IsLocationAvailable(to) && At(s.board, from).Some?
    ensures MoveSpec(s, from, to).outcome == Pass
    ensures
      var m := MoveSpec(s, from, to).state;
      var u := UndoSpec(m, 1);
      u == Step(GameState(m.history, 1, s.board, s.turn), Pass) &&
      RedoSpec(u.state, 1) == Step(m, Pass)
  {
    var m := MoveSpec(s, from, to).state;
    TakeBackRestores(s.board, from, to);
    var u := UndoEntry(m, |m.history| - 1);
    assert UndoSpec(m, 1) == UndoIterations(m, 1) == u;
    assert u == Step(GameState(m.history, 1, s.board, s.turn), Pass);
    assert RedoSpec(u.state, 1) == RedoIterations(u.state, 1) == RedoEntry(u.state, |m.history| - 1);
  }

  // ---------------------------------------------------------------------------
  // The log truncation in MovePawn

  /** As written, a move played while moves are undone empties the whole log
      and throws, leaving an offset larger than the (now empty) log. */
  lemma MoveWithUndoneMovesFails(s: GameState, from: Location, to: Location)
    requires s.stateOffset > 0 && IsLocationAvailable(to)
    ensures MoveSpec(s, from, to) == Step(s.(history := []), Fail(ArgumentOutOfRange))
    ensures MoveSpec(s, from, to).state.stateOffset > |MoveSpec(s, from, to).state.history|
  {
  }

  /** The log without its undone tail: the last `stateOffset` entries are
      dropped (all of them if there are fewer), and nothing when none is undone. */
  function DropUndone(history: seq<GameOperation>, stateOffset: int): (r: seq<GameOperation>)
    ensures stateOffset <= 0 ==> r == history
    ensures 0 <= stateOffset <= |history| ==> r == history[..|history| - stateOffset]
  {
    if stateOffset <= 0 then history
    else if stateOffset >= |history| then []
    else history[..|history| - stateOffset]
  }

  /** MovePawn as evidently intended: the undone moves are discarded and the
      offset returns to 0 before the new move is logged. */
  function MoveFixed(s: GameState, from: Location, to: Location): Step {
    var target := GetPawn(s.board, to);
    if target.Failure? then Step(s, Fail(target.error))
    else
      var offset := if s.stateOffset > 0 then 0 else s.stateOffset;
      var h := DropUndone(s.history, s.stateOffset) + [GameOperation(from, to, target.value)];
      var moved := MovePawn(s.board, from, to);
      if moved.Failure? then Step(s.(history := h, stateOffset := offset), Fail(moved.error))
      else Step(GameState(h, offset, moved.value, GetOtherCamp(s.turn)), Pass)
  }

  /** With nothing undone the corrected move is the move as written. */
  lemma MoveFixedAgrees(s: GameState, from: Location, to: Location)
    requires s.stateOffset <= 0
    ensures MoveFixed(s, from, to) == MoveSpec(s, from, to)
  {
  }

  /** The corrected move, played with some moves undone, logs the new move
      after the moves still in effect and clears the offset; Undo(1) then
      takes it back, restoring the board and the turn. */
  lemma {:induction false} MoveFixedDiscardsUndone(s: GameState, from: Location, to: Location)
    requires 0 <= s.stateOffset <= |s.history|
    requires IsLocationAvailable(from) && IsLocationAvailable(to) && At(s.board, from).Some?
    ensures
      var m := MoveFixed(s, from, to);
      m.outcome == Pass &&
      m.state.history == s.history[..|s.history| - s.stateOffset] + [GameOperation(from, to, At(s.board, to))] &&
      m.state.stateOffset == 0 &&
      UndoSpec(m.state, 1) == Step(GameState(m.state.history, 1, s.board, s.turn), Pass)
  {
    var m := MoveFixed(s, from, to).state;
    TakeBackRestores(s.board, from, to);
    assert UndoSpec(m, 1) == UndoIterations(m, 1) == UndoEntry(m, |m.history| - 1);
  }

  // ---------------------------------------------------------------------------
  // Multi-step Undo and Redo

  /** Both squares of a logged move are on the board. */
  predicate OnBoard(op: GameOperation) {
    IsLocationAvailable(op.from) && IsLocationAvailable(op.to)
  }

  /** Taking back a logged move that lies on the board cannot throw. */
  lemma UndoEntryPasses(s: GameState, idx: int)
    requires 0 <= idx < |s.history| && OnBoard(s.history[idx])
    ensures TakeBack(s.board, s.history[idx]).Success?
    ensures UndoEntry(s, idx) ==
      Step(GameState(s.history, s.stateOffset + 1, TakeBack(s.board, s.history[idx]).value, GetOtherCamp(s.turn)), Pass)
  {
  }

  /** Replaying a logged move that lies on the board cannot throw. */
  lemma RedoEntryPasses(s: GameState, idx: int)
    requires 0 <= idx < |s.history| && OnBoard(s.history[idx])
    ensures MovePawn(s.board, s.history[idx].from, s.history[idx].to).Success?
    ensures RedoEntry(s, idx) ==
      Step(GameState(s.history, s.stateOffset - 1, MovePawn(s.board, s.history[idx].from, s.history[idx].to).value,
                     GetOtherCamp(s.turn)), Pass)
  {
    var op := s.history[idx];
    assert MovePawn(s.board, op.from, op.to).Success?;
  }

  /** Log entries lo .. hi-1 all lie on the board. */
  predicate EntriesOnBoard(history: seq<GameOperation>, lo: int, hi: int) {
    forall j :: lo <= j < hi && 0 <= j < |history| ==> OnBoard(history[j])
  }

  /** Iteration i of Undo's loop, after i iterations that returned normally. */
  lemma UndoIterationsNext(s: GameState, i: nat, current: GameState, idx: int)
    requires UndoIterations(s, i) == Step(current, Pass)
    requires idx == |current.history| - current.stateOffset - 1 - i
    ensures UndoIterations(s, i + 1) == UndoEntry(current, idx)
  {
    hide UndoEntry;
  }

  /** Iteration i of Redo's loop, after i iterations that returned normally. */
  lemma RedoIterationsNext(s: GameState, i: nat, current: GameState, idx: int)
    requires RedoIterations(s, i) == Step(current, Pass)
    requires idx == |current.history| - current.stateOffset + i
    ensures RedoIterations(s, i + 1) == RedoEntry(current, idx)
  {
    hide RedoEntry;
  }

  /** Once an iteration of Undo's loop fails, the loop is over: later
      iterations change nothing. */
  lemma {:induction false} UndoFailureEndsLoop(s: GameState, i: nat, n: nat)
    decreases n
    requires i <= n && UndoIterations(s, i).outcome.Fail?
    ensures UndoIterations(s, n) == UndoIterations(s, i)
  {
    hide UndoEntry;
    if i < n {
      UndoFailureEndsLoop(s, i, n - 1);
    }
  }

  /** Once an iteration of Redo's loop fails, the loop is over. */
  lemma {:induction false} RedoFailureEndsLoop(s: GameState, i: nat, n: nat)
    decreases n
    requires i <= n && RedoIterations(s, i).outcome.Fail?
    ensures RedoIterations(s, n) == RedoIterations(s, i)
  {
    hide RedoEntry;
    if i < n {
      RedoFailureEndsLoop(s, i, n - 1);
    }
  }

  /** As written, Undo(2) on a two-move log passes the guard, takes back the
      last move, and then throws reading entry -1: the second iteration
      skipped the first move. */
  lemma UndoTwoSkipsEntry(s: GameState)
    requires |s.history| == 2 && s.stateOffset == 0 && OnBoard(s.history[1])
    ensures UndoAllowed(s, 2)
    ensures UndoSpec(s, 2) == Step(UndoEntry(s, 1).state, Fail(ArgumentOutOfRange))
    ensures UndoEntry(s, 1).state.stateOffset == 1
  {
    UndoEntryPasses(s, 1);
    assert UndoIterations(s, 1) == UndoEntry(s, 1);
    assert UndoIterations(s, 2) == UndoEntry(UndoEntry(s, 1).state, -1);
  }

  /** As written, Redo(2) with two moves undone replays the earlier one and
      then throws reading one past the end of the log. */
  lemma RedoTwoSkipsEntry(s: GameState)
    requires |s.history| >= 2 && s.stateOffset == 2 && OnBoard(s.history[|s.history| - 2])
    ensures RedoAllowed(s, 2)
    ensures RedoSpec(s, 2) == Step(RedoEntry(s, |s.history| - 2).state, Fail(ArgumentOutOfRange))
  {
    var n := |s.history|;
    RedoEntryPasses(s, n - 2);
    assert RedoIterations(s, 1) == RedoEntry(s, n - 2);
    assert RedoIterations(s, 2) == RedoEntry(RedoEntry(s, n - 2).state, n);
  }

  /** The first n iterations of Undo's loop as evidently intended: each
      iteration takes back the last move still in effect. */
  function UndoFixedIterations(s: GameState, n: nat): Step
    decreases n
  {
    if n == 0 then Step(s, Pass)
    else
      var prev := UndoFixedIterations(s, n - 1);
      if prev.outcome.Fail? then prev
      else UndoEntry(prev.state, |prev.state.history| - prev.state.stateOffset - 1)
  }

  function UndoFixed(s: GameState, count: int): (r: Step)
    ensures !UndoAllowed(s, count) ==> r == Step(s, Fail(ArgumentOutOfRange))
  {
    if !UndoAllowed(s, count) then Step(s, Fail(ArgumentOutOfRange)) else UndoFixedIterations(s, count)
  }

  /** The first n iterations of Redo's loop as evidently intended: each
      iteration replays the earliest move still undone. */
  function RedoFixedIterations(s: GameState, n: nat): Step
    decreases n
  {
    if n == 0 then Step(s, Pass)
    else
      var prev := RedoFixedIterations(s, n - 1);
      if prev.outcome.Fail? then prev
      else RedoEntry(prev.state, |prev.state.history| - prev.state.stateOffset)
  }

  function RedoFixed(s: GameState, count: int): (r: Step)
    ensures !RedoAllowed(s, count) ==> r == Step(s, Fail(ArgumentOutOfRange))
  {
    if !RedoAllowed(s, count) then Step(s, Fail(ArgumentOutOfRange)) else RedoFixedIterations(s, count)
  }

  /** For one move the written and the corrected Undo and Redo coincide. */
  lemma SingleStepAgrees(s: GameState)
    ensures UndoSpec(s, 1) == UndoFixed(s, 1)
    ensures RedoSpec(s, 1) == RedoFixed(s, 1)
  {
    hide UndoEntry, RedoEntry;
    var undoIdx := |s.history| - s.stateOffset - 1;
    assert undoIdx == |s.history| - s.stateOffset - 1 - (1 - 1);
    assert UndoIterations(s, 1) == UndoEntry(s, undoIdx) == UndoFixedIterations(s, 1);
    var redoIdx := |s.history| - s.stateOffset;
    assert redoIdx == |s.history| - s.stateOffset + (1 - 1);
    assert RedoIterations(s, 1) == RedoEntry(s, redoIdx) == RedoFixedIterations(s, 1);
  }

  /** n iterations of the corrected Undo loop that all return normally keep
      the log and count n more moves as undone. */
  lemma {:induction false} UndoFixedOffset(s: GameState, n: nat)
    decreases n
    ensures UndoFixedIterations(s, n).state.history == s.history
    ensures UndoFixedIterations(s, n).outcome.Pass? ==>
      UndoFixedIterations(s, n).state.stateOffset == s.stateOffset + n
  {
    hide TakeBack;
    if n > 0 {
      UndoFixedOffset(s, n - 1);
    }
  }

  /** n iterations of the corrected Redo loop that all return normally keep
      the log and count n fewer moves as undone. */
  lemma {:induction false} RedoFixedOffset(s: GameState, n: nat)
    decreases n
    ensures RedoFixedIterations(s, n).state.history == s.history
    ensures RedoFixedIterations(s, n).outcome.Pass? ==>
      RedoFixedIterations(s, n).state.stateOffset == s.stateOffset - n
  {
    hide Boards.MovePawn;
    if n > 0 {
      RedoFixedOffset(s, n - 1);
    }
  }

  /** Corrected Undo(count) is Undo(count - 1) followed by Undo(1): it stops
      at the first failure, and otherwise takes back one more move. */
  lemma UndoFixedIsRepeated(s: GameState, count: int)
    requires UndoAllowed(s, count) && count >= 2
    ensures UndoFixed(s, count - 1).outcome.Fail? ==> UndoFixed(s, count) == UndoFixed(s, count - 1)
    ensures UndoFixed(s, count - 1).outcome.Pass? ==>
      UndoFixed(s, count) == UndoFixed(UndoFixed(s, count - 1).state, 1)
  {
    hide UndoEntry;
    var prev := UndoFixedIterations(s, count - 1);
    UndoFixedOffset(s, count - 1);
    if prev.outcome.Pass? {
      var idx := |prev.state.history| - prev.state.stateOffset - 1;
      assert UndoFixedIterations(s, count) == UndoEntry(prev.state, idx);
      assert UndoAllowed(prev.state, 1);
      assert UndoFixedIterations(prev.state, 1) == UndoEntry(prev.state, idx);
    } else {
      assert UndoFixedIterations(s, count) == prev;
    }
  }

  /** Corrected Redo(count) is Redo(count - 1) followed by Redo(1). */
  lemma RedoFixedIsRepeated(s: GameState, count: int)
    requires RedoAllowed(s, count) && count >= 2
    ensures RedoFixed(s, count - 1).outcome.Fail? ==> RedoFixed(s, count) == RedoFixed(s, count - 1)
    ensures RedoFixed(s, count - 1).outcome.Pass? ==>
      RedoFixed(s, count) == RedoFixed(RedoFixed(s, count - 1).state, 1)
  {
    hide RedoEntry;
    var prev := RedoFixedIterations(s, count - 1);
    RedoFixedOffset(s, count - 1);
    if prev.outcome.Pass? {
      var idx := |prev.state.history| - prev.state.stateOffset;
      assert RedoFixedIterations(s, count) == RedoEntry(prev.state, idx);
      assert RedoAllowed(prev.state, 1);
      assert RedoFixedIterations(prev.state, 1) == RedoEntry(prev.state, idx);
    } else {
      assert RedoFixedIterations(s, count) == prev;
    }
  }

  /** The board after taking back log entries hi - 1, hi - 2, .., hi - n in
      turn; the first failure ends it. */
  function TakeBackEntries(b: Board, history: seq<GameOperation>, hi: int, n: nat): Result<Board>
    decreases n
  {
    if n == 0 then Success(b)
    else
      var prev :- TakeBackEntries(b, history, hi, n - 1);
      if 0 <= hi - n < |history| then TakeBack(prev, history[hi - n]) else Failure(ArgumentOutOfRange)
  }

  /** The board after replaying log entries lo, lo + 1, .., lo + n - 1 in
      turn; the first failure ends it. */
  function ReplayEntries(b: Board, history: seq<GameOperation>, lo: int, n: nat): Result<Board>
    decreases n
  {
    if n == 0 then Success(b)
    else
      var prev :- ReplayEntries(b, history, lo, n - 1);
      if 0 <= lo + n - 1 < |history| then MovePawn(prev, history[lo + n - 1].from, history[lo + n - 1].to)
      else Failure(ArgumentOutOfRange)
  }

  lemma TakeBackEntriesStep(b: Board, history: seq<GameOperation>, hi: int, k: nat)
    requires k >= 1 && 0 <= hi - k < |history| && TakeBackEntries(b, history, hi, k - 1).Success?
    ensures TakeBackEntries(b, history, hi, k) == TakeBack(TakeBackEntries(b, history, hi, k - 1).value, history[hi - k])
  {
  }

  /** The corrected Undo loop takes back n moves whenever the n log entries
      before the undone tail lie on the board (unlike the written one, see
      UndoTwoSkipsEntry): it keeps the log, raises the offset by n, passes
      the turn n times, and its board is the current one with the last n
      moves still in effect taken back, the latest first. */
  lemma {:induction false} UndoFixedCompletes(s: GameState, n: nat)
    decreases n
    requires 0 <= s.stateOffset && s.stateOffset + n <= |s.history|
    requires EntriesOnBoard(s.history, |s.history| - s.stateOffset - n, |s.history| - s.stateOffset)
    ensures TakeBackEntries(s.board, s.history, |s.history| - s.stateOffset, n).Success?
    ensures UndoFixedIterations(s, n) ==
      Step(GameState(s.history, s.stateOffset + n,
                     TakeBackEntries(s.board, s.history, |s.history| - s.stateOffset, n).value,
                     TurnAfter(s.turn, n)), Pass)
  {
    hide UndoEntry, TakeBack;
    if n > 0 {
      UndoFixedCompletes(s, n - 1);
      var prev := UndoFixedIterations(s, n - 1);
      var idx := |s.history| - s.stateOffset - n;
      assert idx == |prev.state.history| - prev.state.stateOffset - 1;
      assert OnBoard(s.history[idx]);
      UndoEntryPasses(prev.state, idx);
      TakeBackEntriesStep(s.board, s.history, |s.history| - s.stateOffset, n);
      TurnAfterStep(s.turn, n);
    }
  }

  /** The corrected Redo loop replays n moves whenever the first n undone
      log entries lie on the board: it keeps the log, lowers the offset by
      n, passes the turn n times, and its board is the current one with the
      earliest n undone moves played again, in log order. */
  lemma {:induction false} RedoFixedCompletes(s: GameState, n: nat)
    decreases n
    requires n <= s.stateOffset <= |s.history|
    requires EntriesOnBoard(s.history, |s.history| - s.stateOffset, |s.history| - s.stateOffset + n)
    ensures ReplayEntries(s.board, s.history, |s.history| - s.stateOffset, n).Success?
    ensures RedoFixedIterations(s, n) ==
      Step(GameState(s.history, s.stateOffset - n,
                     ReplayEntries(s.board, s.history, |s.history| - s.stateOffset, n).value,
                     TurnAfter(s.turn, n)), Pass)
  {
    hide RedoEntry, Boards.MovePawn;
    if n > 0 {
      RedoFixedCompletes(s, n - 1);
      var prev := RedoFixedIterations(s, n - 1);
      var idx := |s.history| - s.stateOffset + n - 1;
      assert idx == |prev.state.history| - prev.state.stateOffset;
      assert OnBoard(s.history[idx]);
      RedoEntryPasses(prev.state, idx);
      ReplayEntriesStep(s.board, s.history, |s.history| - s.stateOffset, n);
      TurnAfterStep(s.turn, n);
    }
  }

  lemma ReplayEntriesStep(b: Board, history: seq<GameOperation>, lo: int, k: nat)
    requires k >= 1 && 0 <= lo + k - 1 < |history| && ReplayEntries(b, history, lo, k - 1).Success?
    ensures ReplayEntries(b, history, lo, k) ==
      MovePawn(ReplayEntries(b, history, lo, k - 1).value, history[lo + k - 1].from, history[lo + k - 1].to)
  {
  }

  /** A logged move whose piece stands on its destination while its origin
      is empty, as right after the move was played. */
  predicate Replayable(b: Board, op: GameOperation) {
    OnBoard(op) && At(b, op.to).Some? && At(b, op.from).None?
  }

  /** Taking back such a move and playing it again gives back the board,
      scores included. */
  lemma {:induction false} ReplayRestores(b: Board, op: GameOperation)
    requires Replayable(b, op)
    ensures TakeBack(b, op).Success?
    ensures MovePawn(TakeBack(b, op).value, op.from, op.to) == Success(b)
  {
    var p := At(b, op.to);
    SetPawnEffect(b, op.from, p);
    var b1 := SetPawn(b, op.from, p).value;
    SetPawnEffect(b1, op.to, op.targetPawn);
    var b2 := SetPawn(b1, op.to, op.targetPawn).value;
    assert TakeBack(b, op) == Success(b2);
    SetPawnEffect(b2, op.from, None);
    var cleared := SetPawn(b2, op.from, None).value;
    SetPawnEffect(cleared, op.to, p);
    var b3 := SetPawn(cleared, op.to, p).value;
    assert MovePawn(b2, op.from, op.to) == Success(b3);
    forall loc
      ensures At(b3, loc) == At(b, loc)
    {
      if loc != op.from && loc != op.to {
        assert At(b3, loc) == At(cleared, loc) == At(b2, loc) == At(b1, loc);
      }
    }
    BoardsEqual(b3, b);
  }

  /** A move played through MoveSpec with nothing undone, from an occupied
      square to another square on the board, leaves a log whose last entry
      can be taken back and replayed. */
  lemma MoveLeavesUndoable(s: GameState, from: Location, to: Location)
    requires s.stateOffset == 0 && from != to
    requires IsLocationAvailable(from) && IsLocationAvailable(to) && At(s.board, from).Some?
    ensures MoveSpec(s, from, to).outcome == Pass
    ensures Undoable(MoveSpec(s, from, to).state.board, MoveSpec(s, from, to).state.history,
                     |MoveSpec(s, from, to).state.history|, 1)
  {
    MovePawnEffect(s.board, from, to);
    var t := MoveSpec(s, from, to).state;
    assert TakeBackEntries(t.board, t.history, |t.history|, 0) == Success(t.board);
    assert t.history[|t.history| - 1] == GameOperation(from, to, At(s.board, to));
  }

  /** Taking back entries hi - 1 down to hi - n, each of them, when its turn
      comes, finds its piece on its destination and its origin empty. */
  ghost predicate Undoable(b: Board, history: seq<GameOperation>, hi: int, n: nat)
    decreases n
  {
    n == 0 ||
    (Undoable(b, history, hi, n - 1) && 0 <= hi - n < |history| &&
     TakeBackEntries(b, history, hi, n - 1).Success? &&
     Replayable(TakeBackEntries(b, history, hi, n - 1).value, history[hi - n]))
  }

  lemma {:induction false} UndoableBelow(b: Board, history: seq<GameOperation>, hi: int, n: nat, k: nat)
    decreases n
    requires Undoable(b, history, hi, n) && k <= n
    ensures Undoable(b, history, hi, k)
    ensures EntriesOnBoard(history, hi - n, hi)
  {
    hide TakeBackEntries;
    if n > 0 {
      UndoableBelow(b, history, hi, n - 1, if k == n then n - 1 else k);
      assert Replayable(TakeBackEntries(b, history, hi, n - 1).value, history[hi - n]) by {
        assert Undoable(b, history, hi, n);
      }
      assert OnBoard(history[hi - n]);
    }
  }

  lemma UndoableStep(b: Board, history: seq<GameOperation>, hi: int, k: nat)
    requires Undoable(b, history, hi, k) && k >= 1
    ensures 0 <= hi - k < |history| && TakeBackEntries(b, history, hi, k - 1).Success?
    ensures Replayable(TakeBackEntries(b, history, hi, k - 1).value, history[hi - k])
  {
  }

  lemma RedoFixedIterationsNext(x: GameState, j: nat)
    ensures RedoFixedIterations(x, 0) == Step(x, Pass)
    ensures j >= 1 && RedoFixedIterations(x, j - 1).outcome == Pass ==>
      RedoFixedIterations(x, j) ==
      RedoEntry(RedoFixedIterations(x, j - 1).state,
                |RedoFixedIterations(x, j - 1).state.history| - RedoFixedIterations(x, j - 1).state.stateOffset)
  {
  }

  /** After n corrected undo steps, j corrected redo steps lead back to the
      state after n - j undo steps. */
  lemma {:induction false} RedoUnwinds(s: GameState, n: nat, j: nat)
    decreases j
    requires 0 <= s.stateOffset && s.stateOffset + n <= |s.history| && j <= n
    requires Undoable(s.board, s.history, |s.history| - s.stateOffset, n)
    ensures UndoFixedIterations(s, n).outcome == Pass
    ensures RedoFixedIterations(UndoFixedIterations(s, n).state, j) == UndoFixedIterations(s, n - j)
  {
    hide UndoEntry, RedoEntry, TakeBack, Boards.MovePawn, Undoable, Replayable, TakeBackEntries,
      UndoFixedIterations, RedoFixedIterations, TurnAfter;
    var hi := |s.history| - s.stateOffset;
    UndoableBelow(s.board, s.history, hi, n, n);
    UndoFixedCompletes(s, n);
    var undone := UndoFixedIterations(s, n).state;
    RedoFixedIterationsNext(undone, j);
    if j > 0 {
      var k := n - j + 1;
      RedoUnwinds(s, n, j - 1);
      UndoFixedCompletes(s, k);
      UndoFixedCompletes(s, k - 1);
      UndoableBelow(s.board, s.history, hi, n, k);
      UndoableStep(s.board, s.history, hi, k);
      var current := UndoFixedIterations(s, k).state;
      var idx := hi - k;
      assert idx == |current.history| - current.stateOffset;
      var before := TakeBackEntries(s.board, s.history, hi, k - 1).value;
      TakeBackEntriesStep(s.board, s.history, hi, k);
      ReplayRestores(before, s.history[idx]);
      RedoEntryPasses(current, idx);
      TurnAfterStep(s.turn, k);
    }
  }

  /** With the log consistent with the board, corrected Undo(n) followed by
      corrected Redo(n) gives back the state before, board, scores, turn and
      offset included. */
  lemma UndoRedoFixedRoundTrip(s: GameState, n: nat)
    requires n >= 1 && 0 <= s.stateOffset && s.stateOffset + n <= |s.history|
    requires Undoable(s.board, s.history, |s.history| - s.stateOffset, n)
    ensures UndoFixed(s, n).outcome == Pass
    ensures RedoFixed(UndoFixed(s, n).state, n) == Step(s, Pass)
  {
    hide Undoable, RedoFixedIterations, TakeBackEntries;
    UndoableBelow(s.board, s.history, |s.history| - s.stateOffset, n, n);
    RedoUnwinds(s, n, n);
    UndoFixedCompletes(s, n);
    RedoFixedIterationsNext(s, 0);
  }
  /** Entries on the board are not enough for the round trip: when the log
      disagrees with the board (the entry's destination is empty while its
      origin holds a piece), taking the entry back erases that piece and
      replaying it cannot bring the piece back. */
  lemma UndoRedoNeedsConsistentLog(s: GameState, p: Pawn)
    requires |s.history| == 1 && s.stateOffset == 0
    requires OnBoard(s.history[0]) && s.history[0].from != s.history[0].to
    requires At(s.board, s.history[0].from) == Some(p) && At(s.board, s.history[0].to).None?
    ensures EntriesOnBoard(s.history, 0, 1) && !Undoable(s.board, s.history, 1, 1)
    ensures UndoFixed(s, 1).outcome == Pass
    ensures At(RedoFixed(UndoFixed(s, 1).state, 1).state.board, s.history[0].from).None?
    ensures RedoFixed(UndoFixed(s, 1).state, 1) != Step(s, Pass)
  {
    var op := s.history[0];
    UndoEntryPasses(s, 0);
    SetPawnEffect(s.board, op.from, None);
    var b1 := SetPawn(s.board, op.from, None).value;
    SetPawnEffect(b1, op.to, op.targetPawn);
    var b2 := SetPawn(b1, op.to, op.targetPawn).value;
    assert TakeBack(s.board, op) == Success(b2);
    var undone := UndoFixed(s, 1).state;
    assert undone.board == b2 && undone.stateOffset == 1;
    RedoEntryPasses(undone, 0);
    assert RedoFixed(undone, 1) == RedoEntry(undone, 0);
    assert MovePawn(b2, op.from, op.to) == Success(b2);
  }


  // ---------------------------------------------------------------------------
  // The game object

  class Game {
    var history: seq<GameOperation>
    var stateOffset: int
    var currentBoard: Board
    var currentTurn: Camp

    /** All four fields as a value. */
    function State(): GameState
      reads this
    {
      GameState(history, stateOffset, currentBoard, currentTurn)
    }

    /** `new Game(board)`: the given board, an empty log, Self to move (the
        first value of Camp, the enum's default). */
    constructor (board: Board)
      ensures State() == GameState([], 0, board, Self)
    {
      history := [];
      stateOffset := 0;
      currentBoard := board;
      currentTurn := Self;
    }

    /** `new Game()`: a game on the opening layout. */
    constructor New()
      ensures history == [] && stateOffset == 0 && currentTurn == Self
      ensures forall loc :: At(currentBoard, loc) == Opening.OpeningPawnAt(loc)
      ensures ScoresConsistent(currentBoard)
    {
      var b := Opening.CreateNew();
      history := [];
      stateOffset := 0;
      currentBoard := b;
      currentTurn := Self;
    }

    method SwitchTurn()
      modifies this
      ensures State() == old(State()).(turn := GetOtherCamp(old(currentTurn)))
    {
      currentTurn := match currentTurn
        case Self => Opponent
        case Opponent => Self;
    }

    method MovePawn(from: Location, to: Location) returns (o: Outcome)
      modifies this
      ensures Step(State(), o) == MoveSpec(old(State()), from, to)
    {
      var target := Boards.GetPawn(currentBoard, to);
      if target.Failure? {
        return Fail(target.error);
      }
      while stateOffset > 0
        invariant stateOffset == old(stateOffset) && currentBoard == old(currentBoard) && currentTurn == old(currentTurn)
        invariant |history| <= |old(history)| && history == old(history)[..|history|]
        invariant stateOffset <= 0 ==> history == old(history)
        decreases |history|
      {
        if |history| == 0 {
          return Fail(ArgumentOutOfRange);
        }
        history := history[..|history| - 1];
      }
      history := history + [GameOperation(from, to, target.value)];
      var moved := Boards.MovePawn(currentBoard, from, to);
      if moved.Failure? {
        return Fail(moved.error);
      }
      currentBoard := moved.value;
      SwitchTurn();
      o := Pass;
    }

    /** One iteration of Undo's loop, on log entry `idx`. */
    method UndoEntryAt(idx: int) returns (o: Outcome)
      modifies this
      ensures Step(State(), o) == UndoEntry(old(State()), idx)
    {
      if !(0 <= idx < |history|) {
        return Fail(ArgumentOutOfRange);
      }
      var op := history[idx];
      var operated := Boards.GetPawn(currentBoard, op.to);
      if operated.Failure? {
        return Fail(operated.error);
      }
      var b1 := Boards.SetPawn(currentBoard, op.from, operated.value);
      if b1.Failure? {
        return Fail(b1.error);
      }
      currentBoard := b1.value;
      currentBoard := Boards.SetPawn(currentBoard, op.to, op.targetPawn).value;
      assert Success(currentBoard) == TakeBack(old(currentBoard), op);
      stateOffset := stateOffset + 1;
      SwitchTurn();
      o := Pass;
    }

    method Undo(count: int) returns (o: Outcome)
      modifies this
      ensures Step(State(), o) == UndoSpec(old(State()), count)
    {
      hide UndoEntry;
      if count <= 0 || stateOffset + count > |history| {
        return Fail(ArgumentOutOfRange);
      }
      for i := 0 to count
        invariant UndoIterations(old(State()), i) == Step(State(), Pass)
      {
        var idx := |history| - stateOffset - 1 - i;
        UndoIterationsNext(old(State()), i, State(), idx);
        o := UndoEntryAt(idx);
        if o.Fail? {
          UndoFailureEndsLoop(old(State()), i + 1, count);
          return;
        }
      }
      o := Pass;
    }

    /** One iteration of Redo's loop, on log entry `idx`. */
    method RedoEntryAt(idx: int) returns (o: Outcome)
      modifies this
      ensures Step(State(), o) == RedoEntry(old(State()), idx)
    {
      if !(0 <= idx < |history|) {
        return Fail(ArgumentOutOfRange);
      }
      var op := history[idx];
      var moved := Boards.MovePawn(currentBoard, op.from, op.to);
      if moved.Failure? {
        return Fail(moved.error);
      }
      currentBoard := moved.value;
      stateOffset := stateOffset - 1;
      SwitchTurn();
      o := Pass;
    }

    method Redo(count: int) returns (o: Outcome)
      modifies this
      ensures Step(State(), o) == RedoSpec(old(State()), count)
    {
      hide RedoEntry;
      if count <= 0 || count - stateOffset > 0 {
        return Fail(ArgumentOutOfRange);
      }
      for i := 0 to count
        invariant RedoIterations(old(State()), i) == Step(State(), Pass)
      {
        var idx := |history| - stateOffset + i;
        RedoIterationsNext(old(State()), i, State(), idx);
        o := RedoEntryAt(idx);
        if o.Fail? {
          RedoFailureEndsLoop(old(State()), i + 1, count);
          return;
        }
      }
      o := Pass;
    }

    /** GetHistory; see GetHistorySpec for the positive distances. */
    function GetHistory(distance: int): (r: Result<Board>)
      reads this
      ensures distance == 0 ==> r == Success(currentBoard)
      ensures distance != 0 ==> r.Failure?
      ensures distance < 0 || distance > |history| ==> r == Failure(ArgumentOutOfRange)
    {
      GetHistorySpec(State(), distance)
    }

    function GetPawn(loc: Location): (r: Result<Option<Pawn>>)
      reads this
      ensures r.Success? <==> IsLocationAvailable(loc)
      ensures r.Success? ==> r.value == At(currentBoard, loc)
    {
      Boards.GetPawn(currentBoard, loc)
    }

    /** A square of the current board holding a Self piece. */
    predicate IsLocationAlly(loc: Location)
      reads this
    {
      IsLocationSpecifiedCamp(currentBoard, loc, Self)
    }

    /** A square of the current board holding an Opponent piece. */
    predicate IsLocationEnemy(loc: Location)
      reads this
    {
      IsLocationSpecifiedCamp(currentBoard, loc, Opponent)
    }

    /** The first piece of the camp and kind in scan order: the first match
        of EnumerateAllPawns, or nothing. */
    method FindPawn(camp: Camp, kind: PawnKind) returns (r: Option<PawnOnBoard>)
      ensures r == FindPawnSpec(currentBoard, camp, kind)
    {
      var ps := BoardScan.EnumerateAllPawns(currentBoard);
      var k := 0;
      while k < |ps| && ps[k].pawn != Pawn(camp, kind)
        invariant 0 <= k <= |ps|
        invariant FirstOfKind(ps, camp, kind) >= k
        decreases |ps| - k
      {
        k := k + 1;
      }
      if k < |ps| {
        return Some(ps[k]);
      }
      return None;
    }
  }
}
