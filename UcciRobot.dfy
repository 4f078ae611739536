/** The robot that asks an external UCCI engine for its move (UcciRobot.cs).
    The engine process is replaced by the lines it would print, read one at
    a time, and a log of the commands sent to it. */
module UcciRobots {
  import opened Results
  import opened Pieces
  import opened Locations
  import opened Boards
  import BoardScan
  import Walkable
  import opened Games
  import opened ErgodicRobots
  import opened UcciUtilities

  // ---------------------------------------------------------------------------
  // GetOperationToWin

  /** An operation that takes the general of `other`. */
  predicate TakesGeneral(op: GameOperation, other: Camp) {
    op.targetPawn == Some(Pawn(other, General))
  }

  /** The first operation of a run that takes the general of `other`. */
  function FirstCapture(ops: seq<GameOperation>, other: Camp): Option<GameOperation> {
    if ops == [] then None
    else if TakesGeneral(ops[0], other) then Some(ops[0])
    else FirstCapture(ops[1..], other)
  }

  /** FirstCapture finds the earliest capturing operation, and nothing when
      there is none. */
  lemma {:induction false} FirstCaptureIsFirst(ops: seq<GameOperation>, other: Camp)
    ensures FirstCapture(ops, other).None? <==> forall k :: 0 <= k < |ops| ==> !TakesGeneral(ops[k], other)
    ensures FirstCapture(ops, other).Some? ==>
      exists k :: 0 <= k < |ops| && ops[k] == FirstCapture(ops, other).value && TakesGeneral(ops[k], other) &&
        forall j :: 0 <= j < k ==> !TakesGeneral(ops[j], other)
  {
    if ops != [] && !TakesGeneral(ops[0], other) {
      FirstCaptureIsFirst(ops[1..], other);
      if FirstCapture(ops[1..], other).Some? {
        var k :| 0 <= k < |ops[1..]| && ops[1..][k] == FirstCapture(ops[1..], other).value &&
          TakesGeneral(ops[1..][k], other) && forall j :: 0 <= j < k ==> !TakesGeneral(ops[1..][j], other);
        assert ops[k + 1] == ops[1..][k];
        assert forall j :: 1 <= j < k + 1 ==> ops[j] == ops[1..][j - 1];
      } else {
        assert forall k :: 1 <= k < |ops| ==> ops[k] == ops[1..][k - 1];
      }
    }
  }

  /** Searching two runs in a row searches the second only when the first
      has no capture. */
  lemma {:induction false} FirstCaptureAppend(a: seq<GameOperation>, c: seq<GameOperation>, other: Camp)
    ensures FirstCapture(a + c, other) ==
      if FirstCapture(a, other).Some? then FirstCapture(a, other) else FirstCapture(c, other)
  {
    if a == [] {
      assert a + c == c;
    } else {
      assert (a + c)[0] == a[0];
      assert (a + c)[1..] == a[1..] + c;
      FirstCaptureAppend(a[1..], c, other);
    }
  }

  /** The operations of two runs of pieces are those of each in turn. */
  lemma {:induction false} OpsOfAppend(b: Board, ps: seq<PawnOnBoard>, qs: seq<PawnOnBoard>)
    ensures OpsOf(b, ps + qs) == OpsOf(b, ps) + OpsOf(b, qs)
  {
    hide PieceOps;
    if qs == [] {
      assert ps + qs == ps;
    } else {
      var init := qs[..|qs| - 1];
      assert (ps + qs)[..|ps + qs| - 1] == ps + init;
      OpsOfAppend(b, ps, init);
    }
  }

  /** GetOperationToWin: the first operation, pieces of the camp to move in
      scan order and their destinations in generator order, that takes the
      other camp's general. */
  function OperationToWin(b: Board, turn: Camp): Option<GameOperation> {
    FirstCapture(OpsOf(b, BoardScan.AllPawnsOf(b, turn)), GetOtherCamp(turn))
  }

  /** The win short-circuit fires exactly when some piece of the camp to move
      can go to the square of the other camp's general, and what it plays is
      such a move, capturing that general. */
  lemma OperationToWinExactly(b: Board, turn: Camp)
    ensures OperationToWin(b, turn).None? <==>
      forall op :: op in GenerateOps(turn, b, 1) ==> !TakesGeneral(op, GetOtherCamp(turn))
    ensures OperationToWin(b, turn).Some? ==>
      var op := OperationToWin(b, turn).value;
      op in GenerateOps(turn, b, 1) && TakesGeneral(op, GetOtherCamp(turn)) && At(b, op.to) == op.targetPawn
  {
    var ops := OpsOf(b, BoardScan.AllPawnsOf(b, turn));
    assert GenerateOps(turn, b, 1) == ops;
    FirstCaptureIsFirst(ops, GetOtherCamp(turn));
    if OperationToWin(b, turn).Some? {
      var op := OperationToWin(b, turn).value;
      GenerateOpsExactly(turn, b, 1, op);
    }
  }

  /** FirstCapture looks at the head first. */
  lemma FirstCaptureHead(ops: seq<GameOperation>, other: Camp)
    requires ops != []
    ensures FirstCapture(ops, other) ==
      if TakesGeneral(ops[0], other) then Some(ops[0]) else FirstCapture(ops[1..], other)
  {
  }

  /** No pieces, no operations. */
  lemma OpsOfEmpty(b: Board)
    ensures OpsOf(b, []) == []
  {
  }

  /** One more piece adds its operations at the end. */
  lemma OpsOfSnoc(b: Board, ps: seq<PawnOnBoard>, i: nat)
    requires i < |ps|
    ensures OpsOf(b, ps[..i + 1]) == OpsOf(b, ps[..i]) + PieceOps(b, ps[i])
  {
    assert ps[..i + 1][..i] == ps[..i];
  }

  /** The inner loop of GetOperationToWin: the destinations of one piece,
      stopping at the first that holds the other camp's general. */
  method SearchPiece(b: Board, p: PawnOnBoard, other: Camp) returns (r: Option<GameOperation>)
    ensures r == FirstCapture(PieceOps(b, p), other)
  {
    hide FirstCapture, OpsOf;
    ghost var ops := PieceOps(b, p);
    var walkable := Walkable.GetWalkableLocations(b, p);
    if walkable.Failure? {
      FirstCaptureIsFirst(ops, other);
      return None;
    }
    var ts := walkable.value;
    assert ops[..0] == [];
    FirstCaptureIsFirst([], other);
    var j := 0;
    while j < |ts|
      invariant 0 <= j <= |ts| && |ops| == |ts|
      invariant FirstCapture(ops[..j], other) == None
    {
      var op := GameOperation(p.location, ts[j], At(b, ts[j]));
      assert ops[j] == op;
      FirstCaptureAppend(ops[..j], ops[j..], other);
      assert ops[..j] + ops[j..] == ops;
      FirstCaptureHead(ops[j..], other);
      if At(b, ts[j]) == Some(Pawn(other, General)) {
        return Some(op);
      }
      assert ops[..j + 1] == ops[..j] + [op];
      FirstCaptureAppend(ops[..j], [op], other);
      FirstCaptureHead([op], other);
      FirstCaptureIsFirst([op][1..], other);
      j := j + 1;
    }
    assert ops[..j] == ops;
    return None;
  }

  /** The nested search loop of GetOperationToWin with its early return. */
  method SearchOperationToWin(b: Board, turn: Camp) returns (r: Option<GameOperation>)
    ensures r == OperationToWin(b, turn)
  {
    hide FirstCapture, OpsOf, PieceOps;
    var other := GetOtherCamp(turn);
    var all := BoardScan.EnumerateAllPawns(b);
    var ps := BoardScan.PawnsOf(all, turn);
    assert ps[..0] == [];
    OpsOfEmpty(b);
    FirstCaptureIsFirst([], other);
    var i := 0;
    while i < |ps|
      invariant 0 <= i <= |ps|
      invariant FirstCapture(OpsOf(b, ps[..i]), other) == None
    {
      OpsOfSnoc(b, ps, i);
      FirstCaptureAppend(OpsOf(b, ps[..i]), PieceOps(b, ps[i]), other);
      var found := SearchPiece(b, ps[i], other);
      if found.Some? {
        assert ps[..i + 1] + ps[i + 1..] == ps;
        OpsOfAppend(b, ps[..i + 1], ps[i + 1..]);
        FirstCaptureAppend(OpsOf(b, ps[..i + 1]), OpsOf(b, ps[i + 1..]), other);
        return found;
      }
      i := i + 1;
    }
    assert ps[..i] == ps;
    return None;
  }

  // ---------------------------------------------------------------------------
  // Reading the engine's reply

  /** String.StartsWith. */
  predicate StartsWith(s: string, prefix: string) {
    |prefix| <= |s| && s[..|prefix|] == prefix
  }

  /** The square a pair of coordinate characters names: file letter from
      'a', rank digit from '0'. Nothing checks that it is on the board. */
  function SquareOf(file: char, rank: char): Location {
    Location(file as int - 'a' as int, rank as int - '0' as int)
  }

  /** The operation a `bestmove` line stands for: the second space-separated
      field's first four characters name the two squares, and the target is
      whatever stands on the destination now. Fewer than two fields throws
      InvalidOperationException; a field of fewer than four characters,
      IndexOutOfRangeException; a destination off the board, whatever
      GetPawn throws. */
  function DecodeBestMove(line: string, b: Board): Result<GameOperation> {
    var segments := Split(line, ' ');
    if |segments| < 2 then Failure(InvalidOperation)
    else
      var todo := segments[1];
      if |todo| < 4 then Failure(IndexOutOfRange)
      else
        var from := SquareOf(todo[0], todo[1]);
        var to := SquareOf(todo[2], todo[3]);
        match GetPawn(b, to)
        case Failure(e) => Failure(e)
        case Success(target) => Success(GameOperation(from, to, target))
  }

  /** What one reply line means: a decision, or a line to skip. */
  datatype Reply = Skip | Decided(result: Result<GameOperation>)

  /** `bestmove` lines decode, `nobestmove` lines play the None operation,
      and every other line is skipped. */
  function InterpretLine(line: string, b: Board): Reply {
    if StartsWith(line, "bestmove") then Decided(DecodeBestMove(line, b))
    else if StartsWith(line, "nobestmove") then Decided(Success(NoneOperation))
    else Skip
  }

  /** The two coordinate characters of an on-board square. */
  function SquareText(loc: Location): (s: string)
    requires IsLocationAvailable(loc)
    ensures |s| == 2 && SquareOf(s[0], s[1]) == loc
  {
    [('a' as int + loc.x) as char, ('0' as int + loc.y) as char]
  }

  /** The move field of a `bestmove` line for an operation. */
  function MoveText(from: Location, to: Location): (s: string)
    requires IsLocationAvailable(from) && IsLocationAvailable(to)
    ensures |s| == 4 && ' ' !in s
  {
    SquareText(from) + SquareText(to)
  }

  /** Decoding a `bestmove` line undoes writing it: the squares come back,
      and the target is the destination's occupant. */
  lemma DecodeMoveText(from: Location, to: Location, b: Board)
    requires IsLocationAvailable(from) && IsLocationAvailable(to)
    ensures InterpretLine("bestmove " + MoveText(from, to), b) ==
      Decided(Success(GameOperation(from, to, At(b, to))))
  {
    var m := MoveText(from, to);
    var line := "bestmove " + m;
    assert line == "bestmove" + [' '] + m;
    SplitNone("bestmove", ' ');
    SplitAppend("bestmove", ' ', m);
    assert line[..8] == "bestmove";
  }

  /** `bestmove b2e2` moves the piece on file 1, rank 2 to file 4, rank 2. */
  lemma DecodeB2E2(b: Board)
    ensures InterpretLine("bestmove b2e2", b) ==
      Decided(Success(GameOperation(Location(1, 2), Location(4, 2), At(b, Location(4, 2)))))
  {
    assert MoveText(Location(1, 2), Location(4, 2)) == "b2e2";
    assert "bestmove b2e2" == "bestmove " + "b2e2";
    DecodeMoveText(Location(1, 2), Location(4, 2), b);
  }

  /** A `bestmove` line with no second field throws. */
  lemma BareBestMove(b: Board)
    ensures InterpretLine("bestmove", b) == Decided(Failure(InvalidOperation))
  {
    hide Split;
    SplitNone("bestmove", ' ');
    assert DecodeBestMove("bestmove", b) == Failure(InvalidOperation);
  }

  /** The outcome of reading replies, and the lines left unread. */
  datatype Received = Received(result: Result<GameOperation>, rest: seq<string>)

  /** GoAndReceiveOperation's read loop: the first deciding line decides;
      the end of the stream throws InvalidOperationException. */
  function ReceiveSpec(lines: seq<string>, b: Board): (r: Received)
    ensures |r.rest| < |lines| || r.rest == []
  {
    if lines == [] then Received(Failure(InvalidOperation), [])
    else
      match InterpretLine(lines[0], b)
      case Decided(result) => Received(result, lines[1..])
      case Skip => ReceiveSpec(lines[1..], b)
  }

  /** Lines that decide nothing are skipped: the first deciding line gives
      the result and the lines after it are left to read; with no deciding
      line the stream ends in InvalidOperationException. */
  lemma {:induction false} ReceiveFirstDecided(lines: seq<string>, b: Board, k: nat)
    requires k <= |lines| && forall j :: 0 <= j < k ==> InterpretLine(lines[j], b).Skip?
    ensures k < |lines| && InterpretLine(lines[k], b).Decided? ==>
      ReceiveSpec(lines, b) == Received(InterpretLine(lines[k], b).result, lines[k + 1..])
    ensures k == |lines| ==> ReceiveSpec(lines, b) == Received(Failure(InvalidOperation), [])
  {
    if k > 0 {
      assert forall j :: 0 <= j < k - 1 ==> lines[1..][j] == lines[j + 1];
      ReceiveFirstDecided(lines[1..], b, k - 1);
      assert lines[1..][k - 1..] == lines[k..];
      if k < |lines| {
        assert lines[1..][k - 1 + 1..] == lines[k + 1..];
      }
    }
  }

  // ---------------------------------------------------------------------------
  // The conversation with the engine, as values

  /** The commands the robot writes to the engine. */
  datatype Command = Ucci | PositionFen(fen: string) | GoDepth(depth: int)

  /** The robot's side of the conversation: whether the handshake is done,
      the commands written so far, and the engine's lines not yet read. */
  datatype Session = Session(ucciOK: bool, sent: seq<Command>, replies: seq<string>)

  /** A result together with the session after it. */
  datatype Exchange<T> = Exchange(result: T, session: Session)

  /** The handshake's wait for `ucciok`, from the line just read: lines up to
      and including the first `ucciok` are consumed; without one the source
      reads the end of the stream forever, here the Hangs error. */
  function AwaitUcciOk(lines: seq<string>): (r: (Outcome, seq<string>))
    ensures |r.1| < |lines| || r.1 == []
  {
    if lines == [] then (Fail(Hangs), [])
    else if lines[0] == "ucciok" then (Pass, lines[1..])
    else AwaitUcciOk(lines[1..])
  }

  /** The wait ends at the first `ucciok`, and hangs when there is none. */
  lemma {:induction false} AwaitUcciOkFinds(lines: seq<string>)
    ensures AwaitUcciOk(lines).0.Pass? <==> "ucciok" in lines
    ensures AwaitUcciOk(lines).0.Fail? ==> AwaitUcciOk(lines) == (Fail(Hangs), [])
    ensures AwaitUcciOk(lines).0.Pass? ==>
      exists k :: 0 <= k < |lines| && lines[k] == "ucciok" && (forall j :: 0 <= j < k ==> lines[j] != "ucciok") &&
        AwaitUcciOk(lines).1 == lines[k + 1..]
  {
    if lines != [] && lines[0] != "ucciok" {
      AwaitUcciOkFinds(lines[1..]);
      assert "ucciok" in lines <==> "ucciok" in lines[1..];
      if AwaitUcciOk(lines).0.Pass? {
        var k :| 0 <= k < |lines[1..]| && lines[1..][k] == "ucciok" &&
          (forall j :: 0 <= j < k ==> lines[1..][j] != "ucciok") && AwaitUcciOk(lines[1..]).1 == lines[1..][k + 1..];
        assert lines[k + 1] == "ucciok";
        assert forall j :: 1 <= j < k + 1 ==> lines[j] == lines[1..][j - 1];
        assert lines[1..][k + 1..] == lines[k + 2..];
      }
    }
  }

  /** GetReady: while the handshake is not done, write `ucci`, throw
      InvalidOperationException if the stream has already ended, and wait
      for `ucciok`; then write the position. */
  function ReadySpec(s: Session, b: Board, turn: Camp): Exchange<Outcome> {
    var handshaken :=
      if s.ucciOK then Exchange(Pass, s)
      else
        var sent := s.sent + [Ucci];
        if s.replies == [] then Exchange(Fail(InvalidOperation), Session(false, sent, []))
        else
          var (o, rest) := AwaitUcciOk(s.replies);
          Exchange(o, Session(o.Pass?, sent, rest));
    if handshaken.result.Fail? then handshaken
    else
      var t := handshaken.session;
      Exchange(Pass, Session(t.ucciOK, t.sent + [PositionFen(FenAsWritten(b, turn))], t.replies))
  }

  /** The handshake happens once: after a successful GetReady the flag is
      set, and a later GetReady only writes the position and reads nothing. */
  lemma ReadyHandshakesOnce(s: Session, b: Board, turn: Camp, b2: Board, turn2: Camp)
    ensures ReadySpec(s, b, turn).result.Pass? ==> ReadySpec(s, b, turn).session.ucciOK
    ensures s.ucciOK ==>
      ReadySpec(s, b2, turn2) == Exchange(Pass, Session(true, s.sent + [PositionFen(FenAsWritten(b2, turn2))], s.replies))
  {
  }

  /** The first handshake writes `ucci`; it succeeds exactly when the engine
      prints `ucciok`, consuming the lines up to the first one; it throws
      InvalidOperationException on an already ended stream, and hangs when
      no `ucciok` ever comes. */
  lemma ReadyFirstHandshake(s: Session, b: Board, turn: Camp)
    requires !s.ucciOK
    ensures var r := ReadySpec(s, b, turn);
      r.session.sent[..|s.sent| + 1] == s.sent + [Ucci] &&
      (s.replies == [] ==> r == Exchange(Fail(InvalidOperation), Session(false, s.sent + [Ucci], []))) &&
      (s.replies != [] && "ucciok" !in s.replies ==> r == Exchange(Fail(Hangs), Session(false, s.sent + [Ucci], []))) &&
      (r.result.Pass? <==> "ucciok" in s.replies)
  {
    AwaitUcciOkFinds(s.replies);
  }

  /** GoAndReceiveOperation: a depth below 1 throws ArgumentOutOfRangeException
      before anything is written; otherwise `go depth` is written and the
      replies are read. */
  function GoSpec(s: Session, b: Board, depth: int): Exchange<Result<GameOperation>> {
    if depth < 1 then Exchange(Failure(ArgumentOutOfRange), s)
    else
      var r := ReceiveSpec(s.replies, b);
      Exchange(r.result, Session(s.ucciOK, s.sent + [GoDepth(depth)], r.rest))
  }

  /** GetStep(depth): disposed robots throw; a capture of the general is
      played without asking the engine; otherwise the handshake, the
      position, and the engine's answer. */
  function UcciStepSpec(disposed: bool, s: Session, b: Board, turn: Camp, depth: int): Exchange<Result<GameOperation>> {
    if disposed then Exchange(Failure(ObjectDisposed), s)
    else
      match OperationToWin(b, turn)
      case Some(op) => Exchange(Success(op), s)
      case None =>
        var ready := ReadySpec(s, b, turn);
        if ready.result.Fail? then Exchange(Failure(ready.result.error), ready.session)
        else GoSpec(ready.session, b, depth)
  }

  /** A disposed robot throws and leaves the conversation as it was; a
      winning capture is played without a word to the engine. */
  lemma StepShortCircuits(s: Session, b: Board, turn: Camp, depth: int)
    ensures UcciStepSpec(true, s, b, turn, depth) == Exchange(Failure(ObjectDisposed), s)
    ensures OperationToWin(b, turn).Some? ==>
      UcciStepSpec(false, s, b, turn, depth) == Exchange(Success(OperationToWin(b, turn).value), s) &&
      TakesGeneral(OperationToWin(b, turn).value, GetOtherCamp(turn))
  {
    OperationToWinExactly(b, turn);
  }

  /** The depth is checked only after the handshake and the position: a bad
      depth still sends them, and then throws. */
  lemma StepChecksDepthLate(s: Session, b: Board, turn: Camp, depth: int)
    requires s.ucciOK && depth < 1 && OperationToWin(b, turn).None?
    ensures UcciStepSpec(false, s, b, turn, depth) ==
      Exchange(Failure(ArgumentOutOfRange), Session(true, s.sent + [PositionFen(FenAsWritten(b, turn))], s.replies))
  {
  }

  /** With the handshake done and no capture available, the robot writes the
      position and `go depth`, and plays what the first deciding line says. */
  lemma StepAsksEngine(s: Session, b: Board, turn: Camp, depth: int, k: nat)
    requires s.ucciOK && depth >= 1 && OperationToWin(b, turn).None?
    requires k < |s.replies| && InterpretLine(s.replies[k], b).Decided?
    requires forall j :: 0 <= j < k ==> InterpretLine(s.replies[j], b).Skip?
    ensures UcciStepSpec(false, s, b, turn, depth) ==
      Exchange(InterpretLine(s.replies[k], b).result,
        Session(true, s.sent + [PositionFen(FenAsWritten(b, turn)), GoDepth(depth)], s.replies[k + 1..]))
  {
    hide FenAsWritten, OperationToWin, InterpretLine, AwaitUcciOk, ReceiveSpec;
    ReceiveFirstDecided(s.replies, b, k);
    assert s.sent + [PositionFen(FenAsWritten(b, turn))] + [GoDepth(depth)] ==
      s.sent + [PositionFen(FenAsWritten(b, turn)), GoDepth(depth)];
  }

  /** The position GetReady writes describes the board, square by square,
      and the camp to move exactly when the last square of rank 0 holds a
      piece (as in the opening position); otherwise the engine is sent a
      position that does not decode. */
  lemma ReadySendsPosition(s: Session, b: Board, turn: Camp)
    requires s.ucciOK
    ensures ReadySpec(s, b, turn).session.sent == s.sent + [PositionFen(FenAsWritten(b, turn))]
    ensures At(b, Location(Width - 1, 0)).Some? ==>
      ParseFen(FenAsWritten(b, turn)) == Some(Position(FenSquares(b, 0), turn)) &&
      forall k :: 0 <= k < Height * Width ==> FenSquares(b, 0)[k] == At(b, Location(k % Width, Height - 1 - k / Width))
    ensures At(b, Location(Width - 1, 0)).None? ==> ParseFen(FenAsWritten(b, turn)) == None
  {
    FenAsWrittenDropsRun(b, turn);
    FenRoundTrip(b, turn);
  }

  // ---------------------------------------------------------------------------
  // The robot

  class UcciRobot {
    const game: Game
    const defaultDepth: int
    var disposed: bool
    var ucciOK: bool
    var sent: seq<Command>
    var replies: seq<string>

    /** The conversation as a value. */
    function State(): Session
      reads this
    {
      Session(ucciOK, sent, replies)
    }

    /** `new UcciRobot(game, defaultDepth, path)`, the engine started and
        about to print `engineOutput`. */
    constructor (game: Game, defaultDepth: int, engineOutput: seq<string>)
      ensures this.game == game && this.defaultDepth == defaultDepth
      ensures !disposed && State() == Session(false, [], engineOutput)
    {
      this.game := game;
      this.defaultDepth := defaultDepth;
      disposed := false;
      ucciOK := false;
      sent := [];
      replies := engineOutput;
    }

    /** ReadLineAsync: the next line, or null at the end of the stream. */
    method ReadLine() returns (line: Option<string>)
      modifies this
      ensures old(replies) == [] ==> line == None && replies == []
      ensures old(replies) != [] ==> line == Some(old(replies)[0]) && replies == old(replies)[1..]
      ensures disposed == old(disposed) && ucciOK == old(ucciOK) && sent == old(sent)
    {
      if replies == [] {
        return None;
      }
      line := Some(replies[0]);
      replies := replies[1..];
    }

    /** WriteLineAsync. */
    method WriteLine(c: Command)
      modifies this
      ensures sent == old(sent) + [c]
      ensures disposed == old(disposed) && ucciOK == old(ucciOK) && replies == old(replies)
    {
      sent := sent + [c];
    }

    /** GetReady, its `ucciok` wait stopping with Hangs where the source
        would read the ended stream forever. */
    method GetReady() returns (o: Outcome)
      modifies this
      ensures Exchange(o, State()) == ReadySpec(old(State()), game.currentBoard, game.currentTurn)
      ensures disposed == old(disposed)
    {
      hide OperationToWin, FenAsWritten, GoSpec, UcciStepSpec, ReceiveSpec;
      if !ucciOK {
        WriteLine(Ucci);
        ghost var start := replies;
        var received := ReadLine();
        if received.None? {
          return Fail(InvalidOperation);
        }
        while received.value != "ucciok"
          invariant received.Some? && AwaitUcciOk([received.value] + replies) == AwaitUcciOk(start)
          invariant !ucciOK && disposed == old(disposed) && sent == old(sent) + [Ucci]
          decreases |replies|
        {
          assert ([received.value] + replies)[1..] == replies;
          received := ReadLine();
          if received.None? {
            return Fail(Hangs);
          }
        }
        assert ([received.value] + replies)[1..] == replies;
        ucciOK := true;
      }
      var fen := GenerateFenString(game.currentBoard, game.currentTurn);
      WriteLine(PositionFen(fen));
      o := Pass;
    }

    /** GetOperationToWin on the game's board and camp to move. */
    method GetOperationToWin() returns (r: Option<GameOperation>)
      ensures r == OperationToWin(game.currentBoard, game.currentTurn)
    {
      r := SearchOperationToWin(game.currentBoard, game.currentTurn);
    }

    /** GoAndReceiveOperation: its read loop over the engine's lines. */
    method GoAndReceiveOperation(depth: int) returns (r: Result<GameOperation>)
      modifies this
      ensures Exchange(r, State()) == GoSpec(old(State()), game.currentBoard, depth)
      ensures disposed == old(disposed)
    {
      hide OperationToWin, FenAsWritten, AwaitUcciOk, ReadySpec, UcciStepSpec;
      if depth < 1 {
        return Failure(ArgumentOutOfRange);
      }
      WriteLine(GoDepth(depth));
      ghost var start := replies;
      var received := ReadLine();
      while true
        invariant ucciOK == old(ucciOK) && disposed == old(disposed) && sent == old(sent) + [GoDepth(depth)]
        invariant received.None? ==> replies == [] && ReceiveSpec(start, game.currentBoard) == Received(Failure(InvalidOperation), [])
        invariant received.Some? ==> ReceiveSpec([received.value] + replies, game.currentBoard) == ReceiveSpec(start, game.currentBoard)
        decreases |replies|, if received.Some? then 1 else 0
      {
        if received.None? {
          return Failure(InvalidOperation);
        }
        var line := received.value;
        assert ([line] + replies)[1..] == replies;
        if StartsWith(line, "bestmove") {
          var segments := Split(line, ' ');
          if |segments| < 2 {
            return Failure(InvalidOperation);
          }
          var todo := segments[1];
          if |todo| < 4 {
            return Failure(IndexOutOfRange);
          }
          var from := SquareOf(todo[0], todo[1]);
          var to := SquareOf(todo[2], todo[3]);
          var target := GetPawn(game.currentBoard, to);
          if target.Failure? {
            return Failure(target.error);
          }
          return Success(GameOperation(from, to, target.value));
        } else if StartsWith(line, "nobestmove") {
          return Success(NoneOperation);
        }
        received := ReadLine();
      }
    }

    /** GetStep(depth). */
    method GetStep(depth: int) returns (r: Result<GameOperation>)
      modifies this
      ensures Exchange(r, State()) ==
        UcciStepSpec(old(disposed), old(State()), game.currentBoard, game.currentTurn, depth)
      ensures disposed == old(disposed)
    {
      if disposed {
        return Failure(ObjectDisposed);
      }
      var operationToWin := GetOperationToWin();
      if operationToWin.Some? {
        return Success(operationToWin.value);
      }
      var ready := GetReady();
      if ready.Fail? {
        return Failure(ready.error);
      }
      r := GoAndReceiveOperation(depth);
    }

    /** GetStep() with the default depth. */
    method GetStepDefault() returns (r: Result<GameOperation>)
      modifies this
      ensures Exchange(r, State()) ==
        UcciStepSpec(old(disposed), old(State()), game.currentBoard, game.currentTurn, defaultDepth)
      ensures disposed == old(disposed)
    {
      r := GetStep(defaultDepth);
    }

    /** Dispose: marks the robot disposed and touches nothing else; a second
        call finds it disposed and does nothing. */
    method Dispose()
      modifies this
      ensures disposed && State() == old(State())
    {
      if !disposed {
        disposed := true;
      }
    }
  }
}
