# Xiangqi rules engine and robots, modelled in Dafny

This project models the core of a C# Xiangqi (Chinese chess) library and
proves properties of that model.

- **Board** (`Board.dfy`, `BoardPawns.dfy`, `Pieces.dfy`, `Locations.dfy`).
  The 9 x 10 board is a value with two running material scores. `SetPawn` and
  `MovePawn` keep the scores, and the scan in `EnumerateAllPawns` is a loop
  proved equal to its specification. `CreateNew` builds the opening layout.
- **Piece rules** (`Walkable.dfy`). There is one generator of destinations per
  kind of piece: chariot, horse, cannon, soldier, advisor, elephant and
  general. The ray enumerators and the chariot and cannon scans are loops.
- **Game** (`Game.dfy`). A class holds the move log, the undo offset, the
  board and the camp to move. `MovePawn`, `Undo(count)`, `Redo(count)`,
  `FindPawn` and `GetHistory` are methods specified by functions on a
  `GameState` value.
- **Step tree** (`StepTree.dfy`). The tree of boards the exhaustive robot
  grows is an arena (`seq<StepNode>`, node 0 the root, children stored by
  index and always after their parent). It covers breadth-first leaf
  enumeration, `AppendSteps`, root-to-leaf paths and the min/max score
  look-ahead. The look-ahead builds its pending list as the source does:
  each round appends the whole list once per entry, so the length squares
  every round (|children|^(2^i) entries after round i).
- **Exhaustive robot** (`ErgodicRobot.dfy`). Move generation per tree level,
  path weights, and the choice of the first heaviest path.
- **Engine robot** (`UcciUtilities.dfy`, `UcciRobot.dfy`).
  - The Xiangqi FEN text of a board, together with a decoder that reads it
    back.
  - The "capture the general" short-circuit.
  - The reading of `bestmove`/`nobestmove` replies.
  - The handshake and dispose flags.
  - The engine process is a list of reply lines plus a log of the commands
    written.

Exceptions are values. A function or method returns `Result`/`Outcome`
carrying one of IndexOutOfRange, ArgumentOutOfRange, Argument, ArgumentNull,
InvalidOperation, ObjectDisposed, or Hangs. Hangs stands for a loop in the
source that never ends. Where an exception thrown by a Game or a step tree
leaves partial changes behind, the model keeps them; `Boards.MovePawn` is
the one exception (see "Left out").

The model follows the code as written; where the code has a defect (see
"Findings") the robots and the Game class follow it, with the corrected
behaviour modelled beside them. Behaviours worth noting:
- The exhaustive robot has no "capture the general" short-circuit. Only the
  engine robot has one.
- `bestmove b2e2` decodes to (1,2) -> (4,2). The rank digit is taken
  unchanged.
- The handshake waits for a line equal to `ucciok`.
- The horse's downward jumps and the soldier's sideways steps may land on a
  square holding a piece of the mover's own camp. `Walkable.HorseDownOntoOwnPiece`
  and `Walkable.SoldierSidewaysOntoOwnPiece` show this.
- When an iteration of `AppendSteps` adds no node, the next iteration
  re-expands all leaves. `StepTrees.EmptyFirstLevelReexpands` shows this.

## Model

| member | source | states |
|---|---|---|
| Pieces.GetPawnWeight | LibChineseChess/Pawn.cs:14-27 | every weight is positive and at most 1000, and only the general weighs 1000 |
| Pieces.WeightTable | LibChineseChess/Pawn.cs:16-24 | the weights of chariot, horse, cannon, soldier, advisor, elephant, general are 10, 5, 8, 1, 3, 3, 1000 |
| BoardPawns.Nones | LibChineseChess/BoardPawns.cs:11 | the default storage is 90 empty cells |
| BoardPawns.CellIndex | LibChineseChess/BoardPawns.cs:34 | an on-board square maps to a cell in 0..89 |
| BoardPawns.CellLocation | LibChineseChess/BoardPawns.cs:34 | every cell 0..89 is the index of an on-board square |
| BoardPawns.CellIndexBijective | LibChineseChess/BoardPawns.cs:34 | y*9+x is a bijection between on-board squares and cells |
| BoardPawns.GetPawn | LibChineseChess/BoardPawns.cs:26-35 | fails with IndexOutOfRange exactly when the square is off the board, and otherwise returns that cell |
| BoardPawns.SetPawn | LibChineseChess/BoardPawns.cs:37-46 | fails with IndexOutOfRange exactly when off the board, writing nothing, and otherwise replaces exactly that cell |
| BoardPawns.SetPawnGetPawn | LibChineseChess/BoardPawns.cs:37-46 | after a write the square reads back the new value, and every other square reads as before |
| BoardPawns.Equals | LibChineseChess/BoardPawns.cs:13-24 | the cell-by-cell loop answers true exactly when all 90 cells are equal |
| Boards.GetPawn | LibChineseChess/Board.cs:27-30 | delegates to the storage: IndexOutOfRange exactly off the board, and the occupant otherwise |
| Boards.MaterialUpdate | LibChineseChess/Board.cs:32-69 | replacing one cell changes the material balance by the new occupant's signed weight minus the old occupant's |
| Boards.MaterialOfEmpty | LibChineseChess/Board.cs:32-69 | a board without pieces has balance 0 |
| Boards.EmptyBoardConsistent | LibChineseChess/Board.cs:10-12 | the default board is empty and satisfies the score invariant |
| Boards.ScoreIsMaterialAdvantage | LibChineseChess/Board.cs:17-25 | under the invariant, GetScore(Self) is the Self weights minus the Opponent weights, and GetScore(Opponent) is its negation |
| Boards.SetPawn | LibChineseChess/Board.cs:32-69 | fails with IndexOutOfRange exactly off the board, and otherwise writes exactly the one cell |
| Boards.SetPawnEffect | LibChineseChess/Board.cs:32-69 | the square holds the new piece and every other square is unchanged; the old occupant's weight is taken off the scores and the new one's added |
| Boards.SetPawnKeepsScores | LibChineseChess/Board.cs:32-69 | SetPawn keeps opponentScore == -selfScore == minus the material balance |
| Boards.MovePawn | LibChineseChess/Board.cs:71-81 | fails exactly when the origin is off the board, or the origin is occupied and the destination is off the board; an empty origin leaves the board unchanged |
| Boards.MovePawnEffect | LibChineseChess/Board.cs:71-81 | the destination holds the moved piece, whatever stood there is gone, the origin is empty (unless origin = destination), and every other square is unchanged |
| Boards.MovePawnKeepsScores | LibChineseChess/Board.cs:71-81 | MovePawn keeps the score invariant |
| Boards.BoardsEqual | LibChineseChess/Board.cs:5-12 | two boards with the same squares and scores are equal (value semantics of the record struct) |
| Boards.SquarePartition | LibChineseChess/Board.cs:83-115 | an on-board square is exactly one of empty, own camp, other camp; an off-board square is none of them |
| BoardScan.PawnsBelowExactly | LibChineseChess/Board.cs:117-131 | the pieces of the first n cells come in scan order, each standing where it says, and every occupied cell among them is listed |
| BoardScan.AllPawnsExactly | LibChineseChess/Board.cs:117-131 | the scan yields exactly the occupied squares, each once, in row-major order |
| BoardScan.EnumerateAllPawns | LibChineseChess/Board.cs:117-131 | the nested y/x loop returns exactly the scan specification |
| BoardScan.PawnsOf | LibChineseChess/Board.cs:133-140 | filtering never lengthens the list |
| BoardScan.PawnsOfMember | LibChineseChess/Board.cs:133-140 | a piece is kept exactly when it is in the list and belongs to the camp |
| BoardScan.PawnsOfKeepsOrder | LibChineseChess/Board.cs:133-140 | filtering keeps scan order |
| BoardScan.AllPawnsOfExactly | LibChineseChess/Board.cs:133-140 | the camp overload yields exactly that camp's pieces, in row-major order |
| Opening.Put | LibChineseChess/Board.cs:529-566 | one SetPawn of the layout places the next opening piece, moves both scores by its weight, and keeps the invariant |
| Opening.SetSelfBackRank | LibChineseChess/Board.cs:529-537 | rank 0 gets the Self back rank; selfScore rises by 1042 and opponentScore falls by 1042 |
| Opening.SetSelfCannons | LibChineseChess/Board.cs:539-540 | Self cannons on (1,2) and (7,2); scores move by 16 |
| Opening.SetSelfSoldiers | LibChineseChess/Board.cs:542-546 | Self soldiers on the even files of rank 3; scores move by 5 |
| Opening.SetOpponentBackRank | LibChineseChess/Board.cs:549-557 | rank 9 gets the Opponent back rank; scores move by 1042 the other way |
| Opening.SetOpponentCannons | LibChineseChess/Board.cs:559-560 | Opponent cannons on (1,7) and (7,7); scores move by 16 the other way |
| Opening.SetOpponentSoldiers | LibChineseChess/Board.cs:562-566 | Opponent soldiers on the even files of rank 6; scores move by 5 the other way |
| Opening.CreateNew | LibChineseChess/Board.cs:525-569 | every square holds its opening piece and nothing else; both scores end at 0 and the invariant holds |
| Walkable.Ray | LibChineseChess/Board.cs:142-192 | a ray lists the squares one, two, ... steps away with their occupants, exactly as far as the board reaches |
| Walkable.EnumerateLeft | LibChineseChess/Board.cs:142-153 | IndexOutOfRange for an off-board start, otherwise the leftward ray |
| Walkable.EnumerateRight | LibChineseChess/Board.cs:155-166 | IndexOutOfRange for an off-board start, otherwise the rightward ray |
| Walkable.EnumerateUp | LibChineseChess/Board.cs:168-179 | IndexOutOfRange for an off-board start, otherwise the upward ray |
| Walkable.EnumerateDown | LibChineseChess/Board.cs:181-192 | IndexOutOfRange for an off-board start, otherwise the downward ray |
| Walkable.EnumerateRays | LibChineseChess/Board.cs:198-203 | the four rays in the order left, right, up, down |
| Walkable.FirstOccupied | LibChineseChess/Board.cs:205-219 | the index of the first occupied square of a ray: everything before it is empty |
| Walkable.FirstOccupiedAt | LibChineseChess/Board.cs:205-219 | that index is unique |
| Walkable.ChariotRayMoves | LibChineseChess/Board.cs:205-219 | on a ray the chariot yields square i exactly when all squares before it are empty and square i is empty or holds the other camp; nothing past the first occupied square |
| Walkable.ScanChariotRay | LibChineseChess/Board.cs:207-218 | the loop with its `break` computes the chariot's ray moves |
| Walkable.GetChariotWalkableLocations | LibChineseChess/Board.cs:196-221 | IndexOutOfRange off the board, otherwise the chariot moves of the four rays in order |
| Walkable.CannonBeforeScreen | LibChineseChess/Board.cs:311-320 | before the first occupied square (the screen) the cannon yields only empty squares, and the screen itself is never yielded |
| Walkable.CannonPastScreen | LibChineseChess/Board.cs:322-334 | past the screen only the next occupied square is yielded, and exactly when it holds the other camp |
| Walkable.CannonNothingPastScreen | LibChineseChess/Board.cs:322-334 | with nothing past the screen, nothing past the screen is yielded |
| Walkable.ScanCannonRay | LibChineseChess/Board.cs:306-337 | the loop with the `metEnemy` flag computes the cannon's ray moves |
| Walkable.GetCannonWalkableLocations | LibChineseChess/Board.cs:297-338 | IndexOutOfRange off the board, otherwise the cannon moves of the four rays in order |
| Walkable.ChariotRayLands | LibChineseChess/Board.cs:205-219 | every chariot move is an on-board square that is empty or holds the other camp |
| Walkable.CannonRayLands | LibChineseChess/Board.cs:306-337 | every cannon move is an on-board square that is empty or holds the other camp |
| Walkable.RaysOfBoard | LibChineseChess/Board.cs:142-192 | each ray reads its squares' occupants off the board |
| Walkable.RayPiecesLand | LibChineseChess/Board.cs:196-338 | the moves of all four rays land on-board, on empty or enemy squares |
| Walkable.YieldIf | LibChineseChess/Board.cs:225-294 | a guarded `yield return` yields the square exactly when the guard holds |
| Walkable.LegJumps | LibChineseChess/Board.cs:225-294 | one horse branch yields its two squares, each under its test, only when the leg square is empty |
| Walkable.HorseLeftJumps | LibChineseChess/Board.cs:225-241 | left jumps: two files left and one rank off, the leg square empty, the destination empty or enemy |
| Walkable.HorseRightJumps | LibChineseChess/Board.cs:243-260 | right jumps, the same tests |
| Walkable.HorseUpJumps | LibChineseChess/Board.cs:262-278 | up jumps, the same tests |
| Walkable.HorseDownJumps | LibChineseChess/Board.cs:280-294 | down jumps need only an empty leg and an on-board destination |
| Walkable.HorseMoves | LibChineseChess/Board.cs:223-295 | a square is a horse move exactly when it is a knight jump, the leg square is on board and empty, and the destination is empty or enemy (or, for a downward jump, merely on board) |
| Walkable.HorseDownOntoOwnPiece | LibChineseChess/Board.cs:280-294 | a downward jump onto a square holding an own piece is yielded |
| Walkable.SoldierMoves | LibChineseChess/Board.cs:340-400 | forward (y+1 for Self, y-1 for Opponent) exactly when on board and empty or enemy; sideways, once across the river, onto any on-board square |
| Walkable.SoldierSidewaysOntoOwnPiece | LibChineseChess/Board.cs:354-366 | a sideways step onto an own piece is yielded |
| Walkable.PalaceSteps | LibChineseChess/Board.cs:427-439 | the candidate steps kept are exactly those inside the camp's palace that are empty or enemy |
| Walkable.AdvisorMoves | LibChineseChess/Board.cs:402-441 | a square is an advisor move exactly when it is one diagonal step away, inside the palace, and empty or enemy |
| Walkable.GeneralMoves | LibChineseChess/Board.cs:467-508 | a square is a general move exactly when it is one orthogonal step away, inside the palace, and empty or enemy |
| Walkable.ElephantMoves | LibChineseChess/Board.cs:443-465 | a square is an elephant move exactly when it is two diagonal steps away, the eye square is empty, and it is empty or enemy |
| Walkable.GetWalkableLocations | LibChineseChess/Board.cs:510-523 | the dispatch on the piece kind equals the per-kind generators |
| Walkable.WalkableOnBoard | LibChineseChess/Board.cs:196-523 | only a chariot or cannon off the board fails; every yielded square is on the board, and except for horse and soldier every yielded square is empty or enemy |
| Games.GetOtherCamp | LibChineseChess/Game.cs:120-128 | the result differs from the argument |
| Games.OtherCampInvolution | LibChineseChess/Game.cs:120-128 | applying it twice gives back the camp |
| Games.UndoEntry | LibChineseChess/Game.cs:71-79 | taking back log entry idx succeeds exactly when idx is in the log and its squares are on the board; it raises the offset by one and passes the turn; failure changes nothing |
| Games.TakeBack | LibChineseChess/Game.cs:72-76 | the take-back writes succeed exactly when both squares are on board |
| Games.RedoEntry | LibChineseChess/Game.cs:93-97 | replaying entry idx succeeds exactly when idx is in the log and Board.MovePawn succeeds; it lowers the offset by one and passes the turn; failure changes nothing |
| Games.UndoSpec | LibChineseChess/Game.cs:63-67 | a count <= 0 or past the log throws ArgumentOutOfRange and changes nothing |
| Games.RedoSpec | LibChineseChess/Game.cs:85-89 | a count <= 0 or above the offset throws ArgumentOutOfRange and changes nothing |
| Games.GetHistorySpec | LibChineseChess/Game.cs:39-59 | distance 0 returns the current board; a negative distance or one beyond the log throws ArgumentOutOfRange; a positive distance within the log never returns (Hangs) when the entry's squares are on the board, and throws IndexOutOfRange when one is not |
| Games.FirstOfKind | LibChineseChess/Game.cs:175-188 | the index of the first piece of the camp and kind; none before it matches |
| Games.FindPawnFirst | LibChineseChess/Game.cs:175-188 | FindPawn returns null exactly when no such piece is on the board; otherwise it returns such a piece where it stands, the earliest in scan order |
| Games.TakeBackRestores | LibChineseChess/Game.cs:71-79 | taking back a move restores the board before it, captured piece and scores included |
| Games.UndoRedoRoundTrip | LibChineseChess/Game.cs:61-118 | with nothing undone, MovePawn then Undo(1) restores board and turn with offset 1, and Redo(1) gives back exactly the state after the move |
| Games.MoveWithUndoneMovesFails | LibChineseChess/Game.cs:109-112 | with moves undone, MovePawn empties the log and throws ArgumentOutOfRange, leaving the offset above the log length |
| Games.DropUndone | LibChineseChess/Game.cs:109-112 | the intended truncation drops exactly the undone tail of the log |
| Games.MoveFixedAgrees | LibChineseChess/Game.cs:105-118 | with nothing undone the corrected MovePawn is the as-written one |
| Games.MoveFixedDiscardsUndone | LibChineseChess/Game.cs:105-118 | the corrected MovePawn drops the undone tail, appends the move with offset 0, and Undo(1) then takes it back |
| Games.UndoEntryPasses | LibChineseChess/Game.cs:71-79 | an on-board entry is always taken back |
| Games.RedoEntryPasses | LibChineseChess/Game.cs:93-97 | an on-board entry is always replayed |
| Games.UndoFailureEndsLoop | LibChineseChess/Game.cs:69-80 | once an iteration throws, the remaining iterations do not run |
| Games.RedoFailureEndsLoop | LibChineseChess/Game.cs:91-99 | once an iteration throws, the remaining iterations do not run |
| Games.UndoTwoSkipsEntry | LibChineseChess/Game.cs:71 | Undo(2) on a two-move log takes back entry 1, then indexes entry -1 and throws |
| Games.RedoTwoSkipsEntry | LibChineseChess/Game.cs:93 | Redo(2) replays one entry, then indexes past the log and throws |
| Games.UndoFixed | LibChineseChess/Game.cs:61-81 | the corrected Undo keeps the argument checks of the original |
| Games.RedoFixed | LibChineseChess/Game.cs:83-100 | the corrected Redo keeps the argument checks of the original |
| Games.SingleStepAgrees | LibChineseChess/Game.cs:61-100 | for count 1 the corrected Undo and Redo are the as-written ones |
| Games.UndoFixedOffset | LibChineseChess/Game.cs:69-80 | n corrected undo steps keep the log and, when they succeed, raise the offset by n |
| Games.RedoFixedOffset | LibChineseChess/Game.cs:91-99 | n corrected redo steps keep the log and, when they succeed, lower the offset by n |
| Games.UndoFixedIsRepeated | LibChineseChess/Game.cs:61-81 | corrected Undo(count) is Undo(count-1) followed by Undo(1) |
| Games.RedoFixedIsRepeated | LibChineseChess/Game.cs:83-100 | corrected Redo(count) is Redo(count-1) followed by Redo(1) |
| Games.UndoFixedCompletes | LibChineseChess/Game.cs:69-80 | over on-board entries the corrected Undo(n) succeeds, keeps the log, raises the offset by n, passes the turn n times, and its board is the current one with entries \|h\|-offset-1 down to \|h\|-offset-n taken back one after the other |
| Games.RedoFixedCompletes | LibChineseChess/Game.cs:91-99 | over on-board entries the corrected Redo(n) succeeds, keeps the log, lowers the offset by n, passes the turn n times, and its board is the current one with entries \|h\|-offset up to \|h\|-offset+n-1 replayed in log order |
| Games.ReplayRestores | LibChineseChess/Game.cs:71-97 | taking back a logged move whose piece stands on its destination and whose origin is empty, then replaying it, gives back the board, scores included |
| Games.MoveLeavesUndoable | LibChineseChess/Game.cs:105-118 | a move from an occupied square to another on-board square, with nothing undone, passes and leaves a log whose last entry satisfies the take-back/replay condition of the undo-redo round trip |
| Games.RedoUnwinds | LibChineseChess/Game.cs:61-100 | with the log consistent with the board, j corrected redo steps after n corrected undo steps give exactly the state after n - j undo steps |
| Games.UndoRedoFixedRoundTrip | LibChineseChess/Game.cs:61-100 | with the log consistent with the board, corrected Undo(n) succeeds and corrected Redo(n) after it gives back the state before: board, scores, turn, offset and log |
| Games.UndoRedoNeedsConsistentLog | LibChineseChess/Game.cs:71-97 | entries on the board are not enough for the round trip: an entry whose destination is empty while its origin holds a piece is taken back by erasing that piece, and Redo cannot restore it |
| Games.Game.constructor | LibChineseChess/Game.cs:19-22 | an empty log, offset 0, the given board, Self to move |
| Games.Game.New | LibChineseChess/Game.cs:24-27 | the opening board, with consistent scores |
| Games.Game.SwitchTurn | LibChineseChess/Game.cs:29-37 | only the turn changes, to the other camp |
| Games.Game.MovePawn | LibChineseChess/Game.cs:105-118 | the new state and outcome are those of MoveSpec, the truncation loop included |
| Games.Game.UndoEntryAt | LibChineseChess/Game.cs:71-79 | one iteration of the Undo loop, as UndoEntry |
| Games.Game.Undo | LibChineseChess/Game.cs:61-81 | the loop's final state and outcome are those of UndoSpec |
| Games.Game.RedoEntryAt | LibChineseChess/Game.cs:93-97 | one iteration of the Redo loop, as RedoEntry |
| Games.Game.Redo | LibChineseChess/Game.cs:83-100 | the loop's final state and outcome are those of RedoSpec |
| Games.Game.GetHistory | LibChineseChess/Game.cs:39-59 | distance 0 gives the current board; any other distance fails, with ArgumentOutOfRange when it is negative or beyond the log |
| Games.Game.GetPawn | LibChineseChess/Game.cs:170-173 | succeeds exactly on the board, with the current occupant |
| Games.Game.FindPawn | LibChineseChess/Game.cs:175-188 | the first match of the scan, or none |
| StepTrees.NewNode | LibChineseChess/Robots/RobotStepTreeNode.cs:37-48 | a node keeps the board it was given as initial board and has no children; the None operation leaves the current board as given; otherwise it succeeds exactly when Board.MovePawn does |
| StepTrees.NewNodeMoves | LibChineseChess/Robots/RobotStepTreeNode.cs:41-46 | for a real move the current board has the piece moved and the origin emptied |
| StepTrees.LeavesAreLeaves | LibChineseChess/Robots/RobotStepTree.cs:19-40 | the breadth-first enumeration yields only childless nodes of the arena |
| StepTrees.DescendantsNext | LibChineseChess/Robots/RobotStepTree.cs:19-40 | level k + 1 below a level holds exactly the children of the nodes in level k |
| StepTrees.LeavesExactly | LibChineseChess/Robots/RobotStepTree.cs:19-40 | a node is yielded by the breadth-first enumeration exactly when it is in the arena, childless and reached from the root |
| StepTrees.RootOnlyLeaves | LibChineseChess/Robots/RobotStepTree.cs:19-40 | a childless root is the only leaf |
| StepTrees.PathsShape | LibChineseChess/Robots/RobotStepTreeNode.cs:10-35 | a node has at least one path; each is a parent-to-child chain ending in a leaf, starting at the node, or at one of its children when its operation is None |
| StepTrees.ChildPathsShape | LibChineseChess/Robots/RobotStepTreeNode.cs:18-34 | the paths through the first m children number at least m, and each is a chain ending in a leaf that starts at the node, or at one of the node's children when its operation is None |
| StepTrees.PathsComplete | LibChineseChess/Robots/RobotStepTreeNode.cs:10-35 | every chain down to a leaf that starts at the node (or at a child of the root, whose operation is None) is one of the node's paths |
| StepTrees.PathsCount | LibChineseChess/Robots/RobotStepTreeNode.cs:18-34 | a leaf has one path, any other node as many as its children together |
| StepTrees.PathsCountLeaves | LibChineseChess/Robots/RobotStepTree.cs:19-45 | the root has as many paths as the breadth-first enumeration yields leaves |
| StepTrees.AddStepValid | LibChineseChess/Robots/RobotStepTree.cs:76-78 | appending a new node as a child of a leaf keeps the arena well formed and linked |
| StepTrees.AddStep | LibChineseChess/Robots/RobotStepTree.cs:74-78 | constructing one child node keeps the arena valid and never shrinks it; a throwing constructor adds nothing |
| StepTrees.AddSteps | LibChineseChess/Robots/RobotStepTree.cs:72-79 | one leaf's operations in factory order keep the arena valid and only add nodes |
| StepTrees.ExpandLeaves | LibChineseChess/Robots/RobotStepTree.cs:70-80 | expanding every leaf of a level keeps the arena valid and only adds nodes |
| StepTrees.GrowLevels | LibChineseChess/Robots/RobotStepTree.cs:56-81 | levels 1..n, stopping at the first that throws, keep the arena valid and only add nodes |
| StepTrees.AppendSpec | LibChineseChess/Robots/RobotStepTree.cs:47-82 | AppendSteps keeps the tree invariant and never removes a node |
| StepTrees.ExtendsTransitive | LibChineseChess/Robots/RobotStepTree.cs:47-82 | growing twice is growing |
| StepTrees.AddStepsGrow | LibChineseChess/Robots/RobotStepTree.cs:72-79 | one leaf's operations only add nodes; with good operations nothing throws and no None operation appears below the root |
| StepTrees.ExpandLeavesGrow | LibChineseChess/Robots/RobotStepTree.cs:70-80 | the same for every leaf of a level |
| StepTrees.GrowLevelsGrow | LibChineseChess/Robots/RobotStepTree.cs:56-81 | the same for every level |
| StepTrees.AppendGrows | LibChineseChess/Robots/RobotStepTree.cs:47-82 | AppendSteps extends the tree; with a factory of good operations it does not throw and keeps None at the root only |
| StepTrees.EmptyFirstLevelReexpands | LibChineseChess/Robots/RobotStepTree.cs:59-66 | when level 1 adds no node, level 2 re-expands the root with the factory at depth 2 |
| StepTrees.AddStepsFailSticks | LibChineseChess/Robots/RobotStepTree.cs:72-79 | a throwing operation ends the expansion |
| StepTrees.GrowLevelsFailSticks | LibChineseChess/Robots/RobotStepTree.cs:56-81 | a throwing level ends AppendSteps |
| StepTrees.AppendSpecNone | LibChineseChess/Robots/RobotStepTree.cs:49-52 | a null factory throws ArgumentNullException and changes nothing |
| StepTrees.AppendSpecLevels | LibChineseChess/Robots/RobotStepTree.cs:56 | depth <= 0 runs no level; otherwise levels 1..depth run in order |
| StepTrees.MinOffsetIsLeast | LibChineseChess/Robots/RobotStepTreeNode.cs:53-72 | the minimum offset is at most 0 and at most every listed node's offset, and it is 0 or one of them |
| StepTrees.MaxOffsetIsGreatest | LibChineseChess/Robots/RobotStepTreeNode.cs:53-72 | the maximum offset is at least 0 and at least every listed node's offset, and it is 0 or one of them |
| StepTrees.ExtremesOfSameElements | LibChineseChess/Robots/RobotStepTreeNode.cs:74-77 | lists with the same elements have the same extremes, however often they repeat |
| StepTrees.Below | LibChineseChess/Robots/RobotStepTreeNode.cs:50-82 | the nodes 1..d steps below a node are all in the arena |
| StepTrees.LookedAt | LibChineseChess/Robots/RobotStepTreeNode.cs:62-81 | the nodes the look-ahead as written visits lie in the arena: the direct children for a depth of 1 or more, nothing otherwise |
| StepTrees.LookedAtBelow | LibChineseChess/Robots/RobotStepTreeNode.cs:62-81 | up to depth 1 the look-ahead as written visits exactly the nodes the corrected one does, and beyond only some of them |
| StepTrees.CopiesRound | LibChineseChess/Robots/RobotStepTreeNode.cs:62-81 | every round of the loop sees only copies of the direct children, so the extremes are those of the children |
| StepTrees.BelowGenerations | LibChineseChess/Robots/RobotStepTreeNode.cs:50-82 | the nodes up to d steps below are exactly the generations 1..d |
| StepTrees.ChildrenMembers | LibChineseChess/Robots/RobotStepTree.cs:34-37 | the next level of the queue holds exactly the children of the current level's nodes |
| StepTrees.LookAheadMissesGrandchildren | LibChineseChess/Robots/RobotStepTreeNode.cs:62-81 | on a linked three-node tree with consistent scores (Self's chariot advances, Opponent's chariot takes it), look-ahead 2 as written reports a minimum offset of 0 for Self, while the grandchild is 10 points down |
| StepTrees.BfsDone | LibChineseChess/Robots/RobotStepTree.cs:24-39 | when the queue is empty the loop has yielded exactly the breadth-first leaves |
| StepTrees.RobotStepTree.constructor | LibChineseChess/Robots/RobotStepTree.cs:14-17 | the root carries the None operation, has no children, and both of its boards are the initial board |
| StepTrees.RobotStepTree.EnumerateLeaves | LibChineseChess/Robots/RobotStepTree.cs:19-40 | the queue loop returns the breadth-first leaves, and a node is among them exactly when it is childless and reached from the root |
| StepTrees.RobotStepTree.GetAllPaths | LibChineseChess/Robots/RobotStepTree.cs:42-45 | at least one path; each starts below the root and is a chain ending in a leaf; every such chain is among them; there are as many paths as leaves |
| StepTrees.RobotStepTree.AppendSteps | LibChineseChess/Robots/RobotStepTree.cs:47-82 | the tree and the outcome after the nested loops are those of AppendSpec |
| StepTrees.RobotStepTree.GrowLevel | LibChineseChess/Robots/RobotStepTree.cs:58-80 | one level: the queue from the previous level, or all leaves if it is empty, each expanded in turn |
| StepTrees.RobotStepTree.GrowLeaf | LibChineseChess/Robots/RobotStepTree.cs:72-79 | one leaf: one child per operation, in factory order, each queued |
| StepTrees.RobotStepTree.GetFutureMinMaxScoreOffset | LibChineseChess/Robots/RobotStepTreeNode.cs:50-82 | as written: the min and max of 0 and the offsets of the nodes LookedAt visits, the direct children whenever depth >= 1 |
| StepTrees.RobotStepTree.GetFutureMinMaxScoreOffsetFixed | LibChineseChess/Robots/RobotStepTreeNode.cs:50-82 | corrected: min and max of 0 and the offsets of every node up to depth steps below |
| ErgodicRobots.CampAtAlternates | LibChineseChess/Robots/ErgodicRobot.cs:23-29 | level 1 moves the camp to move, and each next level the other camp |
| ErgodicRobots.OperateCamp | LibChineseChess/Robots/ErgodicRobot.cs:23-29 | the flipping loop computes the camp of the level |
| ErgodicRobots.PieceOps | LibChineseChess/Robots/ErgodicRobot.cs:33-36 | one operation per destination of the piece |
| ErgodicRobots.PieceOpsMember | LibChineseChess/Robots/ErgodicRobot.cs:33-36 | an operation is produced for a piece exactly when it goes from the piece's square to one of its destinations and carries that square's occupant |
| ErgodicRobots.OpsOfMember | LibChineseChess/Robots/ErgodicRobot.cs:31-37 | the operations of a list of pieces are those of its members |
| ErgodicRobots.PieceOpsOnBoard | LibChineseChess/Robots/ErgodicRobot.cs:31-37 | a piece standing on the board generates without failing, from its own square to on-board squares |
| ErgodicRobots.GenerateOpsExactly | LibChineseChess/Robots/ErgodicRobot.cs:21-38 | GenerateGameOperations at a level yields exactly the moves of that level's camp, each carrying the destination's occupant |
| ErgodicRobots.GenerateOpsGood | LibChineseChess/Robots/ErgodicRobot.cs:21-38 | every generated operation is a real move that node construction accepts |
| ErgodicRobots.PathWeightBounds | LibChineseChess/Robots/ErgodicRobot.cs:40-50 | a one-node path weighs 0; a longer one weighs, as written, the min plus the max of 0 and the first node's direct children's offsets, so its weight lies between them, each being 0 or one of those offsets, and every path of two or more nodes from the same node weighs the same |
| ErgodicRobots.PathWeightFixedAgrees | LibChineseChess/Robots/ErgodicRobot.cs:40-50 | the corrected weight equals the weight as written on paths of at most two nodes; on longer ones its minimum is at most, and its maximum at least, those as written |
| ErgodicRobots.Weights | LibChineseChess/Robots/ErgodicRobot.cs:73-74 | one weight per path, each the path's weight as written |
| ErgodicRobots.FirstMaxIndexIsFirstMax | LibChineseChess/Robots/ErgodicRobot.cs:74 | the chosen index holds the maximum weight, every earlier one is strictly lighter, and it is the only such index |
| ErgodicRobots.FirstMaxOfEqual | LibChineseChess/Robots/ErgodicRobot.cs:74 | among equal weights the first path is chosen |
| ErgodicRobots.RootOnly | LibChineseChess/Robots/ErgodicRobot.cs:54 | the new tree is one well-formed root |
| ErgodicRobots.Grown | LibChineseChess/Robots/ErgodicRobot.cs:52-58 | the grown tree is well formed, None only at the root, and the root keeps the current board |
| ErgodicRobots.RootPaths | LibChineseChess/Robots/ErgodicRobot.cs:73 | at least one path, each a chain starting below the root |
| ErgodicRobots.ChoosePlaysMove | LibChineseChess/Robots/ErgodicRobot.cs:72-76 | the choice is None exactly when the root has no children; otherwise it is a real move on the current board |
| ErgodicRobots.ChooseHeaviestPath | LibChineseChess/Robots/ErgodicRobot.cs:73-76 | the chosen path is the first of maximal weight, under the weight as written |
| ErgodicRobots.StepPlaysMove | LibChineseChess/Robots/ErgodicRobot.cs:60-77 | with a positive depth and the robot's turn, GetStep succeeds; it returns None exactly when nothing can be played, and a real move otherwise |
| ErgodicRobots.ErgodicRobot.Init | LibChineseChess/Robots/ErgodicRobot.cs:16-18 | stores game, camp and default depth |
| ErgodicRobots.ErgodicRobot.Create | LibChineseChess/Robots/ErgodicRobot.cs:9-19 | defaultDepth <= 0 throws ArgumentOutOfRange; otherwise a fresh robot with the given fields |
| ErgodicRobots.ErgodicRobot.GetStepTree | LibChineseChess/Robots/ErgodicRobot.cs:52-58 | a fresh, valid tree grown from the current board with the generator |
| ErgodicRobots.ErgodicRobot.GetPathWeight | LibChineseChess/Robots/ErgodicRobot.cs:40-50 | int.MinValue for an empty path, otherwise the weight as written: min + max of 0 and the first node's direct children's offsets |
| ErgodicRobots.ErgodicRobot.MaxByWeight | LibChineseChess/Robots/ErgodicRobot.cs:74 | the MaxBy loop returns the first index of maximal weight as written |
| ErgodicRobots.ErgodicRobot.GetStep | LibChineseChess/Robots/ErgodicRobot.cs:60-77 | depth <= 0 throws ArgumentException, another camp's turn InvalidOperationException; otherwise the first operation of the first heaviest path; the game is not modified |
| ErgodicRobots.ErgodicRobot.GetStepDefault | LibChineseChess/Robots/ErgodicRobot.cs:79-80 | GetStep with the default depth |
| UcciUtilities.KindLetter | LibChineseChess.Robots.UcciRobot/UcciUtilities.cs:11-24 | each kind's letter is lower case |
| UcciUtilities.LetterDecodes | LibChineseChess.Robots.UcciRobot/UcciUtilities.cs:7-27 | the letter of a piece, upper case for Self, decodes back to the piece |
| UcciUtilities.GetFenChar | LibChineseChess.Robots.UcciRobot/UcciUtilities.cs:7-27 | r, n, b, a, k, c, p by kind; upper case exactly for Self and lower case exactly for Opponent; the letter decodes back to the piece |
| UcciUtilities.FenCharInverse | LibChineseChess.Robots.UcciRobot/UcciUtilities.cs:7-27 | every decodable letter is the letter of the piece it decodes to, so GetFenChar is a bijection onto 14 letters |
| UcciUtilities.Pending | LibChineseChess.Robots.UcciRobot/UcciUtilities.cs:36-39 | a run of empty squares is written as one digit 1..9 with that value, and a run of 0 as nothing |
| UcciUtilities.RankFromChars | LibChineseChess.Robots.UcciRobot/UcciUtilities.cs:47-65 | a rank's text holds only digits and piece letters |
| UcciUtilities.RankFromFlush | LibChineseChess.Robots.UcciRobot/UcciUtilities.cs:47-65 | the flushed rank text is the unflushed text followed by the trailing run |
| UcciUtilities.TrailingLastSquare | LibChineseChess.Robots.UcciRobot/UcciUtilities.cs:47-65 | the trailing run is empty exactly when the rank's last square is occupied |
| UcciUtilities.TopStep | LibChineseChess.Robots.UcciRobot/UcciUtilities.cs:34-66 | ranks are written from y = 9 down, joined by '/' |
| UcciUtilities.RankFromStep | LibChineseChess.Robots.UcciRobot/UcciUtilities.cs:47-65 | an occupied square flushes the run and writes its letter; an empty square extends the run |
| UcciUtilities.ScanRank | LibChineseChess.Robots.UcciRobot/UcciUtilities.cs:47-65 | the x loop appends the rank's text, leaving the trailing run pending |
| UcciUtilities.ScanRanks | LibChineseChess.Robots.UcciRobot/UcciUtilities.cs:34-66 | the y loop builds the as-written board text; with the pending run appended it would be the full text |
| UcciUtilities.GenerateFenString | LibChineseChess.Robots.UcciRobot/UcciUtilities.cs:29-82 | as written: the ranks, with rank 0's trailing run dropped, and the camp suffix |
| UcciUtilities.GenerateFenStringFixed | LibChineseChess.Robots.UcciRobot/UcciUtilities.cs:29-82 | corrected: the same with the last run written |
| UcciUtilities.SplitNone | LibChineseChess.Robots.UcciRobot/UcciRobot.cs:101 | a text without the separator splits into itself |
| UcciUtilities.Split | LibChineseChess.Robots.UcciRobot/UcciRobot.cs:101 | string.Split always gives at least one field |
| UcciUtilities.SplitAppend | LibChineseChess.Robots.UcciRobot/UcciRobot.cs:101 | a final separated field splits off as the last field |
| UcciUtilities.ParseRankFrom | LibChineseChess.Robots.UcciRobot/UcciUtilities.cs:47-65 | a rank's text reads back as its nine squares |
| UcciUtilities.TopSplits | LibChineseChess.Robots.UcciRobot/UcciUtilities.cs:34-66 | the board text has no space, has one '/'-separated field per rank, and reads back as the squares |
| UcciUtilities.SuffixSplits | LibChineseChess.Robots.UcciRobot/UcciUtilities.cs:68-79 | the suffix adds the fields w or b, then -, -, 0, 1 |
| UcciUtilities.FenSquaresAt | LibChineseChess.Robots.UcciRobot/UcciUtilities.cs:34-66 | square k of the text is the board's square (k mod 9, 9 - k div 9) |
| UcciUtilities.FenRoundTrip | LibChineseChess.Robots.UcciRobot/UcciUtilities.cs:29-82 | the corrected FEN has exactly nine '/' and decodes back to every square of the board and the camp to move |
| UcciUtilities.FenAsWrittenDropsRun | LibChineseChess.Robots.UcciRobot/UcciUtilities.cs:34-70 | as written, ten ranks; with square (8,0) occupied it equals the corrected FEN, and with it empty it does not decode |
| UcciUtilities.EmptyBoardFen | LibChineseChess.Robots.UcciRobot/UcciUtilities.cs:34-70 | on the empty board the as-written FEN does not decode and the corrected one does |
| UcciRobots.FirstCaptureIsFirst | LibChineseChess.Robots.UcciRobot/UcciRobot.cs:67-79 | the search finds nothing exactly when no operation takes the general, and otherwise the earliest one that does |
| UcciRobots.FirstCaptureAppend | LibChineseChess.Robots.UcciRobot/UcciRobot.cs:67-79 | searching two runs in a row looks at the second only when the first has no capture |
| UcciRobots.OpsOfAppend | LibChineseChess.Robots.UcciRobot/UcciRobot.cs:67-77 | the operations of two runs of pieces are those of each in turn |
| UcciRobots.OperationToWinExactly | LibChineseChess.Robots.UcciRobot/UcciRobot.cs:63-80 | the short-circuit fires exactly when some move of the camp to move takes the other camp's general, and it plays such a move |
| UcciRobots.SearchPiece | LibChineseChess.Robots.UcciRobot/UcciRobot.cs:69-76 | the inner loop returns the first destination holding the other general, or nothing |
| UcciRobots.SearchOperationToWin | LibChineseChess.Robots.UcciRobot/UcciRobot.cs:63-80 | the nested loops return the first capture of the general, pieces in scan order and destinations in generator order |
| UcciRobots.SquareText | LibChineseChess.Robots.UcciRobot/UcciRobot.cs:110-113 | the two characters of an on-board square decode back to it |
| UcciRobots.MoveText | LibChineseChess.Robots.UcciRobot/UcciRobot.cs:107-113 | a move field is four characters without a space |
| UcciRobots.DecodeMoveText | LibChineseChess.Robots.UcciRobot/UcciRobot.cs:99-116 | `bestmove` followed by a written move decodes back to the move, with the destination's occupant as target |
| UcciRobots.DecodeB2E2 | LibChineseChess.Robots.UcciRobot/UcciRobot.cs:110-115 | `bestmove b2e2` is (1,2) -> (4,2) |
| UcciRobots.BareBestMove | LibChineseChess.Robots.UcciRobot/UcciRobot.cs:101-105 | `bestmove` with no second field throws InvalidOperationException |
| UcciRobots.ReceiveSpec | LibChineseChess.Robots.UcciRobot/UcciRobot.cs:90-123 | reading consumes at least one line unless the stream has ended |
| UcciRobots.ReceiveFirstDecided | LibChineseChess.Robots.UcciRobot/UcciRobot.cs:92-123 | other lines are skipped; the first `bestmove`/`nobestmove` line decides and the lines after it are left; with none, the end of the stream throws InvalidOperationException |
| UcciRobots.AwaitUcciOk | LibChineseChess.Robots.UcciRobot/UcciRobot.cs:51-54 | the wait consumes at least one line unless the stream has ended |
| UcciRobots.AwaitUcciOkFinds | LibChineseChess.Robots.UcciRobot/UcciRobot.cs:51-54 | the wait ends exactly when a line equal to `ucciok` comes, consuming up to the first one; without one it hangs |
| UcciRobots.ReadyHandshakesOnce | LibChineseChess.Robots.UcciRobot/UcciRobot.cs:41-60 | a successful GetReady sets the flag, and with the flag set GetReady writes only the position and reads nothing |
| UcciRobots.ReadyFirstHandshake | LibChineseChess.Robots.UcciRobot/UcciRobot.cs:41-57 | the first GetReady writes `ucci`; an ended stream throws InvalidOperationException; it succeeds exactly when `ucciok` comes |
| UcciRobots.StepShortCircuits | LibChineseChess.Robots.UcciRobot/UcciRobot.cs:128-136 | a disposed robot throws ObjectDisposedException; a capture of the general is returned with no line written or read |
| UcciRobots.StepChecksDepthLate | LibChineseChess.Robots.UcciRobot/UcciRobot.cs:84-87 | a depth below 1 throws ArgumentOutOfRange only after the position has been written |
| UcciRobots.StepAsksEngine | LibChineseChess.Robots.UcciRobot/UcciRobot.cs:126-140 | after the handshake, GetStep writes the position and `go depth`, and returns what the first deciding line says |
| UcciRobots.ReadySendsPosition | LibChineseChess.Robots.UcciRobot/UcciRobot.cs:59-60 | GetReady writes the position as GenerateFenString writes it; that text decodes to the board and the side to move when square (8,0) is occupied, and does not decode otherwise |
| UcciRobots.UcciRobot.constructor | LibChineseChess.Robots.UcciRobot/UcciRobot.cs:18-37 | not disposed, no handshake yet, nothing written |
| UcciRobots.UcciRobot.ReadLine | LibChineseChess.Robots.UcciRobot/UcciRobot.cs:44 | the next line, or null at the end of the stream |
| UcciRobots.UcciRobot.WriteLine | LibChineseChess.Robots.UcciRobot/UcciRobot.cs:43 | appends one command to the log |
| UcciRobots.UcciRobot.GetReady | LibChineseChess.Robots.UcciRobot/UcciRobot.cs:39-61 | the session after the loop is the one ReadySpec describes |
| UcciRobots.UcciRobot.GetOperationToWin | LibChineseChess.Robots.UcciRobot/UcciRobot.cs:63-80 | the first capture of the other general on the game's board |
| UcciRobots.UcciRobot.GoAndReceiveOperation | LibChineseChess.Robots.UcciRobot/UcciRobot.cs:82-124 | depth < 1 throws ArgumentOutOfRange before writing; otherwise `go depth` and the read loop, as GoSpec |
| UcciRobots.UcciRobot.GetStep | LibChineseChess.Robots.UcciRobot/UcciRobot.cs:126-140 | disposed check, win short-circuit, GetReady, then GoAndReceiveOperation, as UcciStepSpec; the game is not modified |
| UcciRobots.UcciRobot.GetStepDefault | LibChineseChess.Robots.UcciRobot/UcciRobot.cs:142-143 | GetStep with the default depth |
| UcciRobots.UcciRobot.Dispose | LibChineseChess.Robots.UcciRobot/UcciRobot.cs:145-158 | sets the disposed flag and nothing else; a second call does nothing |

## Left out

- The engine process. Starting it, its pipes, the async tasks, `Kill` and the
  finalizer (UcciRobot.cs:18-37, 145-172) are left out. Its output is the
  constructor's `engineOutput` lines and its input is the `sent` command log.
  Commands are structured values (`Ucci`, `PositionFen`, `GoDepth`), not the
  text lines they would be written as.
- UcciRobots.UcciRobot.constructor: the null checks on the game and the path,
  and the InvalidOperationException when the process cannot start, are not
  modelled.
- UcciRobots.AwaitUcciOk: reading past the end of the stream, which the
  source would do forever, is the Hangs error.
- Games.GetHistorySpec: for a positive distance within the log whose entry
  has both squares on the board, the loop never ends. That is the Hangs
  error, and it has no corrected version, since nothing calls it. A distance
  beyond the log throws ArgumentOutOfRange, and an off-board logged square
  throws IndexOutOfRange.
- Games.Game: `MaxHistory` is not modelled because nothing reads it.
  `RobotStepTree.Score` is not modelled because it is always 0.
- Boards.MovePawn: with an occupied origin and an off-board destination the
  source has already emptied the origin and adjusted the scores when its
  second SetPawn throws; the model returns only the failure. No caller sees
  the difference: a step-tree node plays the move on a copy it then
  discards, Game.MovePawn reads the destination (and throws) before moving,
  and logged moves always have an on-board destination.
- StepTrees.Offset is 0 for indices outside the arena. The source cannot
  reach that case.
- Lazy enumeration. C# iterators throw when first iterated. In the model
  every generator is a finite sequence, and its error appears when it is
  built. `EnumerateLeaves` runs during `AppendSteps`; only leaves already
  dequeued change, so eager and lazy enumeration give the same leaves.
- ErgodicRobots.PieceOps and UcciRobots.SearchPiece: a generator failure
  (a chariot or cannon off the board) yields no operations. It cannot happen
  for a piece taken from the board scan.
- Integer overflow: `int` is unbounded. Scores and offsets stay far below
  2^31 on a 90-square board. `int.MinValue` appears only as the weight of an
  empty path.
- The `_ => throw` arms for a camp or kind outside the enumerations are
  absent, since the datatypes have no other values.
- UcciRobots.StartsWith: the reply test compares prefixes character by
  character. C# `string.StartsWith(string)` (UcciRobot.cs:99, 117) is
  culture-sensitive; for the ASCII lines an engine writes both agree, but
  culture rules are not modelled.
- The `Robot` base class is not modelled: it is not part of the library's
  shown source.

## Findings

| source | as written | input that shows it | evidently intended | confidence | as-written member | corrected member |
|---|---|---|---|---|---|---|
| LibChineseChess.Robots.UcciRobot/UcciUtilities.cs:34-70 | the run of empty squares at the end of rank 0 is never written, so the last rank describes fewer than nine squares | the empty board, or any board with square (8,0) empty | write the pending run before the suffix | high (not executed) | UcciUtilities.FenAsWrittenDropsRun | UcciUtilities.FenRoundTrip |
| LibChineseChess/Robots/RobotStepTreeNode.cs:62-81 | each round re-adds the pending nodes instead of their children, so any depth >= 1 looks only at the direct children | depth 2 on the tree root -> Self's chariot (0,0) to (0,1) -> Opponent's chariot (0,9) takes it on (0,1): minimum 0 for Self instead of -10 | take the offsets of every node up to depth steps below | high (not executed) | StepTrees.LookAheadMissesGrandchildren | StepTrees.RobotStepTree.GetFutureMinMaxScoreOffsetFixed |
| LibChineseChess/Game.cs:109-112 | the truncation loop never lowers the offset; it removes entries until the log is empty, then throws | any MovePawn after an Undo(1) | drop the undone entries, reset the offset to 0, then log the move | high (not executed) | Games.MoveWithUndoneMovesFails | Games.MoveFixedDiscardsUndone |
| LibChineseChess/Game.cs:71, 93 | the index uses both the already-updated offset and the loop counter, so Undo(n) and Redo(n) take back or replay every other entry; on a two-move log the second index falls outside the log and throws | Undo(2) on a two-move log | take back or replay consecutive entries | high (not executed) | Games.UndoTwoSkipsEntry | Games.UndoFixedCompletes |

The robots and the Game class follow the code as written; the corrected
members sit beside them:
- `ErgodicRobot.GetPathWeight` calls the look-ahead as written
  (`GetFutureMinMaxScoreOffset`), so the exhaustive robot plays the move the
  code plays. `PathWeightFixed`, over `GetFutureMinMaxScoreOffsetFixed`, is
  the corrected weight, and `PathWeightFixedAgrees` relates the two.
- The engine robot's `GetReady` sends `GenerateFenString`'s text
  (`FenAsWritten`). `ReadySendsPosition` states when the engine can read it
  back, and `GenerateFenStringFixed` (`FenString`) is the corrected text.
- The Game class methods follow the code as written. Its corrected
  operations are the functions `MoveFixed`, `UndoFixed` and `RedoFixed`.
