/** The robot's look-ahead tree (RobotStepTreeNode.cs, RobotStepTree.cs).
    The nodes live in one arena, a sequence indexed from the root (0); a
    node's NextSteps list holds the indices of its children, and every child
    is created after its parent, so it has a larger index. */
module StepTrees {
  import opened Results
  import opened Pieces
  import opened Locations
  import opened Boards
  import BoardPawns

  // ---------------------------------------------------------------------------
  // Nodes

  /** One node: the board before its operation, the board after it, the
      operation and the children. */
  datatype StepNode = StepNode(initialBoard: Board, currentBoard: Board, operation: GameOperation, nextSteps: seq<nat>)

  /** `new RobotStepTreeNode(board, operation)`: for an operation other than
      None, the move is played on a copy of the board, which throws for an
      off-board origin, or an occupied origin and an off-board destination. */
  function NewNode(board: Board, op: GameOperation): (r: Result<StepNode>)
    ensures r.Success? ==> r.value.initialBoard == board && r.value.operation == op && r.value.nextSteps == []
    ensures op == NoneOperation ==> r.Success? && r.value.currentBoard == board
    ensures op != NoneOperation ==> (r.Success? <==> MovePawn(board, op.from, op.to).Success?)
  {
    if op == NoneOperation then Success(StepNode(board, board, op, []))
    else
      var moved := MovePawn(board, op.from, op.to);
      if moved.Failure? then Failure(moved.error) else Success(StepNode(board, moved.value, op, []))
  }

  /** A node for a move of a piece to an on-board square: it succeeds, and on
      its board the piece stands on the destination and its origin is empty. */
  lemma NewNodeMoves(board: Board, op: GameOperation)
    requires IsLocationAvailable(op.from) && At(board, op.from).Some? && IsLocationAvailable(op.to)
    requires op.from != op.to
    ensures NewNode(board, op).Success?
    ensures At(NewNode(board, op).value.currentBoard, op.to) == At(board, op.from)
    ensures At(NewNode(board, op).value.currentBoard, op.from).None?
  {
    assert op != NoneOperation;
    MovePawnEffect(board, op.from, op.to);
  }

  // ---------------------------------------------------------------------------
  // The arena

  /** Every child of node i comes after it and inside the arena. */
  ghost predicate ChildrenAfter(nodes: seq<StepNode>, i: int)
    requires 0 <= i < |nodes|
  {
    forall j :: 0 <= j < |nodes[i].nextSteps| ==> i < nodes[i].nextSteps[j] < |nodes|
  }

  /** A non-empty arena whose child links all point forward. */
  ghost predicate WellFormed(nodes: seq<StepNode>) {
    |nodes| >= 1 && forall i :: 0 <= i < |nodes| ==> ChildrenAfter(nodes, i)
  }

  ghost predicate InRange(nodes: seq<StepNode>, s: seq<nat>) {
    forall k :: 0 <= k < |s| ==> s[k] < |nodes|
  }

  ghost predicate AllAtLeast(s: seq<nat>, n: int) {
    forall k :: 0 <= k < |s| ==> s[k] >= n
  }

  predicate IsLeaf(nodes: seq<StepNode>, i: nat)
    requires i < |nodes|
  {
    nodes[i].nextSteps == []
  }

  // ---------------------------------------------------------------------------
  // EnumerateLeaves: breadth-first, level by level

  /** The children of a level of nodes, parent by parent. */
  function Children(nodes: seq<StepNode>, level: seq<nat>): seq<nat>
    requires InRange(nodes, level)
  {
    if level == [] then []
    else Children(nodes, level[..|level| - 1]) + nodes[level[|level| - 1]].nextSteps
  }

  /** The children of a level lie in the arena, one index past the level at least. */
  lemma {:induction false} ChildrenBounds(nodes: seq<StepNode>, level: seq<nat>, n: int)
    requires WellFormed(nodes) && InRange(nodes, level) && AllAtLeast(level, n)
    ensures InRange(nodes, Children(nodes, level)) && AllAtLeast(Children(nodes, level), n + 1)
  {
    if level != [] {
      var last := level[|level| - 1];
      ChildrenBounds(nodes, level[..|level| - 1], n);
      assert ChildrenAfter(nodes, last);
    }
  }

  /** The leaves of a level, in order. */
  function LevelLeaves(nodes: seq<StepNode>, level: seq<nat>): seq<nat>
    requires InRange(nodes, level)
  {
    if level == [] then []
    else (if IsLeaf(nodes, level[0]) then [level[0]] else []) + LevelLeaves(nodes, level[1..])
  }

  /** The leaves of a level and of all levels below it, level by level. */
  function BfsLeaves(nodes: seq<StepNode>, level: seq<nat>, n: nat): seq<nat>
    requires WellFormed(nodes) && InRange(nodes, level) && AllAtLeast(level, n)
    decreases |nodes| - n
  {
    if level == [] then []
    else
      ChildrenBounds(nodes, level, n);
      LevelLeaves(nodes, level) + BfsLeaves(nodes, Children(nodes, level), n + 1)
  }

  /** What EnumerateLeaves yields: the leaves in breadth-first order from the root. */
  function Leaves(nodes: seq<StepNode>): seq<nat>
    requires WellFormed(nodes)
  {
    BfsLeaves(nodes, [0], 0)
  }

  lemma {:induction false} LevelLeavesAreLeaves(nodes: seq<StepNode>, level: seq<nat>)
    requires InRange(nodes, level)
    ensures forall k :: 0 <= k < |LevelLeaves(nodes, level)| ==>
      LevelLeaves(nodes, level)[k] in level && IsLeaf(nodes, LevelLeaves(nodes, level)[k])
  {
    if level != [] {
      LevelLeavesAreLeaves(nodes, level[1..]);
    }
  }

  lemma {:induction false} BfsLeavesAreLeaves(nodes: seq<StepNode>, level: seq<nat>, n: nat)
    requires WellFormed(nodes) && InRange(nodes, level) && AllAtLeast(level, n)
    decreases |nodes| - n
    ensures forall k :: 0 <= k < |BfsLeaves(nodes, level, n)| ==>
      BfsLeaves(nodes, level, n)[k] < |nodes| && IsLeaf(nodes, BfsLeaves(nodes, level, n)[k])
  {
    if level != [] {
      ChildrenBounds(nodes, level, n);
      LevelLeavesAreLeaves(nodes, level);
      BfsLeavesAreLeaves(nodes, Children(nodes, level), n + 1);
    }
  }

  /** EnumerateLeaves yields only leaves of the arena. */
  lemma LeavesAreLeaves(nodes: seq<StepNode>)
    requires WellFormed(nodes)
    ensures forall k :: 0 <= k < |Leaves(nodes)| ==> Leaves(nodes)[k] < |nodes| && IsLeaf(nodes, Leaves(nodes)[k])
  {
    BfsLeavesAreLeaves(nodes, [0], 0);
  }

  /** A tree that is only its root has the root as its one leaf. */
  lemma RootOnlyLeaves(nodes: seq<StepNode>)
    requires WellFormed(nodes) && IsLeaf(nodes, 0)
    ensures Leaves(nodes) == [0]
  {
    assert Children(nodes, [0]) == [];
    assert LevelLeaves(nodes, [0]) == [0];
    assert BfsLeaves(nodes, [], 1) == [];
  }

  /** The nodes k levels below a level, parent by parent (the level itself
      for k = 0). */
  function Descendants(nodes: seq<StepNode>, level: seq<nat>, k: nat): (r: seq<nat>)
    requires WellFormed(nodes) && InRange(nodes, level)
    ensures InRange(nodes, r)
    decreases k
  {
    if k == 0 then level
    else
      ChildrenBounds(nodes, level, 0);
      Descendants(nodes, Children(nodes, level), k - 1)
  }

  /** Level k + 1 below a level holds exactly the children of level k. */
  lemma {:induction false} DescendantsNext(nodes: seq<StepNode>, level: seq<nat>, k: nat, x: nat)
    requires WellFormed(nodes) && InRange(nodes, level)
    decreases k
    ensures x in Descendants(nodes, level, k + 1) <==>
      exists p :: p in Descendants(nodes, level, k) && x in nodes[p].nextSteps
  {
    ChildrenBounds(nodes, level, 0);
    if k == 0 {
      ChildrenMembers(nodes, level, x);
    } else {
      DescendantsNext(nodes, Children(nodes, level), k - 1, x);
    }
  }

  /** A node the root reaches in some number of parent-to-child steps. */
  ghost predicate Reachable(nodes: seq<StepNode>, x: nat)
    requires WellFormed(nodes)
  {
    exists k: nat :: x in Descendants(nodes, [0], k)
  }

  lemma {:induction false} DescendantsOfNothing(nodes: seq<StepNode>, k: nat)
    requires WellFormed(nodes)
    decreases k
    ensures Descendants(nodes, [], k) == []
  {
    if k > 0 {
      assert Children(nodes, []) == [];
      DescendantsOfNothing(nodes, k - 1);
    }
  }

  /** The leaves of a level are exactly its childless members. */
  lemma {:induction false} LevelLeavesMembers(nodes: seq<StepNode>, level: seq<nat>, x: nat)
    requires InRange(nodes, level)
    ensures x in LevelLeaves(nodes, level) <==> x in level && x < |nodes| && IsLeaf(nodes, x)
  {
    if level != [] {
      LevelLeavesMembers(nodes, level[1..], x);
      assert level == [level[0]] + level[1..];
    }
  }

  lemma DescendantsShift(nodes: seq<StepNode>, level: seq<nat>, k: nat)
    requires WellFormed(nodes) && InRange(nodes, level)
    ensures Descendants(nodes, level, 0) == level
    ensures InRange(nodes, Children(nodes, level))
    ensures Descendants(nodes, level, k + 1) == Descendants(nodes, Children(nodes, level), k)
  {
    ChildrenBounds(nodes, level, 0);
  }

  lemma {:induction false} BfsLeavesExactly(nodes: seq<StepNode>, level: seq<nat>, n: nat, x: nat)
    requires WellFormed(nodes) && InRange(nodes, level) && AllAtLeast(level, n)
    decreases |nodes| - n
    ensures x in BfsLeaves(nodes, level, n) <==>
      x < |nodes| && IsLeaf(nodes, x) && exists k: nat :: x in Descendants(nodes, level, k)
  {
    hide Descendants, Children, LevelLeaves;
    if level == [] {
      forall k: nat
        ensures Descendants(nodes, [], k) == []
      {
        DescendantsOfNothing(nodes, k);
      }
    } else {
      assert n <= level[0] < |nodes|;
      ChildrenBounds(nodes, level, n);
      var children := Children(nodes, level);
      assert BfsLeaves(nodes, level, n) == LevelLeaves(nodes, level) + BfsLeaves(nodes, children, n + 1);
      LevelLeavesMembers(nodes, level, x);
      BfsLeavesExactly(nodes, children, n + 1, x);
      DescendantsShift(nodes, level, 0);
      if exists k: nat :: x in Descendants(nodes, level, k) {
        var k: nat :| x in Descendants(nodes, level, k);
        if k > 0 {
          DescendantsShift(nodes, level, k - 1);
          assert x in Descendants(nodes, children, k - 1);
        }
      }
      if exists k: nat :: x in Descendants(nodes, children, k) {
        var k: nat :| x in Descendants(nodes, children, k);
        DescendantsShift(nodes, level, k);
        assert x in Descendants(nodes, level, k + 1);
      }
    }
  }

  /** EnumerateLeaves yields exactly the childless nodes the root reaches. */
  lemma LeavesExactly(nodes: seq<StepNode>, x: nat)
    requires WellFormed(nodes)
    ensures x in Leaves(nodes) <==> x < |nodes| && IsLeaf(nodes, x) && Reachable(nodes, x)
  {
    BfsLeavesExactly(nodes, [0], 0, x);
    assert Leaves(nodes) == BfsLeaves(nodes, [0], 0);
    if x in Leaves(nodes) {
      assert Reachable(nodes, x);
    }
    if x < |nodes| && IsLeaf(nodes, x) && Reachable(nodes, x) {
      var k: nat :| x in Descendants(nodes, [0], k);
      assert exists k: nat :: x in Descendants(nodes, [0], k);
      assert x in BfsLeaves(nodes, [0], 0);
      assert x in Leaves(nodes);
    }
  }

  lemma LeavesAreReachableLeaves(nodes: seq<StepNode>)
    requires WellFormed(nodes)
    ensures forall x: nat :: x in Leaves(nodes) <==> x < |nodes| && IsLeaf(nodes, x) && Reachable(nodes, x)
  {
    forall x: nat
      ensures x in Leaves(nodes) <==> x < |nodes| && IsLeaf(nodes, x) && Reachable(nodes, x)
    {
      LeavesExactly(nodes, x);
    }
  }

  // ---------------------------------------------------------------------------
  // GetAllPaths

  /** The paths below node i, child by child: a leaf is the one path [i];
      otherwise each path of each child, with i put in front unless i carries
      the None operation (the root). */
  function Paths(nodes: seq<StepNode>, i: nat): seq<seq<nat>>
    requires WellFormed(nodes) && i < |nodes|
    decreases |nodes| - i, |nodes[i].nextSteps| + 1
  {
    if IsLeaf(nodes, i) then [[i]] else ChildPaths(nodes, i, |nodes[i].nextSteps|)
  }

  /** The paths through the first m children of node i. */
  function ChildPaths(nodes: seq<StepNode>, i: nat, m: nat): seq<seq<nat>>
    requires WellFormed(nodes) && i < |nodes| && m <= |nodes[i].nextSteps|
    decreases |nodes| - i, m
  {
    if m == 0 then []
    else
      assert ChildrenAfter(nodes, i);
      ChildPaths(nodes, i, m - 1) + Prefixed(nodes, i, Paths(nodes, nodes[i].nextSteps[m - 1]))
  }

  /** `path.Prepend(this)` on every path, skipped for a node whose operation is None. */
  function Prefixed(nodes: seq<StepNode>, i: nat, ps: seq<seq<nat>>): (r: seq<seq<nat>>)
    requires i < |nodes|
    ensures |r| == |ps|
  {
    if nodes[i].operation == NoneOperation then ps
    else seq(|ps|, k requires 0 <= k < |ps| => [i] + ps[k])
  }

  /** Only the root carries the None operation. */
  ghost predicate NoneOnlyAtRoot(nodes: seq<StepNode>) {
    forall j :: 1 <= j < |nodes| ==> nodes[j].operation != NoneOperation
  }

  /** A path down the tree: non-empty, each node a child of the one before,
      ending in a leaf. */
  ghost predicate IsChain(nodes: seq<StepNode>, p: seq<nat>) {
    |p| >= 1 && InRange(nodes, p) &&
    (forall k :: 0 <= k < |p| - 1 ==> p[k + 1] in nodes[p[k]].nextSteps) &&
    IsLeaf(nodes, p[|p| - 1])
  }

  /** Where the paths below node i start: at i, or, for a node with the None
      operation and children, at one of its children. */
  ghost predicate StartsBelow(nodes: seq<StepNode>, i: nat, p: seq<nat>)
    requires i < |nodes| && |p| >= 1
  {
    if nodes[i].operation == NoneOperation && !IsLeaf(nodes, i) then p[0] in nodes[i].nextSteps else p[0] == i
  }

  /** GetAllPaths yields at least one path, and every path runs down the tree
      from node i (or from a child of the root) to a leaf. */
  lemma {:induction false} PathsShape(nodes: seq<StepNode>, i: nat)
    requires WellFormed(nodes) && i < |nodes| && NoneOnlyAtRoot(nodes)
    decreases |nodes| - i, |nodes[i].nextSteps| + 1
    ensures |Paths(nodes, i)| >= 1
    ensures forall p :: p in Paths(nodes, i) ==> IsChain(nodes, p) && StartsBelow(nodes, i, p)
  {
    if !IsLeaf(nodes, i) {
      ChildPathsShape(nodes, i, |nodes[i].nextSteps|);
    }
  }

  lemma {:induction false} ChildPathsShape(nodes: seq<StepNode>, i: nat, m: nat)
    requires WellFormed(nodes) && i < |nodes| && m <= |nodes[i].nextSteps| && NoneOnlyAtRoot(nodes)
    decreases |nodes| - i, m
    ensures |ChildPaths(nodes, i, m)| >= m
    ensures forall p :: p in ChildPaths(nodes, i, m) ==>
      IsChain(nodes, p) && p[0] in (if nodes[i].operation == NoneOperation then nodes[i].nextSteps else [i])
  {
    if m > 0 {
      assert ChildrenAfter(nodes, i);
      var c := nodes[i].nextSteps[m - 1];
      ChildPathsShape(nodes, i, m - 1);
      PathsShape(nodes, c);
      var ps := Paths(nodes, c);
      var pre := Prefixed(nodes, i, ps);
      forall p | p in pre
        ensures IsChain(nodes, p) && p[0] in (if nodes[i].operation == NoneOperation then nodes[i].nextSteps else [i])
      {
        var k :| 0 <= k < |pre| && pre[k] == p;
        var q := ps[k];
        assert q in ps;
        assert q[0] == c;
        if nodes[i].operation != NoneOperation {
          assert p == [i] + q;
          forall t | 0 <= t < |p| - 1
            ensures p[t + 1] in nodes[p[t]].nextSteps
          {
            if t > 0 {
              assert p[t] == q[t - 1] && p[t + 1] == q[t];
            }
          }
        }
      }
    }
  }

  /** The paths through child j of node i are among those through its first
      m children, for every m past j. */
  lemma {:induction false} ChildPathsContain(nodes: seq<StepNode>, i: nat, m: nat, j: nat)
    requires WellFormed(nodes) && i < |nodes| && j < m <= |nodes[i].nextSteps|
    requires ChildrenAfter(nodes, i)
    decreases m
    ensures forall p :: p in Prefixed(nodes, i, Paths(nodes, nodes[i].nextSteps[j])) ==> p in ChildPaths(nodes, i, m)
  {
    if j < m - 1 {
      ChildPathsContain(nodes, i, m - 1, j);
    }
  }

  /** Only the last node of a chain is a leaf. */
  lemma ChainLeavesLast(nodes: seq<StepNode>, p: seq<nat>)
    requires IsChain(nodes, p)
    ensures |p| >= 2 ==> !IsLeaf(nodes, p[0])
  {
    if |p| >= 2 {
      assert p[1] in nodes[p[0]].nextSteps;
    }
  }

  /** GetAllPaths misses no path: every chain down to a leaf that starts where
      the paths below node i start is one of them. */
  lemma {:induction false} PathsComplete(nodes: seq<StepNode>, i: nat, p: seq<nat>)
    requires WellFormed(nodes) && i < |nodes| && NoneOnlyAtRoot(nodes)
    requires IsChain(nodes, p) && StartsBelow(nodes, i, p)
    decreases |nodes| - i
    ensures p in Paths(nodes, i)
  {
    assert ChildrenAfter(nodes, i);
    var ns := nodes[i].nextSteps;
    if IsLeaf(nodes, i) {
      ChainLeavesLast(nodes, p);
      assert p == [i];
    } else if nodes[i].operation == NoneOperation {
      var j :| 0 <= j < |ns| && ns[j] == p[0];
      PathsComplete(nodes, p[0], p);
      ChildPathsContain(nodes, i, |ns|, j);
    } else {
      assert |p| >= 2;
      var q := p[1..];
      assert p[1] in ns;
      var j :| 0 <= j < |ns| && ns[j] == p[1];
      assert IsChain(nodes, q) by {
        forall k | 0 <= k < |q| - 1
          ensures q[k + 1] in nodes[q[k]].nextSteps
        {
          assert q[k] == p[k + 1] && q[k + 1] == p[k + 2];
        }
      }
      PathsComplete(nodes, p[1], q);
      var ps := Paths(nodes, p[1]);
      var k :| 0 <= k < |ps| && ps[k] == q;
      assert Prefixed(nodes, i, ps)[k] == [i] + q == p;
      ChildPathsContain(nodes, i, |ns|, j);
    }
  }

  /** The number of paths below the nodes of a level, node by node. */
  function SumPaths(nodes: seq<StepNode>, level: seq<nat>): nat
    requires WellFormed(nodes) && InRange(nodes, level)
  {
    if level == [] then 0 else SumPaths(nodes, level[..|level| - 1]) + |Paths(nodes, level[|level| - 1])|
  }

  lemma {:induction false} SumPathsAppend(nodes: seq<StepNode>, a: seq<nat>, b: seq<nat>)
    requires WellFormed(nodes) && InRange(nodes, a) && InRange(nodes, b)
    ensures InRange(nodes, a + b) && SumPaths(nodes, a + b) == SumPaths(nodes, a) + SumPaths(nodes, b)
  {
    if b == [] {
      assert a + b == a;
    } else {
      var init := b[..|b| - 1];
      SumPathsAppend(nodes, a, init);
      assert (a + b)[..|a + b| - 1] == a + init;
      assert (a + b)[|a + b| - 1] == b[|b| - 1];
    }
  }

  lemma {:induction false} ChildPathsCount(nodes: seq<StepNode>, i: nat, m: nat)
    requires WellFormed(nodes) && i < |nodes| && m <= |nodes[i].nextSteps|
    requires ChildrenAfter(nodes, i)
    decreases m
    ensures |ChildPaths(nodes, i, m)| == SumPaths(nodes, nodes[i].nextSteps[..m])
  {
    if m > 0 {
      ChildPathsCount(nodes, i, m - 1);
      assert nodes[i].nextSteps[..m][..m - 1] == nodes[i].nextSteps[..m - 1];
    }
  }

  /** A node has one path if it is a leaf, and otherwise as many as its
      children together. */
  lemma PathsCount(nodes: seq<StepNode>, x: nat)
    requires WellFormed(nodes) && x < |nodes|
    ensures ChildrenAfter(nodes, x)
    ensures |Paths(nodes, x)| == (if IsLeaf(nodes, x) then 1 else 0) + SumPaths(nodes, nodes[x].nextSteps)
  {
    assert ChildrenAfter(nodes, x);
    if !IsLeaf(nodes, x) {
      ChildPathsCount(nodes, x, |nodes[x].nextSteps|);
      assert nodes[x].nextSteps[..|nodes[x].nextSteps|] == nodes[x].nextSteps;
    }
  }

  lemma InRangeAppend(nodes: seq<StepNode>, a: seq<nat>, b: seq<nat>)
    requires InRange(nodes, a) && InRange(nodes, b)
    ensures InRange(nodes, a + b)
  {
    forall k | 0 <= k < |a + b|
      ensures (a + b)[k] < |nodes|
    {
      if k >= |a| {
        assert (a + b)[k] == b[k - |a|];
      }
    }
  }

  lemma {:induction false} LevelLeavesAppend(nodes: seq<StepNode>, a: seq<nat>, b: seq<nat>)
    requires InRange(nodes, a) && InRange(nodes, b) && InRange(nodes, a + b)
    ensures LevelLeaves(nodes, a + b) == LevelLeaves(nodes, a) + LevelLeaves(nodes, b)
  {
    if a == [] {
      assert a + b == b;
    } else {
      var rest := a[1..];
      assert (a + b)[1..] == rest + b;
      assert InRange(nodes, rest + b);
      LevelLeavesAppend(nodes, rest, b);
      assert (a + b)[0] == a[0];
    }
  }

  /** The paths below a level split into its leaves and the paths below its
      children. */
  lemma {:induction false} SumPathsLevel(nodes: seq<StepNode>, level: seq<nat>)
    requires WellFormed(nodes) && InRange(nodes, level)
    ensures InRange(nodes, Children(nodes, level))
    ensures SumPaths(nodes, level) == |LevelLeaves(nodes, level)| + SumPaths(nodes, Children(nodes, level))
  {
    ChildrenBounds(nodes, level, 0);
    if level != [] {
      var init := level[..|level| - 1];
      var last := level[|level| - 1];
      SumPathsLevel(nodes, init);
      ChildrenBounds(nodes, init, 0);
      PathsCount(nodes, last);
      SumPathsAppend(nodes, Children(nodes, init), nodes[last].nextSteps);
      assert init + [last] == level;
      LevelLeavesAppend(nodes, init, [last]);
    }
  }

  lemma {:induction false} BfsLeavesCount(nodes: seq<StepNode>, level: seq<nat>, n: nat)
    requires WellFormed(nodes) && InRange(nodes, level) && AllAtLeast(level, n)
    decreases |nodes| - n
    ensures |BfsLeaves(nodes, level, n)| == SumPaths(nodes, level)
  {
    if level != [] {
      assert n <= level[0] < |nodes|;
      ChildrenBounds(nodes, level, n);
      SumPathsLevel(nodes, level);
      BfsLeavesCount(nodes, Children(nodes, level), n + 1);
    }
  }

  /** GetAllPaths from the root yields as many paths as EnumerateLeaves
      yields leaves: both count the ways down from the root to a leaf. */
  lemma PathsCountLeaves(nodes: seq<StepNode>)
    requires WellFormed(nodes)
    ensures |Paths(nodes, 0)| == |Leaves(nodes)|
  {
    BfsLeavesCount(nodes, [0], 0);
    assert [0][..0] == [];
  }

  // ---------------------------------------------------------------------------
  // AppendSteps

  /** Every child starts from its parent's board, and every node other than
      the root holds the board its operation produces from its initial board. */
  ghost predicate Linked(nodes: seq<StepNode>) {
    forall i :: 0 <= i < |nodes| ==> LinkedBelow(nodes, i)
  }

  ghost predicate LinkedBelow(nodes: seq<StepNode>, i: int)
    requires 0 <= i < |nodes|
  {
    forall c :: c in nodes[i].nextSteps ==>
      c < |nodes| && nodes[c].initialBoard == nodes[i].currentBoard &&
      NewNode(nodes[c].initialBoard, nodes[c].operation) == Success(nodes[c].(nextSteps := []))
  }

  /** The invariant of a step tree: forward child links, boards linked. */
  ghost predicate TreeInvariant(nodes: seq<StepNode>) {
    WellFormed(nodes) && Linked(nodes)
  }

  /** The tree while AppendSteps runs, with the queue `addedNodes`. */
  datatype Growth = Growth(nodes: seq<StepNode>, added: seq<nat>)

  /** The tree after a step of AppendSteps, and whether it returned or threw. */
  datatype GrowStep = GrowStep(growth: Growth, outcome: Outcome)

  ghost predicate GrowthValid(g: Growth) {
    TreeInvariant(g.nodes) && InRange(g.nodes, g.added)
  }

  /** The GameOperationFactory delegate: operations for a board at a depth. */
  type Factory = (Board, int) -> seq<GameOperation>

  /** One operation for one leaf: the node is built (which may throw), added
      to the leaf's children and to the queue. */
  function AddStep(g: Growth, leaf: nat, op: GameOperation): (r: GrowStep)
    requires GrowthValid(g) && leaf < |g.nodes|
    ensures GrowthValid(r.growth) && |g.nodes| <= |r.growth.nodes|
  {
    var node := NewNode(g.nodes[leaf].currentBoard, op);
    if node.Failure? then GrowStep(g, Fail(node.error))
    else
      var n := |g.nodes|;
      var parent := g.nodes[leaf];
      var nodes := g.nodes[leaf := parent.(nextSteps := parent.nextSteps + [n])] + [node.value];
      AddStepValid(g, leaf, node.value);
      GrowStep(Growth(nodes, g.added + [n]), Pass)
  }

  lemma AddStepValid(g: Growth, leaf: nat, node: StepNode)
    requires GrowthValid(g) && leaf < |g.nodes|
    requires Success(node) == NewNode(g.nodes[leaf].currentBoard, node.operation)
    ensures var n := |g.nodes|;
            var parent := g.nodes[leaf];
            GrowthValid(Growth(g.nodes[leaf := parent.(nextSteps := parent.nextSteps + [n])] + [node], g.added + [n]))
  {
    var n := |g.nodes|;
    var parent := g.nodes[leaf];
    var nodes := g.nodes[leaf := parent.(nextSteps := parent.nextSteps + [n])] + [node];
    forall i | 0 <= i < |nodes|
      ensures ChildrenAfter(nodes, i) && LinkedBelow(nodes, i)
    {
      if i < n {
        assert ChildrenAfter(g.nodes, i) && LinkedBelow(g.nodes, i);
      }
    }
  }

  /** The operations of one leaf, in order; the first that throws stops. */
  function AddSteps(g: Growth, leaf: nat, ops: seq<GameOperation>): (r: GrowStep)
    requires GrowthValid(g) && leaf < |g.nodes|
    ensures GrowthValid(r.growth) && |g.nodes| <= |r.growth.nodes|
  {
    if ops == [] then GrowStep(g, Pass)
    else
      var prev := AddSteps(g, leaf, ops[..|ops| - 1]);
      if prev.outcome.Fail? then prev else AddStep(prev.growth, leaf, ops[|ops| - 1])
  }

  /** The leaves of one level in order, each given the factory's operations
      for its board at this depth. */
  function ExpandLeaves(g: Growth, leaves: seq<nat>, f: Factory, depth: int): (r: GrowStep)
    requires GrowthValid(g) && InRange(g.nodes, leaves)
    ensures GrowthValid(r.growth) && |g.nodes| <= |r.growth.nodes|
  {
    if leaves == [] then GrowStep(g, Pass)
    else
      var prev := ExpandLeaves(g, leaves[..|leaves| - 1], f, depth);
      var leaf := leaves[|leaves| - 1];
      if prev.outcome.Fail? then prev
      else AddSteps(prev.growth, leaf, f(prev.growth.nodes[leaf].currentBoard, depth))
  }

  /** The leaves one iteration of AppendSteps expands: the nodes the previous
      iteration added, or, when it added none, every leaf of the tree. */
  function LevelLeavesOf(g: Growth): (r: seq<nat>)
    requires GrowthValid(g)
    ensures InRange(g.nodes, r)
  {
    if g.added != [] then g.added
    else
      LeavesAreLeaves(g.nodes);
      Leaves(g.nodes)
  }

  /** Iteration `depth` of AppendSteps: the queue is cleared and refilled
      with the nodes added to this level's leaves. */
  function Level(g: Growth, f: Factory, depth: int): (r: GrowStep)
    requires GrowthValid(g)
    ensures GrowthValid(r.growth) && |g.nodes| <= |r.growth.nodes|
  {
    ExpandLeaves(Growth(g.nodes, []), LevelLeavesOf(g), f, depth)
  }

  /** Iterations 1 .. n of AppendSteps; the first that throws stops. */
  function GrowLevels(g: Growth, f: Factory, n: nat): (r: GrowStep)
    requires GrowthValid(g)
    ensures GrowthValid(r.growth) && |g.nodes| <= |r.growth.nodes|
  {
    if n == 0 then GrowStep(g, Pass)
    else
      var prev := GrowLevels(g, f, n - 1);
      if prev.outcome.Fail? then prev else Level(prev.growth, f, n)
  }

  /** AppendSteps: a null factory throws; a depth of 0 or less adds nothing;
      otherwise iterations 1 .. depth, starting with an empty queue. */
  function AppendSpec(nodes: seq<StepNode>, depth: int, factory: Option<Factory>): (r: GrowStep)
    requires TreeInvariant(nodes)
    ensures TreeInvariant(r.growth.nodes) && |nodes| <= |r.growth.nodes|
  {
    if factory.None? then GrowStep(Growth(nodes, []), Fail(ArgumentNull))
    else if depth <= 0 then GrowStep(Growth(nodes, []), Pass)
    else GrowLevels(Growth(nodes, []), factory.value, depth)
  }

  // ---------------------------------------------------------------------------
  // What AppendSteps keeps and what it needs of the factory

  /** b grows a: the nodes of a keep their boards and operations, and their
      children lists only grow at the end. */
  ghost predicate Extends(a: seq<StepNode>, b: seq<StepNode>) {
    |a| <= |b| &&
    forall i :: 0 <= i < |a| ==>
      b[i].initialBoard == a[i].initialBoard && b[i].currentBoard == a[i].currentBoard &&
      b[i].operation == a[i].operation && a[i].nextSteps <= b[i].nextSteps
  }

  lemma ExtendsTransitive(a: seq<StepNode>, b: seq<StepNode>, c: seq<StepNode>)
    requires Extends(a, b) && Extends(b, c)
    ensures Extends(a, c)
  {
    forall i | 0 <= i < |a|
      ensures a[i].nextSteps <= c[i].nextSteps
    {
      assert a[i].nextSteps <= b[i].nextSteps && b[i].nextSteps <= c[i].nextSteps;
    }
  }

  /** An operation the node constructor accepts on board b, other than None. */
  predicate GoodOp(b: Board, op: GameOperation) {
    op != NoneOperation && NewNode(b, op).Success?
  }

  /** A factory whose every operation is good on the board it was asked about. */
  ghost predicate FactoryOk(f: Factory) {
    forall b: Board, d: int, op: GameOperation :: op in f(b, d) ==> GoodOp(b, op)
  }

  /** What one step of growth keeps: the old nodes, and, with good
      operations, no throw and no None operation below the root. */
  ghost predicate Grows(g: Growth, r: GrowStep, good: bool) {
    Extends(g.nodes, r.growth.nodes) &&
    (good ==> r.outcome == Pass && (NoneOnlyAtRoot(g.nodes) ==> NoneOnlyAtRoot(r.growth.nodes)))
  }

  lemma AddStepGrows(g: Growth, leaf: nat, op: GameOperation)
    requires GrowthValid(g) && leaf < |g.nodes|
    ensures Grows(g, AddStep(g, leaf, op), GoodOp(g.nodes[leaf].currentBoard, op))
  {
  }

  lemma {:induction false} AddStepsGrow(g: Growth, leaf: nat, ops: seq<GameOperation>)
    requires GrowthValid(g) && leaf < |g.nodes|
    ensures Grows(g, AddSteps(g, leaf, ops), forall op :: op in ops ==> GoodOp(g.nodes[leaf].currentBoard, op))
  {
    if ops != [] {
      var init := ops[..|ops| - 1];
      AddStepsGrow(g, leaf, init);
      var prev := AddSteps(g, leaf, init);
      if prev.outcome.Pass? {
        AddStepGrows(prev.growth, leaf, ops[|ops| - 1]);
        ExtendsTransitive(g.nodes, prev.growth.nodes, AddSteps(g, leaf, ops).growth.nodes);
      }
    }
  }

  lemma {:induction false} ExpandLeavesGrow(g: Growth, leaves: seq<nat>, f: Factory, depth: int)
    requires GrowthValid(g) && InRange(g.nodes, leaves)
    ensures Grows(g, ExpandLeaves(g, leaves, f, depth), FactoryOk(f))
  {
    if leaves != [] {
      var init := leaves[..|leaves| - 1];
      var leaf := leaves[|leaves| - 1];
      ExpandLeavesGrow(g, init, f, depth);
      var prev := ExpandLeaves(g, init, f, depth);
      if prev.outcome.Pass? {
        var ops := f(prev.growth.nodes[leaf].currentBoard, depth);
        AddStepsGrow(prev.growth, leaf, ops);
        ExtendsTransitive(g.nodes, prev.growth.nodes, ExpandLeaves(g, leaves, f, depth).growth.nodes);
      }
    }
  }

  lemma {:induction false} GrowLevelsGrow(g: Growth, f: Factory, n: nat)
    requires GrowthValid(g)
    ensures Grows(g, GrowLevels(g, f, n), FactoryOk(f))
  {
    if n > 0 {
      GrowLevelsGrow(g, f, n - 1);
      var prev := GrowLevels(g, f, n - 1);
      if prev.outcome.Pass? {
        ExpandLeavesGrow(Growth(prev.growth.nodes, []), LevelLeavesOf(prev.growth), f, n);
        ExtendsTransitive(g.nodes, prev.growth.nodes, GrowLevels(g, f, n).growth.nodes);
      }
    }
  }

  /** AppendSteps only adds: every existing node keeps its boards and its
      operation, and its children list only grows at the end. With a factory
      whose operations are all good it returns normally and puts no None
      operation below the root. */
  lemma AppendGrows(nodes: seq<StepNode>, depth: int, f: Factory)
    requires TreeInvariant(nodes)
    ensures Extends(nodes, AppendSpec(nodes, depth, Some(f)).growth.nodes)
    ensures FactoryOk(f) ==> AppendSpec(nodes, depth, Some(f)).outcome == Pass
    ensures FactoryOk(f) && NoneOnlyAtRoot(nodes) ==> NoneOnlyAtRoot(AppendSpec(nodes, depth, Some(f)).growth.nodes)
  {
    if depth > 0 {
      GrowLevelsGrow(Growth(nodes, []), f, depth);
    }
  }

  /** When the root has no operations at depth 1, iteration 1 adds nothing,
      so iteration 2 expands the root again, asking the factory for depth 2. */
  lemma EmptyFirstLevelReexpands(b: Board, f: Factory)
    requires f(b, 1) == []
    ensures TreeInvariant([StepNode(b, b, NoneOperation, [])])
    ensures AppendSpec([StepNode(b, b, NoneOperation, [])], 2, Some(f)) ==
            AddSteps(Growth([StepNode(b, b, NoneOperation, [])], []), 0, f(b, 2))
  {
    var root := [StepNode(b, b, NoneOperation, [])];
    assert ChildrenAfter(root, 0) && LinkedBelow(root, 0);
    var g := Growth(root, []);
    RootOnlyLeaves(root);
    assert LevelLeavesOf(g) == [0];
    assert ExpandLeaves(g, [0], f, 1) == GrowStep(g, Pass) by {
      assert [0][..0] == [];
    }
    assert GrowLevels(g, f, 1) == GrowStep(g, Pass);
    assert ExpandLeaves(g, [0], f, 2) == AddSteps(g, 0, f(b, 2)) by {
      assert [0][..0] == [];
    }
  }

  // ---------------------------------------------------------------------------
  // A throw stops AppendSteps where it happens

  lemma {:induction false} AddStepsFailSticks(g: Growth, leaf: nat, ops: seq<GameOperation>, k: nat)
    requires GrowthValid(g) && leaf < |g.nodes| && k <= |ops|
    requires AddSteps(g, leaf, ops[..k]).outcome.Fail?
    decreases |ops|
    ensures AddSteps(g, leaf, ops) == AddSteps(g, leaf, ops[..k])
  {
    if k < |ops| {
      var init := ops[..|ops| - 1];
      assert init[..k] == ops[..k];
      AddStepsFailSticks(g, leaf, init, k);
    } else {
      assert ops[..k] == ops;
    }
  }

  lemma {:induction false} ExpandLeavesFailSticks(g: Growth, leaves: seq<nat>, f: Factory, depth: int, j: nat)
    requires GrowthValid(g) && InRange(g.nodes, leaves) && j <= |leaves|
    requires ExpandLeaves(g, leaves[..j], f, depth).outcome.Fail?
    decreases |leaves|
    ensures ExpandLeaves(g, leaves, f, depth) == ExpandLeaves(g, leaves[..j], f, depth)
  {
    if j < |leaves| {
      var init := leaves[..|leaves| - 1];
      assert init[..j] == leaves[..j];
      ExpandLeavesFailSticks(g, init, f, depth, j);
    } else {
      assert leaves[..j] == leaves;
    }
  }

  lemma {:induction false} GrowLevelsFailSticks(g: Growth, f: Factory, n: nat, m: nat)
    requires GrowthValid(g) && m <= n
    requires GrowLevels(g, f, m).outcome.Fail?
    decreases n
    ensures GrowLevels(g, f, n) == GrowLevels(g, f, m)
  {
    hide Level;
    if m < n {
      GrowLevelsFailSticks(g, f, n - 1, m);
    }
  }

  // ---------------------------------------------------------------------------
  // One more step of each loop of AppendSteps

  /** AppendSteps with a null factory throws before changing anything. */
  lemma AppendSpecNone(nodes: seq<StepNode>, depth: int)
    requires TreeInvariant(nodes)
    ensures AppendSpec(nodes, depth, None) == GrowStep(Growth(nodes, []), Fail(ArgumentNull))
  {
  }

  /** AppendSteps with a factory runs iterations 1 .. depth from an empty queue. */
  lemma AppendSpecLevels(nodes: seq<StepNode>, depth: int, f: Factory)
    requires TreeInvariant(nodes)
    ensures LevelsDone(Growth(nodes, []), f, 0, nodes, [])
    ensures AppendSpec(nodes, depth, Some(f)) == GrowLevels(Growth(nodes, []), f, if depth <= 0 then 0 else depth)
  {
  }

  /** Iterations 1 .. n of AppendSteps returned normally, leaving this tree
      and this queue. */
  ghost predicate LevelsDone(g: Growth, f: Factory, n: nat, nodes: seq<StepNode>, added: seq<nat>) {
    GrowthValid(g) && Reached(GrowLevels(g, f, n), nodes, added, Pass)
  }

  /** Iteration i of AppendSteps expands the queue left by iteration i - 1,
      or every leaf when that queue is empty. */
  lemma LevelStart(g: Growth, f: Factory, i: nat, nodes: seq<StepNode>, previous: seq<nat>)
    requires i >= 1 && LevelsDone(g, f, i - 1, nodes, previous)
    ensures TreeInvariant(nodes) && InRange(nodes, previous) && InRange(nodes, Leaves(nodes))
    ensures GrowthValid(g) && GrowLevels(g, f, i - 1).outcome.Pass?
    ensures GrowLevels(g, f, i) ==
            ExpandLeaves(Growth(nodes, []), if previous != [] then previous else Leaves(nodes), f, i)
  {
    LeavesAreLeaves(nodes);
    GrowLevelsSnoc(g, f, i);
  }

  /** An iteration that throws ends AppendSteps with the tree as it was then. */
  lemma LevelsFailed(g: Growth, f: Factory, n: nat, m: nat, nodes: seq<StepNode>, added: seq<nat>, o: Outcome)
    requires m <= n && GrowthValid(g) && Reached(GrowLevels(g, f, m), nodes, added, o) && o.Fail?
    ensures TreeInvariant(nodes) && Reached(GrowLevels(g, f, n), nodes, added, o)
  {
    GrowLevelsFailSticks(g, f, n, m);
  }

  lemma LevelsFinal(g: Growth, f: Factory, n: nat, nodes: seq<StepNode>, added: seq<nat>)
    requires LevelsDone(g, f, n, nodes, added)
    ensures TreeInvariant(nodes) && Reached(GrowLevels(g, f, n), nodes, added, Pass)
  {
  }

  lemma ExpandLeavesStart(g: Growth, leaves: seq<nat>, f: Factory, depth: int)
    requires GrowthValid(g) && InRange(g.nodes, leaves)
    ensures leaves[..0] == [] && ExpandLeaves(g, leaves[..0], f, depth) == GrowStep(g, Pass)
  {
    assert leaves[..0] == [];
  }

  lemma AddStepsStart(g: Growth, leaf: nat, ops: seq<GameOperation>)
    requires GrowthValid(g) && leaf < |g.nodes|
    ensures ops[..0] == [] && AddSteps(g, leaf, ops[..0]) == GrowStep(g, Pass)
  {
    assert ops[..0] == [];
  }

  /** Iteration i of AppendSteps, after iterations 1 .. i - 1 returned normally. */
  lemma GrowLevelsSnoc(g: Growth, f: Factory, i: nat)
    requires GrowthValid(g) && i >= 1 && GrowLevels(g, f, i - 1).outcome.Pass?
    ensures GrowLevels(g, f, i) == Level(GrowLevels(g, f, i - 1).growth, f, i)
  {
  }

  /** r ended with this tree, this queue and this outcome. */
  ghost predicate Reached(r: GrowStep, nodes: seq<StepNode>, added: seq<nat>, o: Outcome) {
    r.growth.nodes == nodes && r.growth.added == added && r.outcome == o
  }

  /** The next leaf of a level, after the leaves before it returned normally. */
  lemma ExpandLeavesSnoc(g: Growth, leaves: seq<nat>, f: Factory, depth: int, j: nat)
    requires GrowthValid(g) && InRange(g.nodes, leaves) && j < |leaves|
    requires ExpandLeaves(g, leaves[..j], f, depth).outcome.Pass?
    ensures InRange(g.nodes, leaves[..j]) && InRange(g.nodes, leaves[..j + 1])
    ensures var prev := ExpandLeaves(g, leaves[..j], f, depth).growth;
            ExpandLeaves(g, leaves[..j + 1], f, depth) ==
            AddSteps(prev, leaves[j], f(prev.nodes[leaves[j]].currentBoard, depth))
  {
    assert leaves[..j + 1][..j] == leaves[..j];
  }

  /** The next operation of a leaf, after the ones before it returned normally:
      the node is built, and either the step throws with the tree unchanged,
      or the node is appended and becomes the leaf's last child. */
  lemma AddStepsSnoc(g: Growth, leaf: nat, ops: seq<GameOperation>, k: nat,
                     nodes: seq<StepNode>, added: seq<nat>, node: Result<StepNode>)
    requires GrowthValid(g) && leaf < |g.nodes| && k < |ops|
    requires Reached(AddSteps(g, leaf, ops[..k]), nodes, added, Pass)
    requires leaf < |nodes| && node == NewNode(nodes[leaf].currentBoard, ops[k])
    ensures node.Failure? ==> Reached(AddSteps(g, leaf, ops[..k + 1]), nodes, added, Fail(node.error))
    ensures node.Success? ==>
      var n := |nodes|;
      var parent := nodes[leaf];
      Reached(AddSteps(g, leaf, ops[..k + 1]),
              nodes[leaf := parent.(nextSteps := parent.nextSteps + [n])] + [node.value], added + [n], Pass)
  {
    assert ops[..k + 1][..k] == ops[..k];
  }

  // ---------------------------------------------------------------------------
  // GetFutureMinMaxScoreOffset

  /** How much the score of `camp` changes from node `from` to node `to`
      (0 for an index outside the arena, which no caller passes). */
  function Offset(nodes: seq<StepNode>, from: nat, to: nat, camp: Camp): int {
    if from < |nodes| && to < |nodes|
    then GetScore(nodes[to].currentBoard, camp) - GetScore(nodes[from].currentBoard, camp)
    else 0
  }

  /** The least of 0 and the offsets from `from` to the nodes `ids`, taken in order. */
  function MinOffset(nodes: seq<StepNode>, from: nat, ids: seq<nat>, camp: Camp): int
  {
    if ids == [] then 0
    else
      var m := MinOffset(nodes, from, ids[..|ids| - 1], camp);
      var o := Offset(nodes, from, ids[|ids| - 1], camp);
      if o < m then o else m
  }

  /** The greatest of 0 and the offsets from `from` to the nodes `ids`, taken in order. */
  function MaxOffset(nodes: seq<StepNode>, from: nat, ids: seq<nat>, camp: Camp): int
  {
    if ids == [] then 0
    else
      var m := MaxOffset(nodes, from, ids[..|ids| - 1], camp);
      var o := Offset(nodes, from, ids[|ids| - 1], camp);
      if o > m then o else m
  }

  /** MinOffset is the minimum: at most 0 and every offset, and equal to 0 or to one of them. */
  lemma {:induction false} MinOffsetIsLeast(nodes: seq<StepNode>, from: nat, ids: seq<nat>, camp: Camp)
    ensures MinOffset(nodes, from, ids, camp) <= 0
    ensures forall x :: x in ids ==> MinOffset(nodes, from, ids, camp) <= Offset(nodes, from, x, camp)
    ensures MinOffset(nodes, from, ids, camp) == 0 ||
            exists x :: x in ids && MinOffset(nodes, from, ids, camp) == Offset(nodes, from, x, camp)
  {
    if ids != [] {
      var init := ids[..|ids| - 1];
      MinOffsetIsLeast(nodes, from, init, camp);
      assert forall x :: x in ids ==> x in init || x == ids[|ids| - 1];
    }
  }

  /** MaxOffset is the maximum: at least 0 and every offset, and equal to 0 or to one of them. */
  lemma {:induction false} MaxOffsetIsGreatest(nodes: seq<StepNode>, from: nat, ids: seq<nat>, camp: Camp)
    ensures MaxOffset(nodes, from, ids, camp) >= 0
    ensures forall x :: x in ids ==> MaxOffset(nodes, from, ids, camp) >= Offset(nodes, from, x, camp)
    ensures MaxOffset(nodes, from, ids, camp) == 0 ||
            exists x :: x in ids && MaxOffset(nodes, from, ids, camp) == Offset(nodes, from, x, camp)
  {
    if ids != [] {
      var init := ids[..|ids| - 1];
      MaxOffsetIsGreatest(nodes, from, init, camp);
      assert forall x :: x in ids ==> x in init || x == ids[|ids| - 1];
    }
  }

  /** One more node visited. */
  lemma ExtremesSnoc(nodes: seq<StepNode>, from: nat, ids: seq<nat>, x: nat, camp: Camp)
    ensures var o := Offset(nodes, from, x, camp);
            var m := MinOffset(nodes, from, ids, camp);
            var n := MaxOffset(nodes, from, ids, camp);
            MinOffset(nodes, from, ids + [x], camp) == (if o < m then o else m) &&
            MaxOffset(nodes, from, ids + [x], camp) == (if o > n then o else n)
  {
    assert (ids + [x])[..|ids|] == ids;
  }

  lemma ExtremesOfNothing(nodes: seq<StepNode>, from: nat, camp: Camp)
    ensures MinOffset(nodes, from, [], camp) == 0 && MaxOffset(nodes, from, [], camp) == 0
  {
  }

  ghost predicate SameElements(a: seq<nat>, b: seq<nat>) {
    forall x :: x in a <==> x in b
  }

  /** The extremes depend only on which nodes are visited, not on order or repetition. */
  lemma ExtremesOfSameElements(nodes: seq<StepNode>, from: nat, a: seq<nat>, b: seq<nat>, camp: Camp)
    requires SameElements(a, b)
    ensures MinOffset(nodes, from, a, camp) == MinOffset(nodes, from, b, camp)
    ensures MaxOffset(nodes, from, a, camp) == MaxOffset(nodes, from, b, camp)
  {
    MinOffsetIsLeast(nodes, from, a, camp);
    MinOffsetIsLeast(nodes, from, b, camp);
    MaxOffsetIsGreatest(nodes, from, a, camp);
    MaxOffsetIsGreatest(nodes, from, b, camp);
  }

  /** n copies of s, one after another. */
  function Repeat(s: seq<nat>, n: nat): seq<nat> {
    if n == 0 then [] else Repeat(s, n - 1) + s
  }

  lemma {:induction false} RepeatElements(s: seq<nat>, n: nat)
    ensures n >= 1 ==> SameElements(Repeat(s, n), s)
    ensures n == 0 ==> Repeat(s, n) == []
  {
    if n > 1 {
      RepeatElements(s, n - 1);
    }
  }

  /** Extending a prefix of s by one element, after any sequence. */
  lemma PrefixSnoc(front: seq<nat>, s: seq<nat>, k: nat)
    requires k < |s|
    ensures front + s[..k + 1] == (front + s[..k]) + [s[k]]
    ensures s[..k + 1][..k] == s[..k]
  {
    assert s[..k + 1] == s[..k] + [s[k]];
  }

  /** The pending list of the loop as written after i rounds: each round
      replaces it with as many copies of itself as it has elements. */
  function Copies(s: seq<nat>, i: nat): seq<nat> {
    if i == 0 then s else Repeat(Copies(s, i - 1), |Copies(s, i - 1)|)
  }

  lemma {:induction false} CopiesElements(s: seq<nat>, i: nat)
    ensures SameElements(Copies(s, i), s)
  {
    if i > 0 {
      CopiesElements(s, i - 1);
      RepeatElements(Copies(s, i - 1), |Copies(s, i - 1)|);
    }
  }

  /** A round of the loop as written over the copies leaves the extremes at
      those of the children. */
  lemma CopiesRound(nodes: seq<StepNode>, from: nat, children: seq<nat>, i: nat, camp: Camp)
    ensures var base: seq<nat> := if i == 0 then [] else children;
            MinOffset(nodes, from, base + Copies(children, i), camp) == MinOffset(nodes, from, children, camp) &&
            MaxOffset(nodes, from, base + Copies(children, i), camp) == MaxOffset(nodes, from, children, camp)
  {
    var base: seq<nat> := if i == 0 then [] else children;
    CopiesElements(children, i);
    assert SameElements(base + Copies(children, i), children);
    ExtremesOfSameElements(nodes, from, base + Copies(children, i), children, camp);
  }

  /** The nodes k steps below `node` (k >= 1), level by level. */
  function Generation(nodes: seq<StepNode>, node: nat, k: nat): (r: seq<nat>)
    requires WellFormed(nodes) && node < |nodes| && k >= 1
    ensures InRange(nodes, r) && AllAtLeast(r, node + k)
  {
    if k == 1 then
      assert ChildrenAfter(nodes, node);
      nodes[node].nextSteps
    else
      var above := Generation(nodes, node, k - 1);
      ChildrenBounds(nodes, above, node + k - 1);
      Children(nodes, above)
  }

  /** The nodes 1 .. d steps below `node`, level by level. */
  function Below(nodes: seq<StepNode>, node: nat, d: int): (r: seq<nat>)
    requires WellFormed(nodes) && node < |nodes|
    ensures InRange(nodes, r)
  {
    if d <= 0 then [] else Below(nodes, node, d - 1) + Generation(nodes, node, d)
  }

  /** The nodes the look-ahead as written visits for a depth of d: the direct
      children of `node` whenever d >= 1, and nothing otherwise. */
  function LookedAt(nodes: seq<StepNode>, node: nat, d: int): (r: seq<nat>)
    requires WellFormed(nodes) && node < |nodes|
    ensures InRange(nodes, r)
  {
    assert ChildrenAfter(nodes, node);
    if d <= 0 then [] else nodes[node].nextSteps
  }

  /** Up to a depth of 1 the look-ahead as written visits exactly the nodes
      the corrected one does; beyond, it still visits only the first
      generation, which is a part of what the corrected one visits. */
  lemma LookedAtBelow(nodes: seq<StepNode>, node: nat, d: int)
    requires WellFormed(nodes) && node < |nodes|
    ensures d <= 1 ==> LookedAt(nodes, node, d) == Below(nodes, node, d)
    ensures forall x :: x in LookedAt(nodes, node, d) ==> x in Below(nodes, node, d)
  {
    if d >= 1 {
      assert Below(nodes, node, 1) == [] + Generation(nodes, node, 1);
      forall x | x in LookedAt(nodes, node, d)
        ensures x in Below(nodes, node, d)
      {
        BelowGenerations(nodes, node, d, x);
        assert 1 <= 1 <= d && x in Generation(nodes, node, 1);
      }
    }
  }

  /** A node is 1 .. d steps below `node` exactly when it is in some generation 1 .. d. */
  lemma {:induction false} BelowGenerations(nodes: seq<StepNode>, node: nat, d: int, x: nat)
    requires WellFormed(nodes) && node < |nodes|
    ensures x in Below(nodes, node, d) <==> exists k :: 1 <= k <= d && x in Generation(nodes, node, k)
  {
    hide Generation;
    if d > 0 {
      BelowGenerations(nodes, node, d - 1, x);
      assert Below(nodes, node, d) == Below(nodes, node, d - 1) + Generation(nodes, node, d);
      if x in Generation(nodes, node, d) {
        assert 1 <= d <= d && x in Generation(nodes, node, d);
      }
      if exists k :: 1 <= k <= d && x in Generation(nodes, node, k) {
        var k :| 1 <= k <= d && x in Generation(nodes, node, k);
        assert k < d ==> 1 <= k <= d - 1 && x in Generation(nodes, node, k);
      }
    }
  }

  /** The child links of generation k lead into generation k + 1, and every node
      of generation k + 1 has its parent in generation k. */
  lemma {:induction false} ChildrenMembers(nodes: seq<StepNode>, level: seq<nat>, x: nat)
    requires InRange(nodes, level)
    ensures x in Children(nodes, level) <==> exists p :: p in level && x in nodes[p].nextSteps
  {
    if level != [] {
      var init := level[..|level| - 1];
      ChildrenMembers(nodes, init, x);
      assert forall p :: p in level <==> p in init || p == level[|level| - 1];
    }
  }

  // ---------------------------------------------------------------------------
  // The counterexample for GetFutureMinMaxScoreOffset

  /** A Self chariot on (0, 0) facing an Opponent chariot on (0, 9), the
      rest of the board empty. */
  const Facing: Board :=
    SetPawn(SetPawn(EmptyBoard, Location(0, 0), Some(Pawn(Self, Chariot))).value,
            Location(0, 9), Some(Pawn(Opponent, Chariot))).value
  const Advance: GameOperation := GameOperation(Location(0, 0), Location(0, 1), None)
  const Capture: GameOperation := GameOperation(Location(0, 9), Location(0, 1), Some(Pawn(Self, Chariot)))
  const Advanced: Board := MovePawn(Facing, Advance.from, Advance.to).value
  const Captured: Board := MovePawn(Advanced, Capture.from, Capture.to).value

  /** root -> Self's chariot steps to (0, 1) -> Opponent's chariot takes it. */
  const Chain: seq<StepNode> := [
    StepNode(Facing, Facing, NoneOperation, [1]),
    StepNode(Facing, Advanced, Advance, [2]),
    StepNode(Advanced, Captured, Capture, [])]

  lemma FacingBoard()
    ensures ScoresConsistent(Facing) && Facing.selfScore == 0
    ensures At(Facing, Location(0, 0)) == Some(Pawn(Self, Chariot))
    ensures At(Facing, Location(0, 9)) == Some(Pawn(Opponent, Chariot))
  {
    var b := SetPawn(EmptyBoard, Location(0, 0), Some(Pawn(Self, Chariot))).value;
    EmptyBoardConsistent();
    SetPawnEffect(EmptyBoard, Location(0, 0), Some(Pawn(Self, Chariot)));
    SetPawnKeepsScores(EmptyBoard, Location(0, 0), Some(Pawn(Self, Chariot)));
    SetPawnEffect(b, Location(0, 9), Some(Pawn(Opponent, Chariot)));
    SetPawnKeepsScores(b, Location(0, 9), Some(Pawn(Opponent, Chariot)));
  }

  lemma AdvancedBoard()
    ensures ScoresConsistent(Advanced) && Advanced.selfScore == 0
    ensures At(Advanced, Location(0, 1)) == Some(Pawn(Self, Chariot))
    ensures At(Advanced, Location(0, 9)) == Some(Pawn(Opponent, Chariot))
  {
    FacingBoard();
    MovePawnEffect(Facing, Advance.from, Advance.to);
    MovePawnKeepsScores(Facing, Advance.from, Advance.to);
    SetPawnEffect(Facing, Advance.from, None);
    SetPawnEffect(SetPawn(Facing, Advance.from, None).value, Advance.to, Some(Pawn(Self, Chariot)));
  }

  lemma CapturedBoard()
    ensures ScoresConsistent(Captured) && Captured.selfScore == -10
  {
    AdvancedBoard();
    MovePawnKeepsScores(Advanced, Capture.from, Capture.to);
    SetPawnEffect(Advanced, Capture.from, None);
    SetPawnEffect(SetPawn(Advanced, Capture.from, None).value, Capture.to, Some(Pawn(Opponent, Chariot)));
  }

  lemma ChainLinked()
    ensures TreeInvariant(Chain) && NoneOnlyAtRoot(Chain)
  {
    assert ChildrenAfter(Chain, 0) && ChildrenAfter(Chain, 1) && ChildrenAfter(Chain, 2);
    assert LinkedBelow(Chain, 0) && LinkedBelow(Chain, 1) && LinkedBelow(Chain, 2);
  }

  /** Looking two steps ahead from the root of this step tree, whose boards
      are linked and keep their scores consistent: the loop as written sees
      only the child and reports a minimum offset of 0 for Self; the
      grandchild two steps below has lost Self its chariot, 10 points. */
  lemma LookAheadMissesGrandchildren()
    ensures TreeInvariant(Chain) && NoneOnlyAtRoot(Chain)
    ensures forall i :: 0 <= i < |Chain| ==> ScoresConsistent(Chain[i].currentBoard)
    ensures LookedAt(Chain, 0, 2) == [1] && MinOffset(Chain, 0, LookedAt(Chain, 0, 2), Self) == 0
    ensures Below(Chain, 0, 2) == [1, 2] && MinOffset(Chain, 0, Below(Chain, 0, 2), Self) == -10
  {
    hide Facing, Advanced, Captured;
    FacingBoard();
    AdvancedBoard();
    CapturedBoard();
    ChainLinked();
    assert Generation(Chain, 0, 1) == [1];
    assert Children(Chain, [1]) == [2] by {
      assert [1][..0] == [];
    }
    assert Below(Chain, 0, 1) == [1];
    assert [1, 2][..1] == [1];
  }

  // ---------------------------------------------------------------------------
  // The queue of EnumerateLeaves

  /** The level being dequeued, from position j, lies in the arena one step
      below the levels before it, and so do its children. */
  ghost predicate LevelOk(nodes: seq<StepNode>, level: seq<nat>, j: int, n: nat) {
    WellFormed(nodes) && InRange(nodes, level) && AllAtLeast(level, n) && 0 <= j <= |level| && n <= |nodes| &&
    InRange(nodes, Children(nodes, level)) && AllAtLeast(Children(nodes, level), n + 1)
  }

  /** The queue holds the rest of the level, then the children of the nodes
      already taken from it. */
  ghost predicate QueueHolds(nodes: seq<StepNode>, level: seq<nat>, j: int, queue: seq<nat>)
    requires InRange(nodes, level) && 0 <= j <= |level|
  {
    queue == level[j..] + Children(nodes, level[..j])
  }

  /** What is still to be yielded after `leaves`: the rest of this level's
      leaves and those of the levels below. */
  ghost predicate YieldedSoFar(nodes: seq<StepNode>, level: seq<nat>, j: int, n: nat, leaves: seq<nat>)
    requires LevelOk(nodes, level, j, n)
  {
    leaves + LevelLeaves(nodes, level[j..]) + BfsLeaves(nodes, Children(nodes, level), n + 1) == Leaves(nodes)
  }

  /** The state of the breadth-first queue of EnumerateLeaves. */
  ghost predicate BfsState(nodes: seq<StepNode>, level: seq<nat>, j: int, n: nat, queue: seq<nat>, leaves: seq<nat>) {
    LevelOk(nodes, level, j, n) && QueueHolds(nodes, level, j, queue) && YieldedSoFar(nodes, level, j, n, leaves)
  }

  lemma BfsStart(nodes: seq<StepNode>)
    requires WellFormed(nodes)
    ensures BfsState(nodes, [0], 0, 0, [0], [])
  {
    ChildrenBounds(nodes, [0], 0);
    assert [0][..0] == [] && [0][0..] == [0];
  }

  /** One more parent taken from a level: its children follow the others'. */
  lemma ChildrenSnoc(nodes: seq<StepNode>, level: seq<nat>, j: nat)
    requires InRange(nodes, level) && j < |level|
    ensures InRange(nodes, level[..j]) && InRange(nodes, level[..j + 1])
    ensures Children(nodes, level[..j + 1]) == Children(nodes, level[..j]) + nodes[level[j]].nextSteps
  {
    assert level[..j + 1][..j] == level[..j];
  }

  /** The leaves of a level from position j: the node there, if a leaf, then the rest. */
  lemma LevelLeavesFrom(nodes: seq<StepNode>, level: seq<nat>, j: nat)
    requires InRange(nodes, level) && j < |level|
    ensures InRange(nodes, level[j..]) && InRange(nodes, level[j + 1..])
    ensures LevelLeaves(nodes, level[j..]) ==
            (if IsLeaf(nodes, level[j]) then [level[j]] else []) + LevelLeaves(nodes, level[j + 1..])
  {
    assert level[j..][1..] == level[j + 1..];
  }

  /** When the current level is used up, the queue holds exactly the next one. */
  lemma BfsNextLevel(nodes: seq<StepNode>, level: seq<nat>, n: nat, queue: seq<nat>, leaves: seq<nat>) returns (next: seq<nat>)
    requires BfsState(nodes, level, |level|, n, queue, leaves) && queue != []
    ensures n + 1 < |nodes| && next == queue
    ensures BfsState(nodes, next, 0, n + 1, queue, leaves)
  {
    next := Children(nodes, level);
    QueueNextLevel(nodes, level, queue);
    assert n + 1 <= next[0] < |nodes|;
    ChildrenBounds(nodes, next, n + 1);
    assert LevelOk(nodes, next, 0, n + 1);
    YieldNextLevel(nodes, level, n, leaves);
  }

  lemma QueueNextLevel(nodes: seq<StepNode>, level: seq<nat>, queue: seq<nat>)
    requires InRange(nodes, level) && QueueHolds(nodes, level, |level|, queue)
    ensures queue == Children(nodes, level)
    ensures InRange(nodes, queue) ==> QueueHolds(nodes, queue, 0, queue)
  {
    assert level[..|level|] == level && level[|level|..] == [];
    assert queue[..0] == [] && queue[0..] == queue;
    assert Children(nodes, []) == [];
  }

  lemma YieldNextLevel(nodes: seq<StepNode>, level: seq<nat>, n: nat, leaves: seq<nat>)
    requires LevelOk(nodes, level, |level|, n) && YieldedSoFar(nodes, level, |level|, n, leaves)
    requires Children(nodes, level) != [] && LevelOk(nodes, Children(nodes, level), 0, n + 1)
    ensures YieldedSoFar(nodes, Children(nodes, level), 0, n + 1, leaves)
  {
    hide Leaves, BfsLeaves, LevelLeaves, Children, WellFormed;
    var next := Children(nodes, level);
    assert level[|level|..] == [] && next[0..] == next;
    BfsLeavesUnfold(nodes, next, n + 1);
    var now := LevelLeaves(nodes, next);
    var below := BfsLeaves(nodes, Children(nodes, next), n + 2);
    assert leaves + [] + (now + below) == leaves + now + below;
  }

  lemma BfsLeavesUnfold(nodes: seq<StepNode>, level: seq<nat>, n: nat)
    requires WellFormed(nodes) && InRange(nodes, level) && AllAtLeast(level, n) && level != []
    ensures LevelLeaves(nodes, []) == []
    ensures InRange(nodes, Children(nodes, level)) && AllAtLeast(Children(nodes, level), n + 1)
    ensures BfsLeaves(nodes, level, n) ==
            LevelLeaves(nodes, level) + BfsLeaves(nodes, Children(nodes, level), n + 1)
  {
    ChildrenBounds(nodes, level, n);
  }

  /** Taking the head of the queue: it is the level's next node, and what
      stays queued, with a non-leaf's children put at the back, is the queue
      one position further. */
  lemma QueueVisit(nodes: seq<StepNode>, level: seq<nat>, j: nat, queue: seq<nat>)
    requires InRange(nodes, level) && j < |level| && QueueHolds(nodes, level, j, queue)
    ensures queue != [] && queue[0] == level[j] && level[j] < |nodes|
    ensures QueueHolds(nodes, level, j + 1, if IsLeaf(nodes, level[j]) then queue[1..] else queue[1..] + nodes[level[j]].nextSteps)
  {
    var node := level[j];
    ChildrenSnoc(nodes, level, j);
    var before := Children(nodes, level[..j]);
    assert level[j..] == [node] + level[j + 1..];
    assert queue[1..] == level[j + 1..] + before;
  }

  /** A leaf taken from the queue is the next one to be yielded. */
  lemma YieldVisit(nodes: seq<StepNode>, level: seq<nat>, j: nat, n: nat, leaves: seq<nat>)
    requires LevelOk(nodes, level, j, n) && j < |level| && YieldedSoFar(nodes, level, j, n, leaves)
    ensures LevelOk(nodes, level, j + 1, n)
    ensures YieldedSoFar(nodes, level, j + 1, n, if IsLeaf(nodes, level[j]) then leaves + [level[j]] else leaves)
  {
    LevelLeavesFrom(nodes, level, j);
    var mine: seq<nat> := if IsLeaf(nodes, level[j]) then [level[j]] else [];
    var rest := LevelLeaves(nodes, level[j + 1..]);
    var below := BfsLeaves(nodes, Children(nodes, level), n + 1);
    hide Leaves, BfsLeaves, LevelLeaves, Children, WellFormed;
    ConcatAssoc(leaves, mine, rest, below);
  }

  lemma ConcatAssoc(a: seq<nat>, b: seq<nat>, c: seq<nat>, d: seq<nat>)
    ensures a + (b + c) + d == (a + b) + c + d
  {
  }

  lemma BfsVisit(nodes: seq<StepNode>, level: seq<nat>, j: nat, n: nat, queue: seq<nat>, leaves: seq<nat>)
    requires BfsState(nodes, level, j, n, queue, leaves) && j < |level|
    ensures n < |nodes| && queue != [] && queue[0] == level[j] && level[j] < |nodes|
    ensures var node := level[j];
            BfsState(nodes, level, j + 1, n,
                     if IsLeaf(nodes, node) then queue[1..] else queue[1..] + nodes[node].nextSteps,
                     if IsLeaf(nodes, node) then leaves + [node] else leaves)
  {
    assert AllAtLeast(level, n);
    QueueVisit(nodes, level, j, queue);
    YieldVisit(nodes, level, j, n, leaves);
  }

  lemma BfsPosition(nodes: seq<StepNode>, level: seq<nat>, j: int, n: nat, queue: seq<nat>, leaves: seq<nat>)
    requires BfsState(nodes, level, j, n, queue, leaves)
    ensures 0 <= j <= |level| && n <= |nodes|
  {
  }

  /** An empty queue: every leaf has been yielded. */
  lemma BfsDone(nodes: seq<StepNode>, level: seq<nat>, j: int, n: nat, leaves: seq<nat>)
    requires BfsState(nodes, level, j, n, [], leaves)
    ensures leaves == Leaves(nodes)
  {
    assert level[j..] == [] && Children(nodes, level[..j]) == [];
    assert j == |level| && level[..j] == level;
  }

  // ---------------------------------------------------------------------------
  // The tree object

  class RobotStepTree {
    /** The arena; node 0 is RootNode. */
    var nodes: seq<StepNode>

    ghost predicate Valid()
      reads this
    {
      TreeInvariant(nodes)
    }

    /** A tree that is only a root holding the initial board and the None operation. */
    constructor(initialBoard: Board)
      ensures Valid() && NoneOnlyAtRoot(nodes)
      ensures nodes == [StepNode(initialBoard, initialBoard, NoneOperation, [])]
    {
      var root := [StepNode(initialBoard, initialBoard, NoneOperation, [])];
      assert ChildrenAfter(root, 0) && LinkedBelow(root, 0);
      nodes := root;
    }

    /** The leaves, breadth first from the root, with a queue of nodes. */
    method EnumerateLeaves() returns (leaves: seq<nat>)
      requires Valid()
      ensures leaves == Leaves(nodes)
      ensures forall x: nat :: x in leaves <==> x < |nodes| && IsLeaf(nodes, x) && Reachable(nodes, x)
    {
      hide Linked;
      var ns := nodes;
      var queue: seq<nat> := [0];
      ghost var level: seq<nat> := [0];
      ghost var j := 0;
      ghost var n := 0;
      leaves := [];
      BfsStart(ns);
      hide BfsState;
      while queue != []
        invariant BfsState(ns, level, j, n, queue, leaves)
        decreases |ns| - n, |level| - j
      {
        BfsPosition(ns, level, j, n, queue, leaves);
        if j == |level| {
          level := BfsNextLevel(ns, level, n, queue, leaves);
          j, n := 0, n + 1;
        }
        BfsVisit(ns, level, j, n, queue, leaves);
        var node := queue[0];
        queue := queue[1..];
        if ns[node].nextSteps == [] {
          leaves := leaves + [node];
        } else {
          queue := queue + ns[node].nextSteps;
        }
        j := j + 1;
      }
      BfsDone(ns, level, j, n, leaves);
      LeavesAreReachableLeaves(ns);
    }

    /** GetAllPaths: every path from the root's children down to a leaf. */
    function GetAllPaths(): (r: seq<seq<nat>>)
      reads this
      requires Valid()
      ensures NoneOnlyAtRoot(nodes) ==> |r| >= 1 && forall p :: p in r ==> IsChain(nodes, p) && StartsBelow(nodes, 0, p)
      ensures NoneOnlyAtRoot(nodes) ==> forall p :: IsChain(nodes, p) && StartsBelow(nodes, 0, p) ==> p in r
      ensures |r| == |Leaves(nodes)|
    {
      PathsCountLeaves(nodes);
      forall p | NoneOnlyAtRoot(nodes) && IsChain(nodes, p) && StartsBelow(nodes, 0, p)
        ensures p in Paths(nodes, 0)
      {
        PathsComplete(nodes, 0, p);
      }
      assert NoneOnlyAtRoot(nodes) ==>
        |Paths(nodes, 0)| >= 1 && forall p :: p in Paths(nodes, 0) ==> IsChain(nodes, p) && StartsBelow(nodes, 0, p) by {
        if NoneOnlyAtRoot(nodes) {
          PathsShape(nodes, 0);
        }
      }
      Paths(nodes, 0)
    }

    /** AppendSteps: iterations 1 .. depth, each expanding the nodes the
        previous one added, or every leaf when it added none. */
    method AppendSteps(depth: int, factory: Option<Factory>) returns (o: Outcome)
      modifies this
      requires Valid()
      ensures Valid()
      ensures nodes == AppendSpec(old(nodes), depth, factory).growth.nodes
      ensures o == AppendSpec(old(nodes), depth, factory).outcome
    {
      hide AppendSpec, GrowLevels, Level, ExpandLeaves, AddSteps, AddStep, NewNode, LevelsDone, TreeInvariant;
      if factory.None? {
        AppendSpecNone(nodes, depth);
        return Fail(ArgumentNull);
      }
      var f := factory.value;
      ghost var g0 := Growth(nodes, []);
      ghost var last := if depth <= 0 then 0 else depth;
      AppendSpecLevels(nodes, depth, f);
      var added: seq<nat> := [];
      var i := 1;
      while i <= depth
        invariant 1 <= i <= last + 1
        invariant LevelsDone(g0, f, i - 1, nodes, added)
      {
        added, o := GrowLevel(added, f, i, g0);
        if o.Fail? {
          LevelsFailed(g0, f, last, i, nodes, added, o);
          return;
        }
        i := i + 1;
      }
      LevelsFinal(g0, f, last, nodes, added);
      o := Pass;
    }

    /** Iteration i of AppendSteps: the queue of nodes the previous iteration
        added (or, when it is empty, every leaf) is cleared, and each of those
        nodes, in order, gets the factory's operations for its board. */
    method GrowLevel(previous: seq<nat>, f: Factory, i: nat, ghost g0: Growth) returns (added: seq<nat>, o: Outcome)
      modifies this
      requires i >= 1 && LevelsDone(g0, f, i - 1, nodes, previous)
      ensures o.Pass? ==> LevelsDone(g0, f, i, nodes, added)
      ensures o.Fail? ==> GrowthValid(g0) && Reached(GrowLevels(g0, f, i), nodes, added, o)
    {
      hide GrowLevels, Level, ExpandLeaves, AddSteps, AddStep, NewNode, Linked, WellFormed, Leaves;
      LevelStart(g0, f, i, nodes, previous);
      var leaves: seq<nat>;
      if previous != [] {
        leaves := previous;
      } else {
        leaves := EnumerateLeaves();
      }
      ghost var gs := Growth(nodes, []);
      ExpandLeavesStart(gs, leaves, f, i);
      added := [];
      var j := 0;
      while j < |leaves|
        invariant 0 <= j <= |leaves|
        invariant GrowthValid(gs) && InRange(gs.nodes, leaves)
        invariant Reached(ExpandLeaves(gs, leaves[..j], f, i), nodes, added, Pass)
      {
        var leaf := leaves[j];
        ExpandLeavesSnoc(gs, leaves, f, i, j);
        ghost var before := ExpandLeaves(gs, leaves[..j], f, i).growth;
        var ops := f(nodes[leaf].currentBoard, i);
        added, o := GrowLeaf(added, leaf, ops, before);
        if o.Fail? {
          ExpandLeavesFailSticks(gs, leaves, f, i, j + 1);
          return;
        }
        j := j + 1;
      }
      assert leaves[..j] == leaves;
      o := Pass;
    }

    /** The operations of one leaf, in order: each builds a node (which may
        throw), appended to the leaf's children and to the queue. */
    method GrowLeaf(added0: seq<nat>, leaf: nat, ops: seq<GameOperation>, ghost g: Growth)
      returns (added: seq<nat>, o: Outcome)
      modifies this
      requires GrowthValid(g) && g.nodes == nodes && g.added == added0 && leaf < |nodes|
      ensures Reached(AddSteps(g, leaf, ops), nodes, added, o)
    {
      hide AddStep, AddSteps, NewNode, Linked, WellFormed;
      AddStepsStart(g, leaf, ops);
      added := added0;
      var k := 0;
      while k < |ops|
        invariant 0 <= k <= |ops| && leaf < |nodes|
        invariant Reached(AddSteps(g, leaf, ops[..k]), nodes, added, Pass)
      {
        var node := NewNode(nodes[leaf].currentBoard, ops[k]);
        AddStepsSnoc(g, leaf, ops, k, nodes, added, node);
        if node.Failure? {
          o := Fail(node.error);
          AddStepsFailSticks(g, leaf, ops, k + 1);
          return;
        }
        var n := |nodes|;
        nodes := nodes[leaf := nodes[leaf].(nextSteps := nodes[leaf].nextSteps + [n])] + [node.value];
        added := added + [n];
        k := k + 1;
      }
      assert ops[..k] == ops;
      o := Pass;
    }

    /** GetFutureMinMaxScoreOffset as written: the list of pending nodes is
        refilled with copies of itself instead of with its nodes' children,
        so whatever the depth, only the direct children are ever looked at. */
    method GetFutureMinMaxScoreOffset(node: nat, camp: Camp, depth: int) returns (minOffset: int, maxOffset: int)
      requires Valid() && node < |nodes|
      ensures minOffset == MinOffset(nodes, node, LookedAt(nodes, node, depth), camp)
      ensures maxOffset == MaxOffset(nodes, node, LookedAt(nodes, node, depth), camp)
    {
      hide Linked, MinOffset, MaxOffset;
      var ns := nodes;
      ExtremesOfNothing(ns, node, camp);
      assert ChildrenAfter(ns, node);
      var children := ns[node].nextSteps;
      var currentScore := GetScore(ns[node].currentBoard, camp);
      minOffset, maxOffset := 0, 0;
      var pending := children;
      var i := 0;
      while i < depth
        invariant 0 <= i <= if depth < 0 then 0 else depth
        invariant pending == Copies(children, i) && InRange(ns, pending)
        invariant minOffset == MinOffset(ns, node, if i == 0 then [] else children, camp)
        invariant maxOffset == MaxOffset(ns, node, if i == 0 then [] else children, camp)
      {
        ghost var base: seq<nat> := if i == 0 then [] else children;
        var newNodes: seq<nat> := [];
        var j := 0;
        assert base + pending[..0] == base;
        while j < |pending|
          invariant 0 <= j <= |pending|
          invariant minOffset == MinOffset(ns, node, base + pending[..j], camp)
          invariant maxOffset == MaxOffset(ns, node, base + pending[..j], camp)
          invariant newNodes == Repeat(pending, j)
        {
          var scoreOffset := GetScore(ns[pending[j]].currentBoard, camp) - currentScore;
          assert scoreOffset == Offset(ns, node, pending[j], camp);
          PrefixSnoc(base, pending, j);
          ExtremesSnoc(ns, node, base + pending[..j], pending[j], camp);
          minOffset := if scoreOffset < minOffset then scoreOffset else minOffset;
          maxOffset := if scoreOffset > maxOffset then scoreOffset else maxOffset;
          var k := 0;
          while k < |pending|
            invariant 0 <= k <= |pending|
            invariant newNodes == Repeat(pending, j) + pending[..k]
          {
            newNodes := newNodes + [pending[k]];
            PrefixSnoc(Repeat(pending, j), pending, k);
            k := k + 1;
          }
          assert pending[..k] == pending;
          j := j + 1;
        }
        assert pending[..j] == pending;
        CopiesRound(ns, node, children, i, camp);
        CopiesElements(children, i + 1);
        assert forall k :: 0 <= k < |newNodes| ==> newNodes[k] in children;
        pending := newNodes;
        i := i + 1;
      }
    }

    /** GetFutureMinMaxScoreOffset as evidently intended: the pending list is
        refilled with the children of its nodes, so the extremes are taken
        over every node 1 .. depth steps below. */
    method GetFutureMinMaxScoreOffsetFixed(node: nat, camp: Camp, depth: int) returns (minOffset: int, maxOffset: int)
      requires Valid() && node < |nodes|
      ensures minOffset == MinOffset(nodes, node, Below(nodes, node, depth), camp)
      ensures maxOffset == MaxOffset(nodes, node, Below(nodes, node, depth), camp)
    {
      hide Linked, MinOffset, MaxOffset;
      var ns := nodes;
      ExtremesOfNothing(ns, node, camp);
      var currentScore := GetScore(ns[node].currentBoard, camp);
      minOffset, maxOffset := 0, 0;
      var pending := ns[node].nextSteps;
      var i := 0;
      while i < depth
        invariant 0 <= i <= if depth < 0 then 0 else depth
        invariant pending == Generation(ns, node, i + 1)
        invariant minOffset == MinOffset(ns, node, Below(ns, node, i), camp)
        invariant maxOffset == MaxOffset(ns, node, Below(ns, node, i), camp)
      {
        ghost var base := Below(ns, node, i);
        var newNodes: seq<nat> := [];
        var j := 0;
        assert base + pending[..0] == base;
        assert pending[..0] == [];
        while j < |pending|
          invariant 0 <= j <= |pending|
          invariant InRange(ns, base + pending[..j])
          invariant minOffset == MinOffset(ns, node, base + pending[..j], camp)
          invariant maxOffset == MaxOffset(ns, node, base + pending[..j], camp)
          invariant newNodes == Children(ns, pending[..j])
        {
          var scoreOffset := GetScore(ns[pending[j]].currentBoard, camp) - currentScore;
          assert scoreOffset == Offset(ns, node, pending[j], camp);
          PrefixSnoc(base, pending, j);
          ExtremesSnoc(ns, node, base + pending[..j], pending[j], camp);
          minOffset := if scoreOffset < minOffset then scoreOffset else minOffset;
          maxOffset := if scoreOffset > maxOffset then scoreOffset else maxOffset;
          newNodes := newNodes + ns[pending[j]].nextSteps;
          j := j + 1;
        }
        assert pending[..j] == pending;
        assert Below(ns, node, i + 1) == base + pending;
        pending := newNodes;
        i := i + 1;
      }
    }
  }
}
