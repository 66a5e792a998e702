/** Mind Merge: a 6 x 10 board of coloured nodes in pairs. Two nodes of the
    same colour vanish when a path joins them that runs through empty cells
    (or round the one-cell ring outside the board) and bends only a few
    times. Each match scores 100 and buys back a second and a half. */
module MindMerge {
  import opened Common

  const Rows: int := 6
  const Cols: int := 10
  const CellCount: nat := 60
  const PairCount: nat := 30
  const ColorCount: nat := 6
  const InitialTime: real := 60.0
  const MatchScore: int := 100
  const MatchBonus: real := 1.5

  datatype Pos = Pos(row: int, col: int)

  /** A node: its id (its place in dealing order) and its palette index. */
  datatype Node = Node(id: int, color: nat)

  /** Cleared cells hold no node. */
  type Grid = seq<seq<Option<Node>>>

  predicate ValidGrid(g: Grid)
  {
    IsGrid(g, Rows, Cols)
  }

  predicate InGrid(p: Pos)
  {
    0 <= p.row < Rows && 0 <= p.col < Cols
  }

  /** The board together with the one-cell ring around it. */
  predicate InRing(p: Pos)
  {
    -1 <= p.row <= Rows && -1 <= p.col <= Cols
  }

  /** The node at `p`; none off the board. */
  function Cell(g: Grid, p: Pos): Option<Node>
    requires ValidGrid(g)
  {
    if InGrid(p) then g[p.row][p.col] else None
  }

  // ---------------------------------------------------------------------
  // Dealing the board

  /** The shuffled cell list: every board cell exactly once. */
  predicate ValidOrder(order: seq<Pos>)
  {
    |order| == CellCount &&
    (forall j :: 0 <= j < |order| ==> InGrid(order[j])) &&
    (forall j, k :: 0 <= j < k < |order| ==> order[j] != order[k]) &&
    (forall r, c :: 0 <= r < Rows && 0 <= c < Cols ==> Pos(r, c) in order)
  }

  /** One palette draw per pair. */
  predicate ValidColors(colors: seq<nat>)
  {
    |colors| == PairCount && forall k :: 0 <= k < |colors| ==> colors[k] < ColorCount
  }

  /** Deals the nodes: cells are popped two at a time from the end of the
      shuffled list, and each popped pair gets consecutive ids and the
      colour drawn for that pair. */
  method InitializeBoard(order: seq<Pos>, colors: seq<nat>) returns (g: Grid)
    requires ValidOrder(order) && ValidColors(colors)
    ensures ValidGrid(g)
    ensures forall j :: 0 <= j < CellCount ==>
              Cell(g, order[j]) == Some(Node(CellCount - 1 - j, colors[(CellCount - 1 - j) / 2]))
  {
    g := Fill(Rows, Cols, None);
    var p := 0;
    while p < PairCount
      invariant 0 <= p <= PairCount
      invariant ValidGrid(g)
      invariant forall j :: CellCount - 2 * p <= j < CellCount ==>
                  Cell(g, order[j]) == Some(Node(CellCount - 1 - j, colors[(CellCount - 1 - j) / 2]))
    {
      var a := order[CellCount - 1 - 2 * p];
      var b := order[CellCount - 2 - 2 * p];
      g := Set2(g, a.row, a.col, Some(Node(2 * p, colors[p])));
      g := Set2(g, b.row, b.col, Some(Node(2 * p + 1, colors[p])));
      p := p + 1;
    }
  }

  /** Every board cell holds a node, ids are 0..59 and distinct, and the
      two nodes of each id pair 2k, 2k+1 share a colour, so every colour
      occurs an even number of times. */
  lemma DealtBoard(order: seq<Pos>, colors: seq<nat>, g: Grid)
    requires ValidOrder(order) && ValidColors(colors) && ValidGrid(g)
    requires forall j :: 0 <= j < CellCount ==>
               Cell(g, order[j]) == Some(Node(CellCount - 1 - j, colors[(CellCount - 1 - j) / 2]))
    ensures forall r, c :: 0 <= r < Rows && 0 <= c < Cols ==>
              g[r][c].Some? && 0 <= g[r][c].value.id < CellCount
    ensures forall p, q :: InGrid(p) && InGrid(q) && p != q ==> Cell(g, p).value.id != Cell(g, q).value.id
    ensures forall k :: 0 <= k < PairCount ==>
              Cell(g, order[CellCount - 1 - 2 * k]).value.color == Cell(g, order[CellCount - 2 - 2 * k]).value.color
  {
    forall r, c | 0 <= r < Rows && 0 <= c < Cols
      ensures g[r][c].Some? && 0 <= g[r][c].value.id < CellCount
    {
      var j :| 0 <= j < |order| && order[j] == Pos(r, c);
      assert Cell(g, order[j]) == g[r][c];
    }
    forall p, q | InGrid(p) && InGrid(q) && p != q
      ensures Cell(g, p).value.id != Cell(g, q).value.id
    {
      assert p == Pos(p.row, p.col) && q == Pos(q.row, q.col);
      var j :| 0 <= j < |order| && order[j] == p;
      var k :| 0 <= k < |order| && order[k] == q;
    }
    forall k | 0 <= k < PairCount
      ensures Cell(g, order[CellCount - 1 - 2 * k]).value.color == Cell(g, order[CellCount - 2 - 2 * k]).value.color
    {
      assert (2 * k) / 2 == k && (2 * k + 1) / 2 == k;
    }
  }

  // ---------------------------------------------------------------------
  // Paths

  /** Row and column steps of the four search directions: up, right, down, left. */
  function DeltaRow(i: int): int { if i == 0 then -1 else if i == 2 then 1 else 0 }
  function DeltaCol(i: int): int { if i == 1 then 1 else if i == 3 then -1 else 0 }

  function Step(p: Pos, i: int): Pos
  {
    Pos(p.row + DeltaRow(i), p.col + DeltaCol(i))
  }

  /** Direction code of the segment from `a` to `b`: 1 up, 2 right, 3 down, 4 left. */
  function Dir(a: Pos, b: Pos): int
  {
    if b.row < a.row then 1 else if b.col > a.col then 2 else if b.row > a.row then 3 else 4
  }

  /** `b` lies strictly beyond `a` in search direction `i`. */
  predicate OnRay(a: Pos, b: Pos, i: int)
  {
    match i
    case 0 => b.col == a.col && b.row < a.row
    case 1 => b.row == a.row && b.col > a.col
    case 2 => b.col == a.col && b.row > a.row
    case _ => b.row == a.row && b.col < a.col
  }

  /** Two distinct points on one row or one column. */
  predicate Aligned(a: Pos, b: Pos)
  {
    a != b && (a.row == b.row || a.col == b.col)
  }

  /** Direction of the last segment of a path; 0 for a single point. */
  function LastDir(path: seq<Pos>): int
  {
    if |path| < 2 then 0 else Dir(path[|path| - 2], path[|path| - 1])
  }

  /** Number of direction changes along a path. */
  function Changes(path: seq<Pos>): nat
    decreases |path|
  {
    if |path| < 3 then 0
    else Changes(path[..|path| - 1]) + (if LastDir(path[..|path| - 1]) != LastDir(path) then 1 else 0)
  }

  /** `p` lies strictly between `a` and `b` on their common row or column. */
  predicate Between(a: Pos, b: Pos, p: Pos)
  {
    (p.row == a.row && a.row == b.row && Min(a.col, b.col) < p.col < Max(a.col, b.col)) ||
    (p.col == a.col && a.col == b.col && Min(a.row, b.row) < p.row < Max(a.row, b.row))
  }

  /** A cell a walk may pass over: off the board, empty, or the start
      node's own cell (it is marked reached from the outset, and the walk
      skips reached cells without looking at them). */
  predicate Passable(g: Grid, start: Pos, p: Pos)
    requires ValidGrid(g)
  {
    p == start || Cell(g, p).None?
  }

  /** Every cell strictly between `a` and `b` can be passed over. */
  ghost predicate Clear(g: Grid, start: Pos, a: Pos, b: Pos)
    requires ValidGrid(g)
  {
    forall p :: Between(a, b, p) ==> Passable(g, start, p)
  }

  /** A route from `start`: consecutive points share a row or a column and
      every cell strictly between them can be passed over, and every point
      lies on the board or its ring. */
  ghost predicate Route(g: Grid, start: Pos, path: seq<Pos>)
    requires ValidGrid(g)
  {
    |path| >= 1 && path[0] == start &&
    (forall j :: 0 <= j < |path| ==> InRing(path[j])) &&
    (forall j :: 0 < j < |path| ==> Aligned(path[j - 1], path[j])) &&
    (forall j :: 0 < j < |path| ==> Clear(g, start, path[j - 1], path[j]))
  }

  /** A path joining `start` to `end`: a route whose points strictly
      between the ends are empty cells or off the board, and which changes
      direction at most `maxChanges` times. */
  ghost predicate Connects(g: Grid, start: Pos, end: Pos, path: seq<Pos>, maxChanges: int)
    requires ValidGrid(g)
  {
    Route(g, start, path) && path[|path| - 1] == end &&
    (forall j :: 0 < j < |path| - 1 ==> Cell(g, path[j]).None?) &&
    Changes(path) <= maxChanges
  }

  /** A straight segment never jumps a node: on a board whose (0,1) is
      occupied, the one-segment path from (0,0) to (0,2) connects nothing. */
  lemma NoJumpOverNode(g: Grid)
    requires ValidGrid(g) && g[0][1].Some?
    ensures !Connects(g, Pos(0, 0), Pos(0, 2), [Pos(0, 0), Pos(0, 2)], 2)
  {
    assert Between(Pos(0, 0), Pos(0, 2), Pos(0, 1)) && !Passable(g, Pos(0, 0), Pos(0, 1));
  }

  /** A search frontier entry: position, direction of arrival (0 at the
      start), turn counter and the path that led there. */
  datatype PathNode = PathNode(pos: Pos, dir: int, turns: int, path: seq<Pos>)

  /** What holds of every entry the search queues: its path leaves the
      start, ends at its position through empty or off-board points with
      nothing in the way between them, and its
      counter is the initial counter plus the path's direction changes. */
  ghost predicate Queued(g: Grid, start: Pos, initialTurns: int, q: PathNode)
    requires ValidGrid(g)
  {
    Route(g, start, q.path) && q.path[|q.path| - 1] == q.pos &&
    (forall j :: 0 < j < |q.path| ==> Cell(g, q.path[j]).None?) &&
    q.dir == LastDir(q.path) && q.turns == initialTurns + Changes(q.path) && q.turns <= 2
  }

  lemma ExtendPath(path: seq<Pos>, p: Pos)
    requires |path| >= 1
    ensures LastDir(path + [p]) == Dir(path[|path| - 1], p)
    ensures Changes(path + [p]) ==
              Changes(path) + (if |path| >= 2 && LastDir(path) != Dir(path[|path| - 1], p) then 1 else 0)
  {
    assert (path + [p])[..|path|] == path;
  }

  ghost function RingCells(): set<Pos>
  {
    set r, c | -1 <= r <= Rows && -1 <= c <= Cols :: Pos(r, c)
  }

  /** Cells left before the walk in direction `i` leaves the ring. */
  function Room(p: Pos, i: int): int
  {
    match i
    case 0 => p.row + 1
    case 1 => Cols - p.col
    case 2 => Rows - p.row
    case _ => p.col + 1
  }

  /** A route extended by one aligned point reached over passable cells. */
  lemma RouteExtend(g: Grid, start: Pos, path: seq<Pos>, p: Pos)
    requires ValidGrid(g) && Route(g, start, path) && InRing(p)
    requires Aligned(path[|path| - 1], p) && Clear(g, start, path[|path| - 1], p)
    ensures Route(g, start, path + [p])
  {
    var path' := path + [p];
    forall j | 0 < j < |path'|
      ensures Aligned(path'[j - 1], path'[j]) && Clear(g, start, path'[j - 1], path'[j])
    {
      if j < |path| {
        assert path'[j - 1] == path[j - 1] && path'[j] == path[j];
      }
    }
  }

  /** Queued successor of `curr` at `cell`, reached going `i`. */
  lemma QueuedStep(g: Grid, start: Pos, t0: int, curr: PathNode, cell: Pos, i: int, turns: int)
    requires ValidGrid(g) && Queued(g, start, t0, curr) && 0 <= i < 4
    requires OnRay(curr.pos, cell, i) && InRing(cell) && Cell(g, cell).None? && Clear(g, start, curr.pos, cell)
    requires turns == (if curr.dir == 0 || curr.dir == i + 1 then curr.turns else curr.turns + 1) && turns <= 2
    ensures Queued(g, start, t0, PathNode(cell, i + 1, turns, curr.path + [cell]))
  {
    ExtendPath(curr.path, cell);
    RouteExtend(g, start, curr.path, cell);
  }

  /** The last point reached: `curr`'s path extended by `end`. */
  lemma ConnectsStep(g: Grid, start: Pos, end: Pos, t0: int, curr: PathNode, i: int, turns: int)
    requires ValidGrid(g) && Queued(g, start, t0, curr) && 0 <= i < 4
    requires OnRay(curr.pos, end, i) && InRing(end) && Clear(g, start, curr.pos, end)
    requires turns == (if curr.dir == 0 || curr.dir == i + 1 then curr.turns else curr.turns + 1) && turns <= 2
    ensures Connects(g, start, end, curr.path + [end], 2 - t0)
  {
    ExtendPath(curr.path, end);
    RouteExtend(g, start, curr.path, end);
  }

  /** One more step of a walk in direction `i`: the cells passed over are
      those passed before and the cell just left. */
  lemma StepClear(g: Grid, start: Pos, a: Pos, cell: Pos, i: int)
    requires ValidGrid(g) && 0 <= i < 4 && OnRay(a, cell, i)
    requires Clear(g, start, a, cell) && Passable(g, start, cell)
    ensures Clear(g, start, a, Step(cell, i))
  {
    forall p | Between(a, Step(cell, i), p)
      ensures Passable(g, start, p)
    {
      assert p == cell || Between(a, cell, p);
    }
  }

  /** The breadth-first search for a connecting path. Every point is
      expanded at most once: the first path to reach a point is the only one
      kept, and a walk skips points already reached. The turn counter starts
      at `initialTurns`, does not count the first segment, and a walk whose
      counter exceeds two adds nothing. */
  method Search(g: Grid, start: Pos, end: Pos, initialTurns: int) returns (r: Option<seq<Pos>>)
    requires ValidGrid(g) && InGrid(start) && initialTurns <= 2
    ensures r.Some? ==> Connects(g, start, end, r.value, 2 - initialTurns)
  {
    var queue := [PathNode(start, 0, initialTurns, [start])];
    var visited: set<Pos> := {start};
    assert start == Pos(start.row, start.col);
    while |queue| > 0
      invariant forall k :: 0 <= k < |queue| ==> Queued(g, start, initialTurns, queue[k])
      invariant visited <= RingCells()
      invariant forall v :: v in visited ==> Passable(g, start, v)
      decreases RingCells() - visited, |queue|
    {
      var curr := queue[0];
      queue := queue[1..];
      if curr.pos == end {
        return Some(curr.path);
      }
      ghost var visited0, queue0 := visited, queue;
      var i := 0;
      while i < 4
        invariant 0 <= i <= 4
        invariant forall k :: 0 <= k < |queue| ==> Queued(g, start, initialTurns, queue[k])
        invariant visited0 <= visited <= RingCells()
        invariant forall v :: v in visited ==> Passable(g, start, v)
        invariant visited == visited0 ==> queue == queue0
      {
        var found;
        found, queue, visited := Walk(g, start, end, initialTurns, curr, i, queue, visited);
        if found.Some? {
          return found;
        }
        i := i + 1;
      }
    }
    return None;
  }

  /** One straight walk of the search from `curr` in direction `i`: every
      reachable point not yet reached is queued and marked, the walk stops
      at the first occupied cell other than `end`, and reaching `end`
      returns the path. */
  method Walk(g: Grid, start: Pos, end: Pos, initialTurns: int, curr: PathNode, i: int,
              queue0: seq<PathNode>, visited0: set<Pos>)
    returns (found: Option<seq<Pos>>, queue: seq<PathNode>, visited: set<Pos>)
    requires ValidGrid(g) && InGrid(start) && initialTurns <= 2 && 0 <= i < 4
    requires Queued(g, start, initialTurns, curr)
    requires forall k :: 0 <= k < |queue0| ==> Queued(g, start, initialTurns, queue0[k])
    requires visited0 <= RingCells()
    requires forall v :: v in visited0 ==> Passable(g, start, v)
    ensures found.Some? ==> Connects(g, start, end, found.value, 2 - initialTurns)
    ensures forall k :: 0 <= k < |queue| ==> Queued(g, start, initialTurns, queue[k])
    ensures visited0 <= visited <= RingCells()
    ensures forall v :: v in visited ==> Passable(g, start, v)
    ensures visited == visited0 ==> queue == queue0
  {
    queue, visited := queue0, visited0;
    var cell := Step(curr.pos, i);
    assert forall p :: !Between(curr.pos, cell, p);
    while InRing(cell)
      invariant OnRay(curr.pos, cell, i)
      invariant TurnsAfter(curr, i) <= 2 ==> Clear(g, start, curr.pos, cell)
      invariant forall k :: 0 <= k < |queue| ==> Queued(g, start, initialTurns, queue[k])
      invariant visited0 <= visited <= RingCells()
      invariant forall v :: v in visited ==> Passable(g, start, v)
      invariant visited == visited0 ==> queue == queue0
      decreases Room(cell, i)
    {
      var stop: bool;
      stop, found, queue, visited := Visit(g, start, end, initialTurns, curr, i, cell, queue, visited);
      if stop {
        return found, queue, visited;
      }
      cell := Step(cell, i);
    }
    return None, queue, visited;
  }

  /** The counter a walk from `curr` in direction `i` carries: one more
      than `curr`'s when the walk turns. */
  function TurnsAfter(curr: PathNode, i: int): int
  {
    if curr.dir == 0 || curr.dir == i + 1 then curr.turns else curr.turns + 1
  }

  /** The walk reaches `cell`: skipped when the counter is over budget or the
      cell already reached; the walk stops at an occupied cell other than
      `end` and at `end` itself, with the path; any other cell is queued and
      marked. */
  method Visit(g: Grid, start: Pos, end: Pos, initialTurns: int, curr: PathNode, i: int, cell: Pos,
               queue0: seq<PathNode>, visited0: set<Pos>)
    returns (stop: bool, found: Option<seq<Pos>>, queue: seq<PathNode>, visited: set<Pos>)
    requires ValidGrid(g) && initialTurns <= 2 && 0 <= i < 4
    requires Queued(g, start, initialTurns, curr)
    requires OnRay(curr.pos, cell, i) && InRing(cell)
    requires TurnsAfter(curr, i) <= 2 ==> Clear(g, start, curr.pos, cell)
    requires forall k :: 0 <= k < |queue0| ==> Queued(g, start, initialTurns, queue0[k])
    requires visited0 <= RingCells()
    requires forall v :: v in visited0 ==> Passable(g, start, v)
    ensures found.Some? ==> stop && Connects(g, start, end, found.value, 2 - initialTurns)
    ensures !stop && TurnsAfter(curr, i) <= 2 ==> Clear(g, start, curr.pos, Step(cell, i))
    ensures forall k :: 0 <= k < |queue| ==> Queued(g, start, initialTurns, queue[k])
    ensures visited0 <= visited <= RingCells()
    ensures forall v :: v in visited ==> Passable(g, start, v)
    ensures visited == visited0 ==> queue == queue0
  {
    queue, visited, found := queue0, visited0, None;
    var turns := if curr.dir == 0 || curr.dir == i + 1 then curr.turns else curr.turns + 1;
    if turns > 2 || cell in visited {
      if turns <= 2 {
        StepClear(g, start, curr.pos, cell, i);
      }
      return false, found, queue, visited;
    }
    if InGrid(cell) && g[cell.row][cell.col].Some? && cell != end {
      return true, found, queue, visited;
    }
    var newPath := curr.path + [cell];
    if cell == end {
      ConnectsStep(g, start, end, initialTurns, curr, i, turns);
      return true, Some(newPath), queue, visited;
    }
    QueuedStep(g, start, initialTurns, curr, cell, i, turns);
    StepClear(g, start, curr.pos, cell, i);
    assert cell == Pos(cell.row, cell.col);
    visited := visited + {cell};
    queue := queue + [PathNode(cell, i + 1, turns, newPath)];
    return false, found, queue, visited;
  }

  /** The search as the game runs it: the counter starts at -1, so a path
      may change direction three times. */
  method FindPathAsWritten(g: Grid, start: Pos, end: Pos) returns (r: Option<seq<Pos>>)
    requires ValidGrid(g) && InGrid(start)
    ensures r.Some? ==> Connects(g, start, end, r.value, 3)
  {
    r := Search(g, start, end, -1);
  }

  /** The search with the counter starting at 0: at most two direction changes. */
  method FindPath(g: Grid, start: Pos, end: Pos) returns (r: Option<seq<Pos>>)
    requires ValidGrid(g) && InGrid(start)
    ensures r.Some? ==> Connects(g, start, end, r.value, 2)
  {
    r := Search(g, start, end, 0);
  }

  /** The counter the search keeps along a path, as it updates it segment by
      segment: unchanged on the first segment and on a straight continuation,
      one more on every bend. */
  function Counter(initialTurns: int, path: seq<Pos>): int
    requires |path| >= 1
    decreases |path|
  {
    if |path| == 1 then initialTurns
    else
      var prefix := path[..|path| - 1];
      var d := LastDir(prefix);
      if d == 0 || d == Dir(prefix[|prefix| - 1], path[|path| - 1]) then Counter(initialTurns, prefix)
      else Counter(initialTurns, prefix) + 1
  }

  /** The counter is the initial value plus the direction changes. */
  lemma {:induction false} CounterCountsChanges(t0: int, path: seq<Pos>)
    requires |path| >= 1
    ensures Counter(t0, path) == t0 + Changes(path)
    decreases |path|
  {
    if |path| > 1 {
      var prefix := path[..|path| - 1];
      CounterCountsChanges(t0, prefix);
      assert prefix + [path[|path| - 1]] == path;
      ExtendPath(prefix, path[|path| - 1]);
    }
  }

  /** Up, right, down and left round the corner of the board: three bends. */
  function ThreeBendPath(): seq<Pos>
  {
    [Pos(0, 0), Pos(-1, 0), Pos(-1, 2), Pos(1, 2), Pos(1, 1)]
  }

  /** The search's guard (`counter > 2` rejects) lets a path with three
      direction changes through when the counter starts at -1, and stops it
      when the counter starts at 0. */
  lemma ThreeBendsPassAsWritten()
    ensures Changes(ThreeBendPath()) == 3
    ensures forall n :: 1 <= n <= |ThreeBendPath()| ==> Counter(-1, ThreeBendPath()[..n]) <= 2
    ensures Counter(0, ThreeBendPath()) > 2
  {
    var p := ThreeBendPath();
    assert p[..1] == [Pos(0, 0)];
    assert p[..2] == [Pos(0, 0), Pos(-1, 0)];
    assert p[..3] == [Pos(0, 0), Pos(-1, 0), Pos(-1, 2)];
    assert p[..4] == [Pos(0, 0), Pos(-1, 0), Pos(-1, 2), Pos(1, 2)];
    assert p[..5] == p;
    assert p[..4][..3] == p[..3] && p[..3][..2] == p[..2] && p[..2][..1] == p[..1];
    assert Changes(p[..3]) == 1;
    assert Changes(p[..4]) == 2;
    assert Changes(p) == 3;
    forall n | 1 <= n <= |p|
      ensures Counter(-1, p[..n]) <= 2
    {
      CounterCountsChanges(-1, p[..n]);
    }
    CounterCountsChanges(0, p);
  }

  // ---------------------------------------------------------------------
  // Play

  datatype Phase = Start | Playing | GameOver

  datatype Selection = Selection(pos: Pos, node: Node)

  datatype MindState = MindState(
    phase: Phase, score: int, timeLeft: real, accumulator: real,
    grid: Grid, selected: Option<Selection>, winningPath: seq<Pos>)

  /** The board is 6 x 10 and a selection names the node at its cell. */
  ghost predicate Valid(s: MindState)
  {
    ValidGrid(s.grid) &&
    (s.selected.Some? ==> InGrid(s.selected.value.pos) && Cell(s.grid, s.selected.value.pos) == Some(s.selected.value.node))
  }

  function RMin(a: real, b: real): real { if a <= b then a else b }
  function RMax(a: real, b: real): real { if a >= b then a else b }

  /** A new deal on the title screen: score 0 and a full minute. The
      frame-time accumulator is not reset. */
  method Reset(s: MindState, order: seq<Pos>, colors: seq<nat>) returns (s': MindState)
    requires ValidOrder(order) && ValidColors(colors)
    ensures Valid(s') && s'.phase == Start && s'.score == 0 && s'.timeLeft == InitialTime
    ensures s'.selected == None && s'.winningPath == [] && s'.accumulator == s.accumulator
    ensures forall j :: 0 <= j < CellCount ==>
              Cell(s'.grid, order[j]) == Some(Node(CellCount - 1 - j, colors[(CellCount - 1 - j) / 2]))
  {
    var g := InitializeBoard(order, colors);
    s' := MindState(Start, 0, InitialTime, s.accumulator, g, None, []);
  }

  /** A click on cell (row, col). On the title screen it starts play; after
      the game it deals a new board. During play a click on a node selects
      it, or, with a node already selected, tries to match the two: the
      match needs two different nodes of one colour and a connecting path,
      and clears both cells, adds 100 to the score and a second and a half
      to the clock (capped at 60). Either way the selection is dropped.
      Clicks off the board or on an empty cell do nothing. With `asWritten`
      the search starts its counter at -1 as the game does, so a match may
      bend three times; otherwise it starts at 0 and the budget is two
      bends. `found` is the path the search returned, if it ran. */
  method HandleInput(s: MindState, row: int, col: int, order: seq<Pos>, colors: seq<nat>, asWritten: bool)
    returns (s': MindState, found: Option<seq<Pos>>)
    requires Valid(s) && ValidOrder(order) && ValidColors(colors)
    ensures Valid(s')
    ensures s.phase == Start ==> s' == s.(phase := Playing)
    ensures s.phase == GameOver ==>
              s'.phase == Start && s'.score == 0 && s'.timeLeft == InitialTime &&
              s'.selected == None && s'.winningPath == [] && s'.accumulator == s.accumulator && found.None? &&
              forall j :: 0 <= j < CellCount ==>
                Cell(s'.grid, order[j]) == Some(Node(CellCount - 1 - j, colors[(CellCount - 1 - j) / 2]))
    ensures s.phase == Playing && (!InGrid(Pos(row, col)) || Cell(s.grid, Pos(row, col)).None?) ==> s' == s
    ensures s.phase == Playing && InGrid(Pos(row, col)) && Cell(s.grid, Pos(row, col)).Some? && s.selected.None? ==>
              s' == s.(selected := Some(Selection(Pos(row, col), Cell(s.grid, Pos(row, col)).value)))
    ensures found.Some? ==>
              s.phase == Playing && InGrid(Pos(row, col)) && s.selected.Some? && Cell(s.grid, Pos(row, col)).Some? &&
              s.selected.value.node.id != Cell(s.grid, Pos(row, col)).value.id &&
              s.selected.value.node.color == Cell(s.grid, Pos(row, col)).value.color &&
              Connects(s.grid, s.selected.value.pos, Pos(row, col), found.value, if asWritten then 3 else 2)
    ensures s.phase == Playing && InGrid(Pos(row, col)) && Cell(s.grid, Pos(row, col)).Some? && s.selected.Some? ==>
              var a, b := s.selected.value, Pos(row, col);
              s'.selected == None && s'.phase == Playing &&
              (found.None? ==> s' == s.(selected := None)) &&
              (found.Some? ==>
                 s'.winningPath == found.value &&
                 Cell(s'.grid, a.pos).None? && Cell(s'.grid, b).None? &&
                 (forall p :: p != a.pos && p != b ==> Cell(s'.grid, p) == Cell(s.grid, p)) &&
                 s'.score == s.score + MatchScore && s'.timeLeft == RMin(InitialTime, s.timeLeft + MatchBonus))
  {
    found := None;
    if s.phase == Start {
      return s.(phase := Playing), found;
    }
    if s.phase == GameOver {
      s' := Reset(s, order, colors);
      return;
    }
    var b := Pos(row, col);
    if !InGrid(b) || Cell(s.grid, b).None? {
      return s, found;
    }
    var clicked := Cell(s.grid, b).value;
    if s.selected.None? {
      return s.(selected := Some(Selection(b, clicked))), found;
    }
    var a := s.selected.value;
    s' := s.(selected := None);
    if a.node.id != clicked.id && a.node.color == clicked.color {
      if asWritten {
        found := FindPathAsWritten(s.grid, a.pos, b);
      } else {
        found := FindPath(s.grid, a.pos, b);
      }
      if found.Some? {
        var g := Set2(Set2(s.grid, a.pos.row, a.pos.col, None), b.row, b.col, None);
        s' := s'.(grid := g, score := s.score + MatchScore,
                  timeLeft := RMin(InitialTime, s.timeLeft + MatchBonus), winningPath := found.value);
      }
    }
  }

  /** The main effect as the game runs it. It is re-run after every render
      whose phase, score or clock differs from the previous one, and besides
      starting the frame loop it calls the reset: any such change deals a
      new board and returns to the title screen. */
  method EffectRerunAsWritten(prev: MindState, next: MindState, order: seq<Pos>, colors: seq<nat>)
    returns (s': MindState)
    requires ValidOrder(order) && ValidColors(colors)
    ensures next.phase != prev.phase || next.score != prev.score || next.timeLeft != prev.timeLeft ==>
              s'.phase == Start && s'.score == 0 && s'.timeLeft == InitialTime &&
              s'.selected == None && s'.winningPath == []
    ensures next.phase == prev.phase && next.score == prev.score && next.timeLeft == prev.timeLeft ==>
              s' == next
  {
    if next.phase != prev.phase || next.score != prev.score || next.timeLeft != prev.timeLeft {
      s' := Reset(next, order, colors);
    } else {
      s' := next;
    }
  }

  /** As the game runs, play never starts: a click on the title screen sets
      the phase to playing, the change re-runs the main effect, and its reset
      brings the title screen back; a click after the game lands there too. */
  method ClickAsWritten(s: MindState, row: int, col: int, order: seq<Pos>, colors: seq<nat>)
    returns (s': MindState)
    requires Valid(s) && ValidOrder(order) && ValidColors(colors)
    ensures s.phase != Playing ==> s'.phase == Start && s'.score == 0 && s'.timeLeft == InitialTime
  {
    var next, found := HandleInput(s, row, col, order, colors, true);
    s' := EffectRerunAsWritten(s, next, order, colors);
  }

  /** One animation frame of `dt` seconds during play: the accumulator
      gains `dt`, and once it holds a whole second the clock loses one
      second (never going below zero). The game ends on a frame that starts
      with no time left. */
  function Frame(s: MindState, dt: real): (s': MindState)
    ensures s.phase != Playing ==> s' == s
    ensures s.phase == Playing ==>
              (s.accumulator + dt >= 1.0 ==>
                 s'.timeLeft == RMax(0.0, s.timeLeft - 1.0) && s'.accumulator == s.accumulator + dt - 1.0) &&
              (s.accumulator + dt < 1.0 ==> s'.timeLeft == s.timeLeft && s'.accumulator == s.accumulator + dt) &&
              (s'.phase == GameOver <==> s.timeLeft <= 0.0) &&
              s'.grid == s.grid && s'.score == s.score && s'.selected == s.selected
  {
    if s.phase != Playing then s
    else
      var acc := s.accumulator + dt;
      var ticked := if acc >= 1.0 then s.(timeLeft := RMax(0.0, s.timeLeft - 1.0), accumulator := acc - 1.0)
                    else s.(accumulator := acc);
      if s.timeLeft <= 0.0 then ticked.(phase := GameOver) else ticked
  }

  function Frames(s: MindState, n: nat): MindState
    decreases n
  {
    if n == 0 then s else Frames(Frame(s, 1.0), n - 1)
  }

  /** With one-second frames and `t` seconds on the clock, play goes on
      for at least `t` frames, each taking exactly one second off. */
  lemma {:induction false} ClockCountsDown(s: MindState, n: nat)
    requires s.phase == Playing && s.timeLeft >= 0.0 && 0.0 <= s.accumulator < 1.0
    requires n as real <= s.timeLeft
    ensures Frames(s, n).phase == Playing
    ensures Frames(s, n).timeLeft == s.timeLeft - n as real
    ensures Frames(s, n).accumulator == s.accumulator
    decreases n
  {
    if n > 0 {
      ClockCountsDown(Frame(s, 1.0), n - 1);
    }
  }
}
