/** Maze Escape: two players cooperate to bring both of their tokens to the
    exit of a randomly carved 15 x 15 maze. Lasers and raised spikes cost a
    life and send a player back to spawn; player 1 can switch lasers off
    and player 2 can break cracked walls. Cells are addressed (x, y), and a
    maze is stored as rows, so the tile at (x, y) is `m[y][x]`. */
module MazeEscape {
  import opened Common

  const Size: int := 15
  const MoveCooldown: int := 120
  const TrapAttempts: nat := 30
  const SpikePeriod: int := 120
  const SpikeTurn: int := 60
  const LaserCooldown: int := 3000
  const BreakCooldown: int := 1000
  const StartLives: int := 3

  datatype Tile = Wall | Floor | StartTile | Exit | CrackedWall | LaserOn | LaserOff | SpikeOff | SpikeOn

  type Maze = seq<seq<Tile>>

  datatype Pos = Pos(x: int, y: int)

  predicate ValidMaze(m: Maze)
  {
    IsGrid(m, Size, Size)
  }

  predicate InBounds(x: int, y: int)
  {
    0 <= x < Size && 0 <= y < Size
  }

  predicate OnBorder(x: int, y: int)
  {
    x == 0 || y == 0 || x == Size - 1 || y == Size - 1
  }

  /** The odd coordinates inside the border. */
  predicate Odd(x: int)
  {
    x == 1 || x == 3 || x == 5 || x == 7 || x == 9 || x == 11 || x == 13
  }

  /** The odd-odd interior cells the carver visits. */
  predicate Chamber(x: int, y: int)
  {
    Odd(x) && Odd(y)
  }

  /** The even-even cells, which stay wall. */
  predicate Pillar(x: int, y: int)
  {
    InBounds(x, y) && !Odd(x) && !Odd(y)
  }

  // ---------------------------------------------------------------------
  // Carving

  /** Chamber offsets in the order the carver tries them: up, down, left, right. */
  function CarveDx(k: int): int { if k == 2 then -2 else if k == 3 then 2 else 0 }
  function CarveDy(k: int): int { if k == 0 then -2 else if k == 1 then 2 else 0 }
  function WallDx(k: int): int { if k == 2 then -1 else if k == 3 then 1 else 0 }
  function WallDy(k: int): int { if k == 0 then -1 else if k == 1 then 1 else 0 }

  /** A carving step: the chamber to open and the wall between it and the
      current chamber. */
  datatype Opening = Opening(chamber: Pos, wall: Pos)

  /** Only walls and floor, with the border and every even-even cell still wall. */
  ghost predicate Carving(m: Maze)
    requires ValidMaze(m)
  {
    forall x, y :: InBounds(x, y) ==>
      (m[y][x] == Wall || m[y][x] == Floor) &&
      (OnBorder(x, y) ==> m[y][x] == Wall) &&
      (Pillar(x, y) ==> m[y][x] == Wall)
  }

  /** Every chamber next to the chamber at `p` is already open. */
  ghost predicate Closed(m: Maze, p: Pos)
    requires ValidMaze(m)
  {
    forall k :: 0 <= k < 4 ==> !Walled(m, p, k)
  }

  ghost function Uncarved(m: Maze): set<Pos>
    requires ValidMaze(m)
  {
    set x, y | 0 <= x < Size && 0 <= y < Size && Chamber(x, y) && m[y][x] == Wall :: Pos(x, y)
  }

  /** The chamber `k`-th in carving order from chamber `p` exists and is still walled. */
  predicate Walled(m: Maze, p: Pos, k: int)
    requires ValidMaze(m)
  {
    Chamber(p.x + CarveDx(k), p.y + CarveDy(k)) && m[p.y + CarveDy(k)][p.x + CarveDx(k)] == Wall
  }

  /** An opening leads to a walled chamber through an interior cell that is
      neither a chamber nor a pillar. */
  ghost predicate GoodOpening(m: Maze, o: Opening)
    requires ValidMaze(m)
  {
    Chamber(o.chamber.x, o.chamber.y) && m[o.chamber.y][o.chamber.x] == Wall &&
    InBounds(o.wall.x, o.wall.y) && !OnBorder(o.wall.x, o.wall.y) &&
    !Chamber(o.wall.x, o.wall.y) && !Pillar(o.wall.x, o.wall.y)
  }

  lemma OpeningFacts(m: Maze, p: Pos, k: int)
    requires ValidMaze(m) && Chamber(p.x, p.y) && 0 <= k < 4 && Walled(m, p, k)
    ensures GoodOpening(m, Opening(Pos(p.x + CarveDx(k), p.y + CarveDy(k)), Pos(p.x + WallDx(k), p.y + WallDy(k))))
  {
  }

  /** The openings from chamber `p` still walled, in the order tried from index `k` on. */
  function Openings(m: Maze, p: Pos, k: nat): (r: seq<Opening>)
    requires ValidMaze(m) && Chamber(p.x, p.y) && k <= 4
    ensures forall o :: o in r ==> GoodOpening(m, o)
    ensures |r| == 0 <==> forall j :: k <= j < 4 ==> !Walled(m, p, j)
    decreases 4 - k
  {
    if k == 4 then []
    else
      var n := Pos(p.x + CarveDx(k), p.y + CarveDy(k));
      var rest := Openings(m, p, k + 1);
      if 0 < n.x < Size - 1 && 0 < n.y < Size - 1 && m[n.y][n.x] == Wall then
        assert Walled(m, p, k);
        OpeningFacts(m, p, k);
        [Opening(n, Pos(p.x + WallDx(k), p.y + WallDy(k)))] + rest
      else
        assert !Walled(m, p, k);
        rest
  }

  /** What the carver keeps: the carving shape, (1, 1) open, only chambers
      on the stack, and every open chamber off the stack closed. */
  ghost predicate StackInv(m: Maze, stack: seq<Pos>)
  {
    ValidMaze(m) && Carving(m) && m[1][1] == Floor &&
    (forall k :: 0 <= k < |stack| ==> Chamber(stack[k].x, stack[k].y)) &&
    (forall x, y :: Chamber(x, y) && m[y][x] == Floor && Pos(x, y) !in stack ==> Closed(m, Pos(x, y)))
  }

  /** The recursive backtracker: from the chamber on top of the stack, open
      a randomly chosen walled neighbouring chamber together with the wall
      between them and push it, or pop when there is none. */
  method Carve() returns (m: Maze)
    ensures ValidMaze(m) && Carving(m)
    ensures forall x, y :: Chamber(x, y) ==> m[y][x] == Floor
  {
    m := Set2(Fill(Size, Size, Wall), 1, 1, Floor);
    var stack := [Pos(1, 1)];
    StartInv();
    while |stack| > 0
      invariant StackInv(m, stack)
      decreases Uncarved(m), |stack|
    {
      var top := stack[|stack| - 1];
      var openings := Openings(m, top, 0);
      if |openings| > 0 {
        var k :| 0 <= k < |openings|;
        var o := openings[k];
        assert o in openings;
        var m' := Open(m, o);
        PushStep(m, m', stack, o);
        m := m';
        stack := stack + [o.chamber];
      } else {
        assert Closed(m, top);
        PopStep(m, stack);
        stack := stack[..|stack| - 1];
      }
    }
    forall x, y | Chamber(x, y) ensures m[y][x] == Floor {
      AllCarved(m, x, y);
    }
  }

  /** The maze with an opening's chamber and wall turned to floor. */
  function Open(m: Maze, o: Opening): (m': Maze)
    requires ValidMaze(m) && GoodOpening(m, o)
    ensures ValidMaze(m')
    ensures m'[o.chamber.y][o.chamber.x] == Floor && m'[o.wall.y][o.wall.x] == Floor
    ensures forall x, y :: InBounds(x, y) && Pos(x, y) != o.chamber && Pos(x, y) != o.wall ==> m'[y][x] == m[y][x]
  {
    Set2(Set2(m, o.chamber.y, o.chamber.x, Floor), o.wall.y, o.wall.x, Floor)
  }

  lemma StartInv()
    ensures StackInv(Set2(Fill(Size, Size, Wall), 1, 1, Floor), [Pos(1, 1)])
  {
    var m := Set2(Fill(Size, Size, Wall), 1, 1, Floor);
    forall x, y | Chamber(x, y) && m[y][x] == Floor ensures Pos(x, y) == Pos(1, 1) {
    }
  }

  lemma PushStep(m: Maze, m': Maze, stack: seq<Pos>, o: Opening)
    requires StackInv(m, stack) && GoodOpening(m, o)
    requires m' == Open(m, o)
    ensures StackInv(m', stack + [o.chamber])
    ensures Uncarved(m') < Uncarved(m)
  {
    CarveShrinks(m, m', o);
    forall x, y | Chamber(x, y) && m'[y][x] == Floor && Pos(x, y) !in stack + [o.chamber]
      ensures Closed(m', Pos(x, y))
    {
      assert m[y][x] == Floor;
      ClosedStaysClosed(m, m', Pos(x, y));
    }
  }

  /** Opening cells never reopens a closed chamber's neighbourhood. */
  lemma ClosedStaysClosed(m: Maze, m': Maze, p: Pos)
    requires ValidMaze(m) && ValidMaze(m') && Carving(m) && Closed(m, p)
    requires forall x, y :: InBounds(x, y) && m[y][x] == Floor ==> m'[y][x] == Floor
    ensures Closed(m', p)
  {
    forall k | 0 <= k < 4 ensures !Walled(m', p, k) {
      assert !Walled(m, p, k);
    }
  }

  lemma PopStep(m: Maze, stack: seq<Pos>)
    requires StackInv(m, stack) && |stack| > 0
    requires Closed(m, stack[|stack| - 1])
    ensures StackInv(m, stack[..|stack| - 1])
  {
    var top := stack[|stack| - 1];
    assert stack == stack[..|stack| - 1] + [top];
    forall x, y | Chamber(x, y) && m[y][x] == Floor && Pos(x, y) !in stack[..|stack| - 1]
      ensures Closed(m, Pos(x, y))
    {
      if Pos(x, y) != top {
        assert Pos(x, y) !in stack;
      }
    }
  }

  /** Opening a chamber removes exactly it from the uncarved chambers and
      keeps the carving shape. */
  lemma CarveShrinks(m: Maze, m': Maze, o: Opening)
    requires ValidMaze(m) && Carving(m) && GoodOpening(m, o)
    requires m' == Open(m, o)
    ensures ValidMaze(m') && Carving(m')
    ensures Uncarved(m') < Uncarved(m)
    ensures forall x, y :: InBounds(x, y) && m[y][x] == Floor ==> m'[y][x] == Floor
    ensures forall x, y :: Chamber(x, y) && Pos(x, y) != o.chamber ==> m'[y][x] == m[y][x]
  {
    assert o.chamber in Uncarved(m);
    assert o.chamber !in Uncarved(m');
  }

  /** Once no chamber off the stack has a walled neighbour and the stack is
      empty, every chamber is open: chambers are reached from (1, 1) along
      the first column and then along their row. */
  lemma {:induction false} AllCarved(m: Maze, x: int, y: int)
    requires ValidMaze(m) && Carving(m) && m[1][1] == Floor
    requires forall x, y :: Chamber(x, y) && m[y][x] == Floor ==> Closed(m, Pos(x, y))
    requires Chamber(x, y)
    ensures m[y][x] == Floor
    decreases x + y
  {
    if x > 1 {
      AllCarved(m, x - 2, y);
      assert !Walled(m, Pos(x - 2, y), 3);
      assert CarveDx(3) == 2 && CarveDy(3) == 0;
    } else if y > 1 {
      AllCarved(m, x, y - 2);
      assert !Walled(m, Pos(x, y - 2), 1);
      assert CarveDx(1) == 0 && CarveDy(1) == 2;
    }
  }

  // ---------------------------------------------------------------------
  // Traps

  /** The trap kind a random roll selects; a roll of 0.6 or more places none. */
  datatype TrapRoll = Cracked | Laser | Spikes | NoTrap

  /** One trap attempt: a random interior cell and a roll. */
  datatype TrapDraw = TrapDraw(x: int, y: int, roll: TrapRoll)

  predicate ValidTrapDraws(draws: seq<TrapDraw>)
  {
    |draws| == TrapAttempts &&
    forall i :: 0 <= i < |draws| ==> 1 <= draws[i].x < Size - 1 && 1 <= draws[i].y < Size - 1
  }

  predicate IsTrap(t: Tile)
  {
    t == CrackedWall || t == LaserOn || t == SpikeOff
  }

  function TrapTile(roll: TrapRoll): Tile
  {
    match roll
    case Cracked => CrackedWall
    case Laser => LaserOn
    case Spikes => SpikeOff
    case NoTrap => Floor
  }

  /** Trap attempts in order; each one only ever replaces floor. */
  function PlaceTraps(m: Maze, draws: seq<TrapDraw>): (m': Maze)
    requires ValidMaze(m)
    requires forall i :: 0 <= i < |draws| ==> InBounds(draws[i].x, draws[i].y)
    ensures ValidMaze(m')
    ensures forall x, y :: InBounds(x, y) && m'[y][x] != m[y][x] ==> m[y][x] == Floor && IsTrap(m'[y][x])
    decreases |draws|
  {
    if |draws| == 0 then m
    else
      var d := draws[0];
      assert InBounds(d.x, d.y);
      var m1 := if m[d.y][d.x] == Floor then Set2(m, d.y, d.x, TrapTile(d.roll)) else m;
      PlaceTraps(m1, draws[1..])
  }

  /** The whole maze: carve, mark start (1, 1) and exit (13, 13), then try
      to place thirty traps. */
  method GenerateMaze(draws: seq<TrapDraw>) returns (carved: Maze, m: Maze)
    requires ValidTrapDraws(draws)
    ensures ValidMaze(carved) && ValidMaze(m)
    ensures forall x, y :: Chamber(x, y) ==> carved[y][x] == Floor
    ensures forall x, y :: InBounds(x, y) && OnBorder(x, y) ==> m[y][x] == Wall
    ensures forall x, y :: Pillar(x, y) ==> m[y][x] == Wall
    ensures m[1][1] == StartTile && m[Size - 2][Size - 2] == Exit
    ensures forall x, y :: InBounds(x, y) && m[y][x] != carved[y][x] ==>
              (x == 1 && y == 1) || (x == Size - 2 && y == Size - 2) || (carved[y][x] == Floor && IsTrap(m[y][x]))
    ensures forall x, y :: InBounds(x, y) && carved[y][x] == Wall ==> m[y][x] == Wall
  {
    carved := Carve();
    var marked := Set2(Set2(carved, 1, 1, StartTile), Size - 2, Size - 2, Exit);
    m := PlaceTraps(marked, draws);
  }

  // ---------------------------------------------------------------------
  // Players and moves

  datatype Phase = Start | Playing | Won | Lost

  datatype Player = Player(id: int, x: int, y: int, abilityCooldown: int, lives: int)

  /** `lastMove[i]` is the time of player i's last move; `counter` counts
      the frames played. Times are milliseconds supplied by the caller. */
  datatype MazeState = MazeState(
    phase: Phase, maze: Maze, players: seq<Player>, lastMove: seq<int>, counter: int)

  ghost predicate Valid(s: MazeState)
  {
    ValidMaze(s.maze) && |s.players| == 2 && |s.lastMove| == 2 &&
    forall i :: 0 <= i < 2 ==> s.players[i].id == i && InBounds(s.players[i].x, s.players[i].y)
  }

  function SpawnY(id: int): int
  {
    if id == 0 then 1 else 2
  }

  predicate Passable(t: Tile)
  {
    t == Floor || t == StartTile || t == Exit || t == LaserOff || t == SpikeOff || t == SpikeOn
  }

  /** A unit step along one axis. */
  predicate UnitStep(dx: int, dy: int)
  {
    (dx == 0 && (dy == 1 || dy == -1)) || (dy == 0 && (dx == 1 || dx == -1))
  }

  /** A new maze with both players at spawn, three lives each and no
      ability cooldown. The move clocks and frame counter are kept. */
  method Reset(s: MazeState, draws: seq<TrapDraw>) returns (s': MazeState)
    requires |s.lastMove| == 2 && ValidTrapDraws(draws)
    ensures Valid(s') && s'.phase == Start
    ensures forall i :: 0 <= i < 2 ==>
              s'.players[i] == Player(i, 1, SpawnY(i), 0, StartLives)
    ensures s'.maze[1][1] == StartTile && s'.maze[Size - 2][Size - 2] == Exit
    ensures s'.lastMove == s.lastMove && s'.counter == s.counter
  {
    var carved, m := GenerateMaze(draws);
    s' := MazeState(Start, m, [Player(0, 1, 1, 0, StartLives), Player(1, 1, 2, 0, StartLives)], s.lastMove, s.counter);
  }

  /** Player `i` tries one step by (dx, dy) at time `now`. The step is taken
      only while playing, at least 120 ms after that player's last move,
      onto a passable tile inside the maze that the other player does not
      occupy; then the move time is recorded. Otherwise nothing changes. */
  function MovePlayer(s: MazeState, i: int, dx: int, dy: int, now: int): (s': MazeState)
    requires Valid(s) && 0 <= i < 2 && UnitStep(dx, dy)
    ensures Valid(s')
    ensures var p, q := s.players[i], s.players[1 - i];
            var nx, ny := p.x + dx, p.y + dy;
            (s.phase == Playing && now - s.lastMove[i] >= MoveCooldown && InBounds(nx, ny) &&
             Passable(s.maze[ny][nx]) && !(nx == q.x && ny == q.y))
            <==> s' != s
    ensures s' != s ==>
              s'.players[i] == s.players[i].(x := s.players[i].x + dx, y := s.players[i].y + dy) &&
              s'.players[1 - i] == s.players[1 - i] &&
              s'.lastMove[i] == now && s'.lastMove[1 - i] == s.lastMove[1 - i] &&
              s'.maze == s.maze && s'.phase == s.phase && s'.counter == s.counter
  {
    var p, q := s.players[i], s.players[1 - i];
    var nx, ny := p.x + dx, p.y + dy;
    if s.phase != Playing || now - s.lastMove[i] < MoveCooldown then s
    else if !InBounds(nx, ny) || !Passable(s.maze[ny][nx]) || (nx == q.x && ny == q.y) then s
    else
      assert s.players[i].x != nx || s.players[i].y != ny;
      s.(players := s.players[i := p.(x := nx, y := ny)], lastMove := s.lastMove[i := now])
  }

  /** Moves never put the two players on the same cell. */
  lemma MoveKeepsPlayersApart(s: MazeState, i: int, dx: int, dy: int, now: int)
    requires Valid(s) && 0 <= i < 2 && UnitStep(dx, dy)
    requires s.players[0].x != s.players[1].x || s.players[0].y != s.players[1].y
    ensures var s' := MovePlayer(s, i, dx, dy, now);
            s'.players[0].x != s'.players[1].x || s'.players[0].y != s'.players[1].y
  {
  }

  /** A step and, after the cooldown, the opposite step bring the player
      back when the cell it left is passable. */
  lemma StepBack(s: MazeState, i: int, dx: int, dy: int, t1: int, t2: int)
    requires Valid(s) && 0 <= i < 2 && UnitStep(dx, dy)
    requires Passable(s.maze[s.players[i].y][s.players[i].x])
    requires s.players[0].x != s.players[1].x || s.players[0].y != s.players[1].y
    requires MovePlayer(s, i, dx, dy, t1) != s && t2 - t1 >= MoveCooldown
    ensures var s2 := MovePlayer(MovePlayer(s, i, dx, dy, t1), i, -dx, -dy, t2);
            s2.players == s.players && s2.maze == s.maze
  {
    var s1 := MovePlayer(s, i, dx, dy, t1);
    assert s1.players[i].x - dx == s.players[i].x && s1.players[i].y - dy == s.players[i].y;
    assert s1.players[1 - i] == s.players[1 - i];
    var s2 := MovePlayer(s1, i, -dx, -dy, t2);
    assert s2 != s1;
    assert s2.players[i] == s.players[i];
    assert s2.players[1 - i] == s.players[1 - i];
  }

  // ---------------------------------------------------------------------
  // Abilities

  /** Cells an ability inspects, in order: the player's own cell, then
      below, above, right and left. */
  function AbilityDx(k: int): int { if k == 3 then 1 else if k == 4 then -1 else 0 }
  function AbilityDy(k: int): int { if k == 1 then 1 else if k == 2 then -1 else 0 }

  /** The tile each player's ability works on: lasers for player 1,
      cracked walls for player 2. */
  function AbilityTarget(i: int): Tile { if i == 0 then LaserOn else CrackedWall }
  function AbilityResult(i: int): Tile { if i == 0 then LaserOff else Floor }
  function AbilityCooldown(i: int): int { if i == 0 then LaserCooldown else BreakCooldown }

  predicate Hits(m: Maze, x: int, y: int, target: Tile, k: int)
    requires ValidMaze(m)
  {
    InBounds(x + AbilityDx(k), y + AbilityDy(k)) && m[y + AbilityDy(k)][x + AbilityDx(k)] == target
  }

  /** The first inspected cell from index `k` on that holds `target`. */
  function FirstHit(m: Maze, x: int, y: int, target: Tile, k: nat): (r: Option<nat>)
    requires ValidMaze(m) && k <= 5
    ensures r.Some? ==> k <= r.value < 5 && Hits(m, x, y, target, r.value)
    ensures r.Some? ==> forall j :: k <= j < r.value ==> !Hits(m, x, y, target, j)
    ensures r.None? ==> forall j :: k <= j < 5 ==> !Hits(m, x, y, target, j)
    decreases 5 - k
  {
    if k == 5 then None
    else if Hits(m, x, y, target, k) then Some(k)
    else FirstHit(m, x, y, target, k + 1)
  }

  /** Player `i`'s ability at time `now`, once its cooldown has passed:
      the first inspected cell holding the player's target tile is changed
      (laser off, or cracked wall to floor) and the cooldown restarts; with
      no such cell nothing happens. At most one tile changes. */
  function UseAbility(s: MazeState, i: int, now: int): (s': MazeState)
    requires Valid(s) && 0 <= i < 2
    ensures Valid(s')
    ensures s.phase != Playing || s.players[i].abilityCooldown > now ==> s' == s
    ensures s.phase == Playing && s.players[i].abilityCooldown <= now ==>
              var p := s.players[i];
              match FirstHit(s.maze, p.x, p.y, AbilityTarget(i), 0)
              case None => s' == s
              case Some(k) =>
                var ax, ay := p.x + AbilityDx(k), p.y + AbilityDy(k);
                s'.maze[ay][ax] == AbilityResult(i) &&
                (forall x, y :: InBounds(x, y) && (x != ax || y != ay) ==> s'.maze[y][x] == s.maze[y][x]) &&
                s'.players[i] == p.(abilityCooldown := now + AbilityCooldown(i)) &&
                s'.players[1 - i] == s.players[1 - i] && s'.phase == s.phase
  {
    var p := s.players[i];
    if s.phase != Playing || p.abilityCooldown > now then s
    else match FirstHit(s.maze, p.x, p.y, AbilityTarget(i), 0)
      case None => s
      case Some(k) =>
        var ax, ay := p.x + AbilityDx(k), p.y + AbilityDy(k);
        s.(maze := Set2(s.maze, ay, ax, AbilityResult(i)),
           players := s.players[i := p.(abilityCooldown := now + AbilityCooldown(i))])
  }

  /** Five seconds after a laser is switched off it comes back on, if it is
      still off. */
  function RestoreLaser(s: MazeState, x: int, y: int): (s': MazeState)
    requires Valid(s) && InBounds(x, y)
    ensures Valid(s')
    ensures s.maze[y][x] == LaserOff ==> s'.maze[y][x] == LaserOn
    ensures s.maze[y][x] != LaserOff ==> s' == s
    ensures forall a, b :: InBounds(a, b) && (a != x || b != y) ==> s'.maze[b][a] == s.maze[b][a]
    ensures s'.players == s.players && s'.phase == s.phase
  {
    if s.maze[y][x] == LaserOff then s.(maze := Set2(s.maze, y, x, LaserOn)) else s
  }

  /** Switching a laser off and restoring it gives back the maze. */
  lemma LaserComesBack(s: MazeState, now: int)
    requires Valid(s) && s.phase == Playing && s.players[0].abilityCooldown <= now
    requires FirstHit(s.maze, s.players[0].x, s.players[0].y, LaserOn, 0).Some?
    ensures var k := FirstHit(s.maze, s.players[0].x, s.players[0].y, LaserOn, 0).value;
            RestoreLaser(UseAbility(s, 0, now), s.players[0].x + AbilityDx(k), s.players[0].y + AbilityDy(k)).maze
            == s.maze
  {
    var k := FirstHit(s.maze, s.players[0].x, s.players[0].y, LaserOn, 0).value;
    var ax, ay := s.players[0].x + AbilityDx(k), s.players[0].y + AbilityDy(k);
    var m := RestoreLaser(UseAbility(s, 0, now), ax, ay).maze;
    assert forall y :: 0 <= y < Size ==> m[y] == s.maze[y];
  }

  // ---------------------------------------------------------------------
  // Spikes, hazards and the end of the game

  /** Raised spikes drop and lowered spikes rise; every other tile stays. */
  function ToggleSpikes(m: Maze): (m': Maze)
    requires ValidMaze(m)
    ensures ValidMaze(m')
    ensures forall x, y :: InBounds(x, y) ==>
              (m[y][x] == SpikeOff ==> m'[y][x] == SpikeOn) &&
              (m[y][x] == SpikeOn ==> m'[y][x] == SpikeOff) &&
              (m[y][x] != SpikeOff && m[y][x] != SpikeOn ==> m'[y][x] == m[y][x])
  {
    seq(Size, y requires 0 <= y < Size =>
      seq(Size, x requires 0 <= x < Size =>
        if m[y][x] == SpikeOff then SpikeOn else if m[y][x] == SpikeOn then SpikeOff else m[y][x]))
  }

  /** Toggling twice restores the maze. */
  lemma ToggleTwice(m: Maze)
    requires ValidMaze(m)
    ensures ToggleSpikes(ToggleSpikes(m)) == m
  {
    var m2 := ToggleSpikes(ToggleSpikes(m));
    forall y | 0 <= y < Size ensures m2[y] == m[y] {
      forall x | 0 <= x < Size ensures m2[y][x] == m[y][x] {
        assert InBounds(x, y);
      }
    }
  }

  predicate Hazard(t: Tile)
  {
    t == LaserOn || t == SpikeOn
  }

  /** A player on a live laser or raised spikes loses a life and goes back
      to spawn. */
  function Hurt(m: Maze, p: Player): (p': Player)
    requires ValidMaze(m) && InBounds(p.x, p.y)
    ensures Hazard(m[p.y][p.x]) ==> p' == p.(lives := p.lives - 1, x := 1, y := SpawnY(p.id))
    ensures !Hazard(m[p.y][p.x]) ==> p' == p
  {
    if Hazard(m[p.y][p.x]) then p.(lives := p.lives - 1, x := 1, y := SpawnY(p.id)) else p
  }

  /** Player `i` stands on a hazard with a single life left. */
  predicate OutOfLives(s: MazeState, i: int)
    requires Valid(s) && 0 <= i < 2
  {
    Hazard(s.maze[s.players[i].y][s.players[i].x]) && s.players[i].lives - 1 <= 0
  }

  predicate BothOnExit(s: MazeState)
    requires Valid(s)
  {
    s.maze[s.players[0].y][s.players[0].x] == Exit && s.maze[s.players[1].y][s.players[1].x] == Exit
  }

  /** One animation frame during play: the frame counter advances and the
      spikes flip on every 120th frame (counter 60, 180, ...); hazards and
      the exit are judged on the maze as it was at the frame's start. A hit
      player whose lives run out loses the game for both; both players on
      the exit win it. */
  function Frame(s: MazeState): (s': MazeState)
    requires Valid(s)
    ensures Valid(s')
    ensures s.phase != Playing ==> s' == s
    ensures s.phase == Playing ==>
              s'.counter == s.counter + 1 &&
              s'.maze == (if (s.counter + 1) % SpikePeriod == SpikeTurn then ToggleSpikes(s.maze) else s.maze) &&
              s'.players == [Hurt(s.maze, s.players[0]), Hurt(s.maze, s.players[1])] &&
              (s'.phase == Won <==> BothOnExit(s)) &&
              (s'.phase == Lost <==> !BothOnExit(s) && (OutOfLives(s, 0) || OutOfLives(s, 1))) &&
              (s'.phase == Playing <==> !BothOnExit(s) && !OutOfLives(s, 0) && !OutOfLives(s, 1))
  {
    if s.phase != Playing then s
    else
      var counter := s.counter + 1;
      var lost := OutOfLives(s, 0) || OutOfLives(s, 1);
      var maze := if counter % SpikePeriod == SpikeTurn then ToggleSpikes(s.maze) else s.maze;
      var phase := if BothOnExit(s) then Won else if lost then Lost else Playing;
      MazeState(phase, maze, [Hurt(s.maze, s.players[0]), Hurt(s.maze, s.players[1])], s.lastMove, counter)
  }

  /** A frame costs each player at most one life. */
  lemma FrameCostsAtMostOneLife(s: MazeState, i: int)
    requires Valid(s) && 0 <= i < 2
    ensures s.players[i].lives - 1 <= Frame(s).players[i].lives <= s.players[i].lives
  {
  }

  /** A keyboard key: the first player's W/A/S/D and space, the second's
      arrows and Enter. */
  datatype Key = W | A | S | D | Space | Up | Down | Left | Right | Enter | OtherKey

  /** A key press: on the title screen any key starts play, after the game
      any key builds a new maze; during play the key moves or acts. */
  method HandleKey(s: MazeState, key: Key, now: int, draws: seq<TrapDraw>) returns (s': MazeState)
    requires Valid(s) && ValidTrapDraws(draws)
    ensures Valid(s')
    ensures s.phase == Start ==> s' == s.(phase := Playing)
    ensures (s.phase == Won || s.phase == Lost) ==>
              s'.phase == Start &&
              (forall i :: 0 <= i < 2 ==> s'.players[i] == Player(i, 1, SpawnY(i), 0, StartLives)) &&
              s'.maze[1][1] == StartTile && s'.maze[Size - 2][Size - 2] == Exit &&
              s'.lastMove == s.lastMove && s'.counter == s.counter
    ensures s.phase == Playing ==>
              s' == match key
                    case W => MovePlayer(s, 0, 0, -1, now)
                    case S => MovePlayer(s, 0, 0, 1, now)
                    case A => MovePlayer(s, 0, -1, 0, now)
                    case D => MovePlayer(s, 0, 1, 0, now)
                    case Space => UseAbility(s, 0, now)
                    case Up => MovePlayer(s, 1, 0, -1, now)
                    case Down => MovePlayer(s, 1, 0, 1, now)
                    case Left => MovePlayer(s, 1, -1, 0, now)
                    case Right => MovePlayer(s, 1, 1, 0, now)
                    case Enter => UseAbility(s, 1, now)
                    case OtherKey => s
  {
    if s.phase == Start {
      return s.(phase := Playing);
    }
    if s.phase != Playing {
      s' := Reset(s, draws);
      return;
    }
    match key
    case W => s' := MovePlayer(s, 0, 0, -1, now);
    case S => s' := MovePlayer(s, 0, 0, 1, now);
    case A => s' := MovePlayer(s, 0, -1, 0, now);
    case D => s' := MovePlayer(s, 0, 1, 0, now);
    case Space => s' := UseAbility(s, 0, now);
    case Up => s' := MovePlayer(s, 1, 0, -1, now);
    case Down => s' := MovePlayer(s, 1, 0, 1, now);
    case Left => s' := MovePlayer(s, 1, -1, 0, now);
    case Right => s' := MovePlayer(s, 1, 1, 0, now);
    case Enter => s' := UseAbility(s, 1, now);
    case OtherKey => s' := s;
  }
}
