/** Last Square Standing: two players on a 9 x 9 floor. Every tile a player
    steps off starts to crack and falls away sixty frames later; a player
    may shove the other one square along. A player left on a fallen tile is
    out, and the game ends when at most one player remains. Cells are
    addressed (x, y) and stored as rows, so the tile at (x, y) is `g[y][x]`. */
module LastSquare {
  import opened Common

  const Size: int := 9
  const MoveCooldown: int := 200
  const CrackFrames: int := 60

  datatype TileState = Stable | Cracking | Gone

  datatype Tile = Tile(state: TileState, timer: int)

  type Floor = seq<seq<Tile>>

  datatype Player = Player(x: int, y: int, alive: bool)

  datatype Phase = Start | Playing | End

  datatype SquareState = SquareState(
    phase: Phase, winner: Option<nat>, grid: Floor, players: seq<Player>, lastMove: seq<int>)

  predicate ValidFloor(g: Floor)
  {
    IsGrid(g, Size, Size)
  }

  predicate InBounds(x: int, y: int)
  {
    0 <= x < Size && 0 <= y < Size
  }

  /** A cracking tile has between 1 and 60 frames left. */
  ghost predicate TimersOk(g: Floor)
    requires ValidFloor(g)
  {
    forall x, y :: InBounds(x, y) && g[y][x].state == Cracking ==> 1 <= g[y][x].timer <= CrackFrames
  }

  /** The reachable states: both players on the floor at different cells,
      no live player on a fallen tile, and every crack counting down. */
  ghost predicate Valid(s: SquareState)
  {
    ValidFloor(s.grid) && TimersOk(s.grid) && |s.players| == 2 && |s.lastMove| == 2 &&
    OnFloor(s.grid, s.players[0]) && OnFloor(s.grid, s.players[1]) &&
    (s.players[0].x != s.players[1].x || s.players[0].y != s.players[1].y)
  }

  /** `p` stands on the floor and, if still in, on a tile that has not fallen. */
  predicate OnFloor(g: Floor, p: Player)
    requires ValidFloor(g)
  {
    InBounds(p.x, p.y) && (p.alive ==> g[p.y][p.x].state != Gone)
  }

  /** Stable, then cracking, then gone: tiles only move forward. */
  function Rank(t: TileState): int
  {
    match t
    case Stable => 0
    case Cracking => 1
    case Gone => 2
  }

  /** No tile of `g` is less worn in `g'`, and a fallen tile stays as it was. */
  ghost predicate Worn(g: Floor, g': Floor)
    requires ValidFloor(g) && ValidFloor(g')
  {
    forall x, y :: InBounds(x, y) ==>
      Rank(g[y][x].state) <= Rank(g'[y][x].state) && (g[y][x].state == Gone ==> g'[y][x] == g[y][x])
  }

  /** A fresh game: every tile stable, the players at (1, 4) and (7, 4),
      both in, no winner. The move clocks are kept. */
  function Reset(lastMove: seq<int>): (s: SquareState)
    requires |lastMove| == 2
    ensures Valid(s) && s.phase == Start && s.winner == None
    ensures forall x, y :: InBounds(x, y) ==> s.grid[y][x] == Tile(Stable, 0)
    ensures s.players == [Player(1, 4, true), Player(7, 4, true)] && s.lastMove == lastMove
  {
    SquareState(Start, None, Fill(Size, Size, Tile(Stable, 0)), [Player(1, 4, true), Player(Size - 2, 4, true)], lastMove)
  }

  /** A click or tap outside play starts a fresh game. */
  function HandleStart(s: SquareState): (s': SquareState)
    requires |s.lastMove| == 2
    ensures s.phase == Playing ==> s' == s
    ensures s.phase != Playing ==> s' == Reset(s.lastMove).(phase := Playing)
  {
    if s.phase != Playing then Reset(s.lastMove).(phase := Playing) else s
  }

  predicate UnitStep(dx: int, dy: int)
  {
    (dx == 0 && (dy == 1 || dy == -1)) || (dy == 0 && (dx == 1 || dx == -1))
  }

  /** Whether player `i` may step by (dx, dy) at time `now`: while
      playing, 200 ms after its last move, while still in, onto a tile of
      the floor that has not fallen; and if the other player stands there,
      the cell beyond must be a stable tile of the floor. */
  predicate CanMove(s: SquareState, i: int, dx: int, dy: int, now: int)
    requires Valid(s) && 0 <= i < 2
  {
    var p, q := s.players[i], s.players[1 - i];
    var nx, ny := p.x + dx, p.y + dy;
    s.phase == Playing && now - s.lastMove[i] >= MoveCooldown && p.alive &&
    InBounds(nx, ny) && s.grid[ny][nx].state != Gone &&
    (nx == q.x && ny == q.y ==> InBounds(q.x + dx, q.y + dy) && s.grid[q.y + dy][q.x + dx].state == Stable)
  }

  /** Player `i` steps by (dx, dy), shoving the other player one cell the
      same way when stepping onto it. The tile left behind starts cracking
      with 60 frames to go. */
  function MovePlayer(s: SquareState, i: int, dx: int, dy: int, now: int): (s': SquareState)
    requires Valid(s) && 0 <= i < 2 && UnitStep(dx, dy)
    ensures ValidFloor(s'.grid) && |s'.players| == 2 && |s'.lastMove| == 2
    ensures !CanMove(s, i, dx, dy, now) ==> s' == s
    ensures CanMove(s, i, dx, dy, now) ==>
              var p, q := s.players[i], s.players[1 - i];
              var nx, ny := p.x + dx, p.y + dy;
              s'.players[i] == p.(x := nx, y := ny) &&
              (nx == q.x && ny == q.y ==> s'.players[1 - i] == q.(x := q.x + dx, y := q.y + dy)) &&
              (nx != q.x || ny != q.y ==> s'.players[1 - i] == q) &&
              s'.grid[p.y][p.x] == Tile(Cracking, CrackFrames) &&
              (forall x, y :: InBounds(x, y) && (x != p.x || y != p.y) ==> s'.grid[y][x] == s.grid[y][x]) &&
              s'.lastMove[i] == now && s'.lastMove[1 - i] == s.lastMove[1 - i] &&
              s'.phase == s.phase && s'.winner == s.winner
    ensures forall j :: 0 <= j < 2 ==> s'.players[j].alive == s.players[j].alive
  {
    if !CanMove(s, i, dx, dy, now) then s
    else
      var p, q := s.players[i], s.players[1 - i];
      var nx, ny := p.x + dx, p.y + dy;
      var q' := if nx == q.x && ny == q.y then q.(x := q.x + dx, y := q.y + dy) else q;
      var p' := p.(x := nx, y := ny);
      var players := if i == 0 then [p', q'] else [q', p'];
      SquareState(s.phase, s.winner, Crack(s.grid, p.x, p.y), players, s.lastMove[i := now])
  }

  /** The floor with the tile at (x, y) freshly cracking. */
  function Crack(g: Floor, x: int, y: int): (g': Floor)
    requires ValidFloor(g) && InBounds(x, y)
    ensures ValidFloor(g')
    ensures g'[y][x] == Tile(Cracking, CrackFrames)
    ensures forall a, b :: InBounds(a, b) && (a != x || b != y) ==> g'[b][a] == g[b][a]
  {
    Set2(g, y, x, Tile(Cracking, CrackFrames))
  }

  /** A move keeps the state reachable: the mover lands on a tile that has
      not fallen, a shoved player lands on a stable one, the two never
      share a cell, and the only changed tile goes from standing to
      cracking. */
  lemma MoveKeepsValid(s: SquareState, i: int, dx: int, dy: int, now: int)
    requires Valid(s) && 0 <= i < 2 && UnitStep(dx, dy)
    ensures Valid(MovePlayer(s, i, dx, dy, now))
    ensures Worn(s.grid, MovePlayer(s, i, dx, dy, now).grid)
  {
    var s' := MovePlayer(s, i, dx, dy, now);
    if CanMove(s, i, dx, dy, now) {
      MoveWears(s, i, dx, dy, now);
      MovePlaces(s, i, dx, dy, now);
    }
  }

  /** The players half of MoveKeepsValid: the mover lands on a tile that has
      not fallen, a shoved player on a stable one, and never on each other. */
  lemma MovePlaces(s: SquareState, i: int, dx: int, dy: int, now: int)
    requires Valid(s) && 0 <= i < 2 && UnitStep(dx, dy) && CanMove(s, i, dx, dy, now)
    ensures var s' := MovePlayer(s, i, dx, dy, now);
            OnFloor(s'.grid, s'.players[0]) && OnFloor(s'.grid, s'.players[1]) &&
            (s'.players[0].x != s'.players[1].x || s'.players[0].y != s'.players[1].y)
  {
    var s' := MovePlayer(s, i, dx, dy, now);
    MoverLands(s, i, dx, dy, now);
    assert OnFloor(s'.grid, s'.players[1 - i]);
  }

  /** The mover steps off its tile onto one that has not fallen. */
  lemma MoverLands(s: SquareState, i: int, dx: int, dy: int, now: int)
    requires Valid(s) && 0 <= i < 2 && UnitStep(dx, dy) && CanMove(s, i, dx, dy, now)
    ensures OnFloor(MovePlayer(s, i, dx, dy, now).grid, MovePlayer(s, i, dx, dy, now).players[i])
  {
    var p := s.players[i];
    assert p.x + dx != p.x || p.y + dy != p.y;
  }

  /** The floor half of MoveKeepsValid: the vacated tile was standing, so
      cracking it wears it and gives it a full timer. */
  lemma MoveWears(s: SquareState, i: int, dx: int, dy: int, now: int)
    requires Valid(s) && 0 <= i < 2 && UnitStep(dx, dy) && CanMove(s, i, dx, dy, now)
    ensures TimersOk(MovePlayer(s, i, dx, dy, now).grid)
    ensures Worn(s.grid, MovePlayer(s, i, dx, dy, now).grid)
  {
    var p := s.players[i];
    assert s.grid[p.y][p.x].state != Gone;
  }

  /** One frame of every cracking tile: its timer drops by one and the tile
      falls when the timer reaches zero. */
  function TickTile(t: Tile): Tile
  {
    if t.state != Cracking then t
    else if t.timer - 1 <= 0 then Tile(Gone, t.timer - 1)
    else Tile(Cracking, t.timer - 1)
  }

  function TickFloor(g: Floor): (g': Floor)
    requires ValidFloor(g)
    ensures ValidFloor(g')
    ensures forall x, y :: InBounds(x, y) ==> g'[y][x] == TickTile(g[y][x])
  {
    seq(Size, y requires 0 <= y < Size => seq(Size, x requires 0 <= x < Size => TickTile(g[y][x])))
  }

  function TickFloorN(g: Floor, n: nat): (g': Floor)
    requires ValidFloor(g)
    ensures ValidFloor(g')
    decreases n
  {
    if n == 0 then g else TickFloorN(TickFloor(g), n - 1)
  }

  /** A tile that starts cracking with `t` frames left is still cracking
      after fewer than `t` frames and gone after exactly `t`. */
  lemma {:induction false} CrumbleCountdown(g: Floor, x: int, y: int, n: nat)
    requires ValidFloor(g) && InBounds(x, y) && g[y][x].state == Cracking
    requires 1 <= g[y][x].timer && n <= g[y][x].timer
    ensures n < g[y][x].timer ==> TickFloorN(g, n)[y][x] == Tile(Cracking, g[y][x].timer - n)
    ensures n == g[y][x].timer ==> TickFloorN(g, n)[y][x].state == Gone
    decreases n
  {
    if n > 0 {
      var g1 := TickFloor(g);
      if g[y][x].timer - 1 <= 0 {
        assert TickFloorN(g, n) == TickFloorN(g1, 0) == g1;
        assert g1[y][x] == TickTile(g[y][x]);
      } else {
        assert TickFloorN(g, n) == TickFloorN(g1, n - 1);
        assert g1[y][x] == TickTile(g[y][x]);
        CrumbleCountdown(g1, x, y, n - 1);
      }
    }
  }

  /** A live player on a fallen tile is out. */
  function Fall(g: Floor, p: Player): (p': Player)
    requires ValidFloor(g) && InBounds(p.x, p.y)
    ensures p'.x == p.x && p'.y == p.y
    ensures p'.alive <==> p.alive && g[p.y][p.x].state != Gone
  {
    if p.alive && g[p.y][p.x].state == Gone then p.(alive := false) else p
  }

  /** One frame of play: tiles count down and fall, players on fallen tiles
      drop out, and with at most one player left the game ends, naming the
      survivor (the first live player) or nobody. */
  function Tick(s: SquareState): (s': SquareState)
    requires Valid(s)
    ensures Valid(s')
    ensures s.phase != Playing ==> s' == s
    ensures s.phase == Playing ==>
              s'.grid == TickFloor(s.grid) &&
              (forall i :: 0 <= i < 2 ==> s'.players[i] == Fall(TickFloor(s.grid), s.players[i])) &&
              (s'.phase == End <==> !(s'.players[0].alive && s'.players[1].alive)) &&
              (s'.phase == End ==>
                 (s'.winner == Some(0) <==> s'.players[0].alive) &&
                 (s'.winner == Some(1) <==> s'.players[1].alive) &&
                 (s'.winner == None <==> !s'.players[0].alive && !s'.players[1].alive)) &&
              (s'.phase != End ==> s'.winner == s.winner)
    ensures Worn(s.grid, s'.grid)
    ensures forall j :: 0 <= j < 2 && !s.players[j].alive ==> !s'.players[j].alive
  {
    if s.phase != Playing then s
    else
      var g := TickFloor(s.grid);
      var p0, p1 := Fall(g, s.players[0]), Fall(g, s.players[1]);
      var moved := s.(grid := g, players := [p0, p1]);
      if p0.alive && p1.alive then moved
      else moved.(phase := End, winner := if p0.alive then Some(0) else if p1.alive then Some(1) else None)
  }

  /** Wear is transitive, so over any run of moves and frames a fallen tile
      stays fallen and no tile becomes stable again. */
  lemma WornTransitive(g1: Floor, g2: Floor, g3: Floor)
    requires ValidFloor(g1) && ValidFloor(g2) && ValidFloor(g3)
    requires Worn(g1, g2) && Worn(g2, g3)
    ensures Worn(g1, g3)
  {
  }

  /** A player who is out stays out through any move. */
  lemma OutStaysOut(s: SquareState, i: int, dx: int, dy: int, now: int, j: int)
    requires Valid(s) && 0 <= i < 2 && UnitStep(dx, dy) && 0 <= j < 2 && !s.players[j].alive
    ensures !Tick(MovePlayer(s, i, dx, dy, now)).players[j].alive
  {
    MoveKeepsValid(s, i, dx, dy, now);
  }
}
