/** Space Miner Tycoon: asteroids drift past a ship, the player clicks them
    (and a drone grinds the front one) until they break, the ore goes into a
    cargo hold of limited size, ore is sold for cash, and cash buys
    upgrades whose price grows by half with every level. Positions and
    sizes are reals; cash, ore and levels are integers. */
module SpaceMiner {
  import opened Common

  datatype Resource = Iron | Cobalt | Gold

  datatype Upgrade = Laser | Drone | CargoHold | Scanner

  /** Sale price of one unit of ore. */
  function Value(r: Resource): int
  {
    match r
    case Iron => 1
    case Cobalt => 5
    case Gold => 25
  }

  /** How much tougher than iron an asteroid of this ore is. */
  function HealthModifier(r: Resource): real
  {
    match r
    case Iron => 1.0
    case Cobalt => 2.5
    case Gold => 5.0
  }

  function BaseCost(u: Upgrade): nat
  {
    match u
    case Laser => 25
    case Drone => 100
    case CargoHold => 50
    case Scanner => 500
  }

  /** Ore in the hold, one count per kind. */
  datatype Cargo = Cargo(iron: int, cobalt: int, gold: int)

  function Amount(c: Cargo, r: Resource): int
  {
    match r
    case Iron => c.iron
    case Cobalt => c.cobalt
    case Gold => c.gold
  }

  function AddOre(c: Cargo, r: Resource, n: int): (c': Cargo)
    ensures Amount(c', r) == Amount(c, r) + n
    ensures forall r' :: r' != r ==> Amount(c', r') == Amount(c, r')
  {
    match r
    case Iron => c.(iron := c.iron + n)
    case Cobalt => c.(cobalt := c.cobalt + n)
    case Gold => c.(gold := c.gold + n)
  }

  function Total(c: Cargo): int
  {
    c.iron + c.cobalt + c.gold
  }

  /** Upgrade levels. */
  datatype Levels = Levels(laser: nat, drone: nat, cargo: nat, scanner: nat)

  function Level(l: Levels, u: Upgrade): nat
  {
    match u
    case Laser => l.laser
    case Drone => l.drone
    case CargoHold => l.cargo
    case Scanner => l.scanner
  }

  function LevelUp(l: Levels, u: Upgrade): (l': Levels)
    ensures Level(l', u) == Level(l, u) + 1
    ensures forall u' :: u' != u ==> Level(l', u') == Level(l, u')
  {
    match u
    case Laser => l.(laser := l.laser + 1)
    case Drone => l.(drone := l.drone + 1)
    case CargoHold => l.(cargo := l.cargo + 1)
    case Scanner => l.(scanner := l.scanner + 1)
  }

  datatype Asteroid = Asteroid(
    id: real, x: real, y: real, size: real, kind: Resource, health: real, maxHealth: real)

  datatype MinerState = MinerState(cash: int, cargo: Cargo, levels: Levels, asteroids: seq<Asteroid>)

  /** What a first visit finds in storage: no cash, an empty hold, laser,
      cargo and scanner at level 1 and no drone; and no asteroids yet. */
  predicate FirstVisit(s: MinerState)
  {
    s.cash == 0 && s.cargo == Cargo(0, 0, 0) && |s.asteroids| == 0 &&
    Level(s.levels, Laser) == 1 && Level(s.levels, Drone) == 0 &&
    Level(s.levels, CargoHold) == 1 && Level(s.levels, Scanner) == 1
  }

  function Initial(): (s: MinerState)
    ensures FirstVisit(s)
  {
    MinerState(0, Cargo(0, 0, 0), Levels(1, 0, 1, 1), [])
  }

  /** The hold takes 50 units plus 25 per cargo level. */
  function Capacity(l: Levels): (c: int)
    ensures c >= 50
  {
    50 + 25 * l.cargo
  }

  /** Each cargo level adds 25 units of room; other upgrades add none. */
  lemma CapacityGrowth(l: Levels, u: Upgrade)
    ensures Capacity(LevelUp(l, u)) == if u == CargoHold then Capacity(l) + 25 else Capacity(l)
  {
  }

  // ---------------------------------------------------------------------
  // Prices

  function Pow(b: nat, n: nat): (r: nat)
    ensures r > 0 || b == 0
  {
    if n == 0 then 1 else b * Pow(b, n - 1)
  }

  /** 1.5 to the power n, as the price formula means it. */
  function Pow15(n: nat): (r: real)
    ensures r >= 1.0
  {
    if n == 0 then 1.0 else 1.5 * Pow15(n - 1)
  }

  /** Price of the next level: the base cost times 1.5 to the power of the
      current level, rounded down, computed exactly in integers. */
  function Cost(u: Upgrade, level: nat): int
  {
    BaseCost(u) * Pow(3, level) / Pow(2, level)
  }

  /** 1.5^n scaled by 2^n is 3^n. */
  lemma {:induction false} Pow15Scaled(n: nat)
    ensures Pow15(n) * (Pow(2, n) as real) == Pow(3, n) as real
  {
    if n > 0 {
      Pow15Scaled(n - 1);
      var p, b := Pow15(n - 1), Pow(2, n - 1) as real;
      assert Pow(2, n) as real == 2.0 * b;
      assert Pow(3, n) as real == 3.0 * (Pow(3, n - 1) as real);
      assert (1.5 * p) * (2.0 * b) == 3.0 * (p * b);
    }
  }

  lemma ScaleDown(x: real, y: real, z: real)
    requires z > 0.0
    ensures x * z <= y * z ==> x <= y
    ensures x * z < y * z ==> x < y
  {
    if x > y {
      assert (x - y) * z > 0.0;
    }
  }

  /** The integer price is exactly the floor of base * 1.5^level. */
  lemma CostIsFloor(u: Upgrade, level: nat)
    ensures (Cost(u, level) as real) <= (BaseCost(u) as real) * Pow15(level) < (Cost(u, level) as real) + 1.0
  {
    ScaledFloor(BaseCost(u), level);
  }

  lemma ScaledFloor(c: nat, level: nat)
    ensures ((c * Pow(3, level) / Pow(2, level)) as real) <= (c as real) * Pow15(level)
              < ((c * Pow(3, level) / Pow(2, level)) as real) + 1.0
  {
    Pow15Scaled(level);
    PowAtLeast(level);
    FloorOfProduct(c, Pow(3, level), Pow(2, level), Pow15(level));
  }

  lemma FloorOfProduct(c: int, t: int, b: int, p: real)
    requires b > 0 && p * (b as real) == t as real
    ensures ((c * t / b) as real) <= (c as real) * p < ((c * t / b) as real) + 1.0
  {
    CastMul(c, t);
    Regroup(c as real, p, b as real);
    FloorOfRatio(c * t, b, (c as real) * p);
  }

  lemma CastMul(x: int, y: int)
    ensures (x * y) as real == (x as real) * (y as real)
  {
  }

  lemma Regroup(c: real, p: real, b: real)
    ensures (c * p) * b == c * (p * b)
  {
  }

  /** If p * b == a with b positive, then a / b is the floor of p. */
  lemma FloorOfRatio(a: int, b: int, p: real)
    requires b > 0 && p * (b as real) == a as real
    ensures ((a / b) as real) <= p < ((a / b) as real) + 1.0
  {
    var q := a / b;
    assert a == q * b + a % b && 0 <= a % b < b;
    assert q * b <= a < q * b + b;
    assert (q + 1) * b == q * b + b;
    CastMul(q, b);
    CastMul(q + 1, b);
    ScaleDown(q as real, p, b as real);
    ScaleDown(p, (q + 1) as real, b as real);
  }

  lemma DivAtLeast(x: int, m: int, k: int)
    requires m > 0 && x >= k * m
    ensures x / m >= k
  {
    var q, r := x / m, x % m;
    assert x == q * m + r && 0 <= r < m;
    assert (q - k + 1) * m == q * m - k * m + m;
    PositiveFactor(q - k + 1, m);
  }

  lemma PositiveFactor(a: int, m: int)
    requires m > 0 && a * m > 0
    ensures a > 0
  {
  }

  lemma MulAtLeast(a1: nat, a2: nat, b1: nat, b2: nat)
    requires a1 >= a2 && b1 >= b2
    ensures a1 * b1 >= a2 * b2
  {
    assert a1 * b1 >= a2 * b1;
  }

  /** Every level costs strictly more than the one before. */
  lemma CostIncreases(u: Upgrade, level: nat)
    ensures Cost(u, level + 1) > Cost(u, level)
  {
    var a, b := BaseCost(u) * Pow(3, level), Pow(2, level);
    PowAtLeast(level);
    MulAtLeast(BaseCost(u), 25, Pow(3, level), Pow(2, level));
    DivAtLeast(a, b, 25);
    var q := a / b;
    assert Cost(u, level) == q;
    assert Cost(u, level + 1) == (3 * a) / (2 * b) by {
      assert BaseCost(u) * Pow(3, level + 1) == 3 * a;
    }
    NextFloor(a, b, q);
    DivAtLeast(3 * a, 2 * b, q + 1);
  }

  lemma {:induction false} PowAtLeast(n: nat)
    ensures Pow(3, n) >= Pow(2, n) > 0
  {
    if n > 0 {
      PowAtLeast(n - 1);
    }
  }

  /** No level costs less than the base price. */
  lemma CostAtLeastBase(u: Upgrade, level: nat)
    ensures Cost(u, level) >= BaseCost(u)
  {
    PowAtLeast(level);
    MulAtLeast(BaseCost(u), BaseCost(u), Pow(3, level), Pow(2, level));
    DivAtLeast(BaseCost(u) * Pow(3, level), Pow(2, level), BaseCost(u));
  }

  /** With q = a / b at least 2, three halves of a/b are at least q + 1. */
  lemma NextFloor(a: int, b: int, q: int)
    requires b > 0 && q == a / b && q >= 2
    ensures 3 * a >= (q + 1) * (2 * b)
  {
    assert q * b <= a;
    assert q * b >= 2 * b;
  }

  /** Buying an upgrade: with enough cash the price is paid and that one
      level goes up; otherwise nothing happens. */
  function BuyUpgrade(s: MinerState, u: Upgrade): (s': MinerState)
    ensures s.cash >= Cost(u, Level(s.levels, u)) ==>
              s'.cash == s.cash - Cost(u, Level(s.levels, u)) &&
              Level(s'.levels, u) == Level(s.levels, u) + 1 &&
              (forall u' :: u' != u ==> Level(s'.levels, u') == Level(s.levels, u'))
    ensures s.cash < Cost(u, Level(s.levels, u)) ==> s' == s
    ensures s'.cargo == s.cargo && s'.asteroids == s.asteroids
    ensures s.cash >= 0 ==> s'.cash >= 0
  {
    var cost := Cost(u, Level(s.levels, u));
    if s.cash >= cost then s.(cash := s.cash - cost, levels := LevelUp(s.levels, u)) else s
  }

  /** After a purchase the same upgrade costs more, so the same cash never
      buys two levels at the old price. */
  lemma BuyRaisesPrice(s: MinerState, u: Upgrade)
    requires s.cash >= Cost(u, Level(s.levels, u))
    ensures Cost(u, Level(BuyUpgrade(s, u).levels, u)) > Cost(u, Level(s.levels, u))
    ensures BuyUpgrade(s, u).cash < s.cash
  {
    CostIncreases(u, Level(s.levels, u));
    CostAtLeastBase(u, Level(s.levels, u));
  }

  // ---------------------------------------------------------------------
  // Selling

  /** Cash plus the sale value of the hold. */
  function Worth(s: MinerState): int
  {
    s.cash + Amount(s.cargo, Iron) * Value(Iron) + Amount(s.cargo, Cobalt) * Value(Cobalt)
      + Amount(s.cargo, Gold) * Value(Gold)
  }

  /** Sell everything: the hold is emptied into cash at 1, 5 and 25 a unit. */
  function SellResources(s: MinerState): (s': MinerState)
    ensures forall r :: Amount(s'.cargo, r) == 0
    ensures Worth(s') == Worth(s)
    ensures s'.levels == s.levels && s'.asteroids == s.asteroids
  {
    s.(cash := s.cash + (s.cargo.iron + 5 * s.cargo.cobalt + 25 * s.cargo.gold), cargo := Cargo(0, 0, 0))
  }

  /** A second sale right after the first earns nothing. */
  lemma SellTwice(s: MinerState)
    ensures SellResources(SellResources(s)) == SellResources(s)
  {
  }

  // ---------------------------------------------------------------------
  // Asteroids

  /** The ore of a new asteroid from a uniform draw in [0, 1): the draw is
      divided by 1 + scanner/100, then under 0.1 is gold and under 0.4
      cobalt. */
  function Kind(draw: real, scanner: nat): Resource
  {
    var rand := draw / (1.0 + (scanner as real) / 100.0);
    if rand < 0.1 then Gold else if rand < 0.4 then Cobalt else Iron
  }

  function Rarity(r: Resource): int
  {
    match r
    case Iron => 0
    case Cobalt => 1
    case Gold => 2
  }

  /** A better scanner never makes the same draw yield a commoner ore. */
  lemma ScannerNeverHurts(draw: real, scanner: nat, better: nat)
    requires 0.0 <= draw && scanner <= better
    ensures Rarity(Kind(draw, scanner)) <= Rarity(Kind(draw, better))
  {
    var d1, d2 := 1.0 + (scanner as real) / 100.0, 1.0 + (better as real) / 100.0;
    assert 1.0 <= d1 <= d2;
    assert draw / d2 <= draw / d1 by {
      assert draw / d2 * d2 == draw == draw / d1 * d1;
      assert draw / d1 * d1 <= draw / d1 * d2;
    }
  }

  /** The spawner: with more than 10 asteroids out nothing spawns;
      otherwise an asteroid of `size` (20..60 times the screen scale)
      appears just past the right edge, with full health of
      floor(size * 5 * modifier). */
  function SpawnAsteroid(s: MinerState, id: real, width: real, y: real, size: real, draw: real): (s': MinerState)
    ensures |s.asteroids| > 10 ==> s' == s
    ensures |s.asteroids| <= 10 ==>
              |s'.asteroids| == |s.asteroids| + 1 && s'.asteroids[..|s.asteroids|] == s.asteroids &&
              var a := s'.asteroids[|s.asteroids|];
              a.health == a.maxHealth == (size * 5.0 * HealthModifier(a.kind)).Floor as real &&
              a.kind == Kind(draw, Level(s.levels, Scanner)) && a.x == width + size && a.size == size
    ensures s'.cash == s.cash && s'.cargo == s.cargo && s'.levels == s.levels
  {
    if |s.asteroids| > 10 then s
    else
      var kind := Kind(draw, s.levels.scanner);
      var health := (size * 5.0 * HealthModifier(kind)).Floor as real;
      s.(asteroids := s.asteroids + [Asteroid(id, width + size, y, size, kind, health, health)])
  }

  /** The field never holds more than eleven asteroids. */
  lemma SpawnBounded(s: MinerState, id: real, width: real, y: real, size: real, draw: real)
    requires |s.asteroids| <= 11
    ensures |SpawnAsteroid(s, id, width, y, size, draw).asteroids| <= 11
  {
  }

  /** A spawned asteroid of positive size has positive health. */
  lemma SpawnHealthPositive(s: MinerState, id: real, width: real, y: real, size: real, draw: real)
    requires |s.asteroids| <= 10 && size >= 1.0
    ensures SpawnAsteroid(s, id, width, y, size, draw).asteroids[|s.asteroids|].health >= 5.0
  {
    var kind := Kind(draw, s.levels.scanner);
    assert size * 5.0 * HealthModifier(kind) >= 5.0;
  }

  /** The asteroids whose id differs from `id`, in order. */
  function RemoveId(field: seq<Asteroid>, id: real): (r: seq<Asteroid>)
    ensures forall a :: a in r <==> a in field && a.id != id
    ensures forall a :: multiset(r)[a] == if a.id != id then multiset(field)[a] else 0
    ensures IsSubsequence(r, field)
    ensures |r| <= |field|
  {
    if |field| == 0 then []
    else
      assert field == [field[0]] + field[1..];
      if field[0].id == id then RemoveId(field[1..], id) else [field[0]] + RemoveId(field[1..], id)
  }

  /** Ore recovered from a broken asteroid: a quarter of its unscaled size. */
  function Yield(a: Asteroid, scale: real): int
    requires scale > 0.0
  {
    (a.size / scale / 4.0).Floor
  }

  /** Mining asteroid `k` for `damage`. Its health drops; once it is at or
      below zero the asteroid is taken off the field, and its ore goes in
      the hold when it fits under the capacity, or is lost otherwise. */
  function Mine(s: MinerState, k: nat, damage: real, scale: real): (s': MinerState)
    requires k < |s.asteroids| && scale > 0.0
    ensures var a := s.asteroids[k]; var h := a.health - damage;
            (h > 0.0 ==> s'.asteroids == s.asteroids[k := a.(health := h)] && s'.cargo == s.cargo) &&
            (h <= 0.0 ==> s'.asteroids == RemoveId(s.asteroids, a.id) &&
                          (Total(s.cargo) + Yield(a, scale) <= Capacity(s.levels) ==> s'.cargo == AddOre(s.cargo, a.kind, Yield(a, scale))) &&
                          (Total(s.cargo) + Yield(a, scale) > Capacity(s.levels) ==> s'.cargo == s.cargo))
    ensures s'.cash == s.cash && s'.levels == s.levels
  {
    var a := s.asteroids[k].(health := s.asteroids[k].health - damage);
    if a.health > 0.0 then s.(asteroids := s.asteroids[k := a])
    else
      var n := Yield(a, scale);
      var cargo := if Total(s.cargo) + n <= Capacity(s.levels) then AddOre(s.cargo, a.kind, n) else s.cargo;
      s.(cargo := cargo, asteroids := RemoveId(s.asteroids, a.id))
  }

  /** Mining never overfills the hold. */
  lemma MineKeepsCargoInCapacity(s: MinerState, k: nat, damage: real, scale: real)
    requires k < |s.asteroids| && scale > 0.0
    requires Total(s.cargo) <= Capacity(s.levels)
    ensures Total(Mine(s, k, damage, scale).cargo) <= Capacity(s.levels)
  {
    var a := s.asteroids[k];
    var n := Yield(a, scale);
    if a.health - damage <= 0.0 && Total(s.cargo) + n <= Capacity(s.levels) {
      var c := AddOre(s.cargo, a.kind, n);
      assert Total(c) == Total(s.cargo) + n by {
        assert Amount(c, a.kind) == Amount(s.cargo, a.kind) + n;
        match a.kind
        case Iron =>
        case Cobalt =>
        case Gold =>
      }
    }
  }

  /** Squared distance from (x, y) to the centre of `a`. */
  function Dist2(a: Asteroid, x: real, y: real): real
  {
    (x - a.x) * (x - a.x) + (y - a.y) * (y - a.y)
  }

  /** (x, y) lies inside the disc of `a`. */
  predicate Under(a: Asteroid, x: real, y: real)
  {
    a.size > 0.0 && Dist2(a, x, y) < a.size * a.size
  }

  /** Index of the first asteroid whose disc contains (x, y), if any. */
  function FirstHit(field: seq<Asteroid>, x: real, y: real): (r: Option<nat>)
    ensures r.Some? ==> r.value < |field| && Under(field[r.value], x, y)
    ensures forall i :: 0 <= i < |field| && (r.None? || i < r.value) ==> !Under(field[i], x, y)
  {
    if |field| == 0 then None
    else if Under(field[0], x, y) then Some(0)
    else match FirstHit(field[1..], x, y)
      case None => None
      case Some(i) => Some(i + 1)
  }

  /** A click mines the first asteroid under the pointer for 5 damage per
      laser level. */
  function Click(s: MinerState, x: real, y: real, scale: real): (s': MinerState)
    requires scale > 0.0
    ensures FirstHit(s.asteroids, x, y).None? ==> s' == s
    ensures FirstHit(s.asteroids, x, y).Some? ==>
              s' == Mine(s, FirstHit(s.asteroids, x, y).value, 5.0 * (Level(s.levels, Laser) as real), scale)
  {
    match FirstHit(s.asteroids, x, y)
    case None => s
    case Some(k) => Mine(s, k, 5.0 * (s.levels.laser as real), scale)
  }

  /** Elapsed time of a frame; a zero difference counts as 16.7 ms. */
  function FrameDelta(timestamp: real, lastTime: real): (dt: real)
    ensures dt != 0.0
    ensures timestamp != lastTime ==> dt == timestamp - lastTime
  {
    if timestamp - lastTime == 0.0 then 16.7 else timestamp - lastTime
  }

  /** Asteroids still on screen: those whose right edge has not passed the
      left border. */
  function OnScreen(field: seq<Asteroid>): (r: seq<Asteroid>)
    ensures forall a :: a in r <==> a in field && a.x > -a.size
    ensures IsSubsequence(r, field)
    ensures |r| <= |field|
  {
    if |field| == 0 then []
    else if field[0].x > -field[0].size then [field[0]] + OnScreen(field[1..]) else OnScreen(field[1..])
  }

  /** Each asteroid still on screen is kept as often as it occurs, and
      every other one is dropped. */
  lemma {:induction false} OnScreenCounts(field: seq<Asteroid>)
    ensures forall a :: multiset(OnScreen(field))[a] == if a.x > -a.size then multiset(field)[a] else 0
  {
    if |field| > 0 {
      OnScreenCounts(field[1..]);
      assert field == [field[0]] + field[1..];
    }
  }

  function Drift(field: seq<Asteroid>, scale: real): (r: seq<Asteroid>)
    ensures |r| == |field|
    ensures forall i :: 0 <= i < |field| ==> r[i] == field[i].(x := field[i].x - scale)
  {
    seq(|field|, i requires 0 <= i < |field| => field[i].(x := field[i].x - scale))
  }

  /** One frame of the field: perhaps a spawn, then the drone (if any) grinds
      the front asteroid for 2.5 per level per second, then everything
      drifts left by one scaled unit and what has left the screen goes. */
  function Frame(s: MinerState, dt: real, scale: real, spawn: bool,
                 id: real, width: real, y: real, size: real, draw: real): (s': MinerState)
    requires scale > 0.0
    ensures s'.cash == s.cash && s'.levels == s.levels
    // Off-screen asteroids are dropped; at most one new asteroid per frame.
    ensures forall a :: a in s'.asteroids ==> a.x > -a.size
    ensures |s'.asteroids| <= |s.asteroids| + (if spawn then 1 else 0)
    // Without a drone the hold is untouched, and every asteroid still on
    // screen after drifting left by the scale is kept.
    ensures s.levels.drone == 0 ==> s'.cargo == s.cargo
    ensures !spawn && s.levels.drone == 0 ==>
              forall i :: 0 <= i < |s.asteroids| && s.asteroids[i].x - scale > -s.asteroids[i].size ==>
                s.asteroids[i].(x := s.asteroids[i].x - scale) in s'.asteroids
  {
    var s1 := if spawn then SpawnAsteroid(s, id, width, y, size, draw) else s;
    var s2 := if s.levels.drone > 0 && |s1.asteroids| > 0
              then Mine(s1, 0, (s.levels.drone as real) * 2.5 * (dt / 1000.0), scale) else s1;
    s2.(asteroids := OnScreen(Drift(s2.asteroids, scale)))
  }

  /** The field and hold invariants: at most eleven asteroids, and the hold
      within capacity. */
  ghost predicate Valid(s: MinerState)
  {
    |s.asteroids| <= 11 && Total(s.cargo) <= Capacity(s.levels)
  }

  lemma FrameKeepsValid(s: MinerState, dt: real, scale: real, spawn: bool,
                        id: real, width: real, y: real, size: real, draw: real)
    requires scale > 0.0 && Valid(s)
    ensures Valid(Frame(s, dt, scale, spawn, id, width, y, size, draw))
  {
    var s1 := if spawn then SpawnAsteroid(s, id, width, y, size, draw) else s;
    if s.levels.drone > 0 && |s1.asteroids| > 0 {
      MineKeepsCargoInCapacity(s1, 0, (s.levels.drone as real) * 2.5 * (dt / 1000.0), scale);
    }
  }

  /** Clicks, sales and purchases keep the invariants too; a purchase can
      only raise the capacity. */
  lemma ActionsKeepValid(s: MinerState, x: real, y: real, scale: real, u: Upgrade)
    requires scale > 0.0 && Valid(s)
    ensures Valid(Click(s, x, y, scale))
    ensures Valid(SellResources(s))
    ensures Valid(BuyUpgrade(s, u))
  {
    match FirstHit(s.asteroids, x, y)
    case None =>
    case Some(k) => MineKeepsCargoInCapacity(s, k, 5.0 * (s.levels.laser as real), scale);
    if s.cash >= Cost(u, Level(s.levels, u)) {
      assert Capacity(BuyUpgrade(s, u).levels) >= Capacity(s.levels);
    }
  }
}
