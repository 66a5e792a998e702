/** City Builder Lite: a 12 x 12 plot on which the player buys buildings.
    Every second each building adds its effects to the city's cash,
    population, happiness and power; a power shortage cuts the cash income
    and upsets the citizens. Cash is a real (income is scaled by an
    efficiency factor); the other resources are integers. */
module CityBuilder {
  import opened Common

  const Size: int := 12

  datatype Kind = Residential | Commercial | Power | Park

  /** Per-second effect of a building, or a sum of them. */
  datatype Effect = Effect(cash: int, population: int, happiness: int, power: int)

  function Plus(a: Effect, b: Effect): Effect
  {
    Effect(a.cash + b.cash, a.population + b.population, a.happiness + b.happiness, a.power + b.power)
  }

  function Minus(a: Effect, b: Effect): Effect
  {
    Effect(a.cash - b.cash, a.population - b.population, a.happiness - b.happiness, a.power - b.power)
  }

  const NoEffect: Effect := Effect(0, 0, 0, 0)

  function Cost(k: Kind): int
  {
    match k
    case Residential => 100
    case Commercial => 250
    case Power => 400
    case Park => 150
  }

  /** Per-second effects of each kind of building. */
  const EffectTable: map<Kind, Effect> :=
    map[Residential := Effect(2, 5, 0, -1), Commercial := Effect(10, 0, -2, -3),
        Power := Effect(-1, 0, 0, 10), Park := Effect(-1, 0, 5, 0)]

  lemma TableHasAll(k: Kind)
    ensures k in EffectTable
  {
    match k
    case Residential =>
    case Commercial =>
    case Power =>
    case Park =>
  }

  function Effects(k: Kind): Effect
  {
    TableHasAll(k);
    EffectTable[k]
  }

  /** Effect of one plot cell: an empty cell does nothing. */
  function CellEffect(c: Option<Kind>): Effect
  {
    match c
    case None => NoEffect
    case Some(k) => Effects(k)
  }

  type Plot = seq<seq<Option<Kind>>>

  datatype Resources = Resources(cash: real, population: int, happiness: int, power: int)

  datatype CityState = CityState(plot: Plot, res: Resources, placing: Option<Kind>)

  predicate ValidPlot(g: Plot)
  {
    IsGrid(g, Size, Size)
  }

  /** An empty plot, 500 cash, no citizens, happiness 50 and 10 power. */
  function Initial(): (s: CityState)
    ensures ValidPlot(s.plot) && s.placing.None?
    ensures forall r, c :: 0 <= r < Size && 0 <= c < Size ==> s.plot[r][c].None?
    ensures s.res == Resources(500.0, 0, 50, 10)
  {
    CityState(Fill(Size, Size, None), Resources(500.0, 0, 50, 10), None)
  }

  /** Choosing a building in the build menu. */
  function Select(s: CityState, k: Kind): (s': CityState)
    ensures s'.placing == Some(k) && s'.plot == s.plot && s'.res == s.res
  {
    s.(placing := Some(k))
  }

  // ---------------------------------------------------------------------
  // Placement

  /** What became of a press: refused for one of three reasons, outside
      the plot altogether, or a building placed. */
  datatype Placement = NothingSelected | NotEnoughCash | Occupied | OffPlot | Placed

  datatype PlaceResult = PlaceResult(state: CityState, outcome: Placement)

  /** Placing the selected building at (row, col). It is refused, with
      nothing changed, when nothing is selected, when the cash is short of
      the price, or when the cell is taken (checked in that order). */
  function Place(s: CityState, row: nat, col: nat): (r: PlaceResult)
    requires ValidPlot(s.plot) && row < Size && col < Size
    ensures r.outcome != Placed <==> r.state == s
    ensures r.outcome != OffPlot
    ensures r.outcome == NothingSelected <==> s.placing.None?
    ensures r.outcome == NotEnoughCash <==> s.placing.Some? && s.res.cash < Cost(s.placing.value) as real
    ensures r.outcome == Occupied <==>
              s.placing.Some? && s.res.cash >= Cost(s.placing.value) as real && s.plot[row][col].Some?
    ensures r.outcome == Placed ==>
              var k := s.placing.value;
              r.state.res == s.res.(cash := s.res.cash - Cost(k) as real) &&
              ValidPlot(r.state.plot) && r.state.plot[row][col] == Some(k) &&
              (forall i, j :: 0 <= i < Size && 0 <= j < Size && (i != row || j != col) ==>
                 r.state.plot[i][j] == s.plot[i][j]) &&
              r.state.placing.None?
  {
    match s.placing
    case None => PlaceResult(s, NothingSelected)
    case Some(k) =>
      if s.res.cash < Cost(k) as real then PlaceResult(s, NotEnoughCash)
      else if s.plot[row][col].Some? then PlaceResult(s, Occupied)
      else
        var plot := Set2(s.plot, row, col, Some(k));
        assert plot[row][col] == Some(k) != s.plot[row][col];
        PlaceResult(CityState(plot, s.res.(cash := s.res.cash - Cost(k) as real), None), Placed)
  }

  /** A press on the canvas: the cell under the pointer, if it is on the
      plot, gets the selected building; a press off the plot is ignored. */
  function Press(s: CityState, x: real, y: real, gridX: real, gridY: real, cellSize: real): (r: PlaceResult)
    requires ValidPlot(s.plot) && cellSize > 0.0
    ensures var col, row := ((x - gridX) / cellSize).Floor, ((y - gridY) / cellSize).Floor;
            (0 <= row < Size && 0 <= col < Size ==> r == Place(s, row, col)) &&
            (!(0 <= row < Size && 0 <= col < Size) ==> r == PlaceResult(s, OffPlot))
    ensures r.outcome != Placed <==> r.state == s
  {
    var col, row := ((x - gridX) / cellSize).Floor, ((y - gridY) / cellSize).Floor;
    if 0 <= row < Size && 0 <= col < Size then Place(s, row, col)
    else PlaceResult(s, OffPlot)
  }

  // ---------------------------------------------------------------------
  // The per-second tick

  function RowTotal(row: seq<Option<Kind>>): Effect
  {
    if |row| == 0 then NoEffect else Plus(CellEffect(row[0]), RowTotal(row[1..]))
  }

  /** Sum of the effects of every building on the plot. */
  function Totals(g: Plot): Effect
  {
    if |g| == 0 then NoEffect else Plus(RowTotal(g[0]), Totals(g[1..]))
  }

  /** How many buildings of each kind there are. */
  datatype Census = Census(residential: int, commercial: int, power: int, park: int)

  /** One building of each kind, as a head count. */
  const UnitTable: map<Kind, Census> :=
    map[Residential := Census(1, 0, 0, 0), Commercial := Census(0, 1, 0, 0),
        Power := Census(0, 0, 1, 0), Park := Census(0, 0, 0, 1)]

  lemma UnitTableHasAll(k: Kind)
    ensures k in UnitTable
  {
    match k
    case Residential =>
    case Commercial =>
    case Power =>
    case Park =>
  }

  function Tally(n: Census, c: Option<Kind>): Census
  {
    match c
    case None => n
    case Some(k) =>
      UnitTableHasAll(k);
      var u := UnitTable[k];
      Census(n.residential + u.residential, n.commercial + u.commercial, n.power + u.power, n.park + u.park)
  }

  function RowCensus(row: seq<Option<Kind>>, n: Census): Census
  {
    if |row| == 0 then n else RowCensus(row[1..], Tally(n, row[0]))
  }

  function PlotCensus(g: Plot, n: Census): Census
  {
    if |g| == 0 then n else PlotCensus(g[1..], RowCensus(g[0], n))
  }

  /** The totals counted by kind: each kind's effect times the number of
      buildings of that kind, written out per resource. */
  function ByKind(n: Census): Effect
  {
    Effect(2 * n.residential + 10 * n.commercial - n.power - n.park,
           5 * n.residential,
           5 * n.park - 2 * n.commercial,
           10 * n.power - n.residential - 3 * n.commercial)
  }

  lemma TallyByKind(n: Census, c: Option<Kind>)
    ensures ByKind(Tally(n, c)) == Plus(ByKind(n), CellEffect(c))
  {
    match c
    case None =>
    case Some(k) =>
      match k
      case Residential =>
      case Commercial =>
      case Power =>
      case Park =>
  }

  lemma {:induction false} RowByKind(row: seq<Option<Kind>>, n: Census)
    ensures Plus(ByKind(n), RowTotal(row)) == ByKind(RowCensus(row, n))
  {
    if |row| > 0 {
      TallyByKind(n, row[0]);
      RowByKind(row[1..], Tally(n, row[0]));
    }
  }

  /** Summing cell by cell and counting kinds give the same totals. */
  lemma {:induction false} TotalsByKind(g: Plot, n: Census)
    ensures Plus(ByKind(n), Totals(g)) == ByKind(PlotCensus(g, n))
  {
    if |g| > 0 {
      RowByKind(g[0], n);
      TotalsByKind(g[1..], RowCensus(g[0], n));
    }
  }

  lemma PlusAssoc(a: Effect, b: Effect, c: Effect)
    ensures Plus(a, Plus(b, c)) == Plus(Plus(a, b), c)
  {
  }

  /** Filling an empty cell of a row adds that building's effect. */
  lemma {:induction false} RowTotalFill(row: seq<Option<Kind>>, c: nat, k: Kind)
    requires c < |row| && row[c].None?
    ensures RowTotal(row[c := Some(k)]) == Plus(RowTotal(row), Effects(k))
  {
    var row' := row[c := Some(k)];
    if c == 0 {
      assert row'[1..] == row[1..];
      assert RowTotal(row) == Plus(NoEffect, RowTotal(row[1..]));
    } else {
      assert row'[1..] == row[1..][c - 1 := Some(k)];
      RowTotalFill(row[1..], c - 1, k);
      PlusAssoc(CellEffect(row[0]), RowTotal(row[1..]), Effects(k));
    }
  }

  /** Replacing row `r` by one whose total is larger by `e` adds `e`. */
  lemma {:induction false} TotalsRowGrows(g: Plot, r: nat, row: seq<Option<Kind>>, e: Effect)
    requires r < |g| && RowTotal(row) == Plus(RowTotal(g[r]), e)
    ensures Totals(g[r := row]) == Plus(Totals(g), e)
  {
    if r == 0 {
      assert g[r := row][1..] == g[1..];
    } else {
      var g' := g[r := row];
      assert g'[0] == g[0];
      assert g'[1..] == g[1..][r - 1 := row];
      assert g[1..][r - 1] == g[r];
      TotalsRowGrows(g[1..], r - 1, row, e);
      assert Totals(g') == Plus(RowTotal(g[0]), Totals(g'[1..]));
      PlusAssoc(RowTotal(g[0]), Totals(g[1..]), e);
    }
  }

  /** A placed building adds exactly its own effects to the next ticks. */
  lemma PlacementAddsEffects(s: CityState, row: nat, col: nat)
    requires ValidPlot(s.plot) && row < Size && col < Size
    requires Place(s, row, col).outcome == Placed
    ensures Totals(Place(s, row, col).state.plot) == Plus(Totals(s.plot), Effects(s.placing.value))
  {
    var k := s.placing.value;
    var g := s.plot;
    assert Place(s, row, col).state.plot == g[row := g[row][col := Some(k)]];
    RowTotalFill(g[row], col, k);
    TotalsRowGrows(g, row, g[row][col := Some(k)], Effects(k));
  }

  /** Income factor: 1 with enough power; otherwise one minus the shortfall
      over the current power (at least 10), but never below 0.1. */
  function Efficiency(power: int, delta: int): (e: real)
    ensures Max(0, -(power + delta)) == 0 ==> e == 1.0
    ensures Max(0, -(power + delta)) > 0 ==> 0.1 <= e < 1.0
  {
    var deficit := Max(0, -(power + delta));
    if deficit > 0 then
      var r := 1.0 - (deficit as real) / (Max(10, power) as real);
      assert (deficit as real) / (Max(10, power) as real) > 0.0;
      if 0.1 >= r then 0.1 else r
    else 1.0
  }

  function Clamp(v: int, lo: int, hi: int): (r: int)
    requires lo <= hi
    ensures lo <= r <= hi
    ensures lo <= v <= hi ==> r == v
    ensures v < lo ==> r == lo
    ensures v > hi ==> r == hi
  {
    Max(lo, Min(hi, v))
  }

  /** The cash a tick brings in: the buildings' cash total scaled by the
      efficiency, so between a tenth of it and all of it. */
  function Income(cash: int, power: int, delta: int): (r: real)
    ensures power + delta >= 0 ==> r == cash as real
    ensures cash >= 0 ==> 0.1 * (cash as real) <= r <= cash as real
    ensures cash < 0 ==> cash as real <= r <= 0.1 * (cash as real)
  {
    var f := Efficiency(power, delta);
    ScaleBetween(cash as real, f);
    (cash as real) * f
  }

  lemma ScaleBetween(c: real, f: real)
    requires 0.1 <= f <= 1.0
    ensures c >= 0.0 ==> 0.1 * c <= c * f <= c
    ensures c < 0.0 ==> c <= c * f <= 0.1 * c
  {
    var d := if c >= 0.0 then c else -c;
    MulNonneg(d, f - 0.1);
    MulNonneg(d, 1.0 - f);
  }

  lemma MulNonneg(a: real, b: real)
    requires a >= 0.0 && b >= 0.0
    ensures a * b >= 0.0
  {
  }

  /** Change of happiness in a tick: the buildings' total, minus 2 during a
      power cut and minus 1 while in debt. */
  function Mood(happiness: int, cut: bool, debt: bool): int
  {
    happiness - (if cut then 2 else 0) - (if debt then 1 else 0)
  }

  /** One second of the resources under the buildings' totals `e`: the
      effects are added, the cash income scaled by the efficiency, and
      happiness moves by its change, held within 0..100. */
  function Step(res: Resources, e: Effect): (r: Resources)
    ensures r.population == res.population + e.population && r.power == res.power + e.power
    ensures res.power + e.power >= 0 ==> r.cash == res.cash + e.cash as real
    ensures r.cash - res.cash == Income(e.cash, res.power, e.power)
    ensures 0 <= r.happiness <= 100
    ensures r.happiness == Clamp(res.happiness + Mood(e.happiness, res.power + e.power < 0, res.cash < 0.0), 0, 100)
  {
    var change := Mood(e.happiness, res.power + e.power < 0, res.cash < 0.0);
    Resources(res.cash + Income(e.cash, res.power, e.power), res.population + e.population,
              Clamp(res.happiness + change, 0, 100), res.power + e.power)
  }

  /** One second of the city. */
  function Tick(s: CityState): (s': CityState)
    ensures s'.plot == s.plot && s'.placing == s.placing
    ensures s'.res == Step(s.res, Totals(s.plot))
  {
    s.(res := Step(s.res, Totals(s.plot)))
  }

  /** The tick by head count: 5 citizens per apartment; 10 power per solar
      farm less 1 per apartment and 3 per factory; with power to spare,
      2 cash per apartment and 10 per factory less 1 per farm and park.
      TotalsByKind supplies `ByKind` for a real plot. */
  lemma StepByCensus(res: Resources, n: Census)
    ensures var r := Step(res, ByKind(n));
            r.population == res.population + 5 * n.residential &&
            r.power == res.power - n.residential - 3 * n.commercial + 10 * n.power &&
            (r.power >= 0 ==> r.cash == res.cash + (2 * n.residential + 10 * n.commercial - n.power - n.park) as real)
  {
  }

  /** An empty plot earns and costs nothing. */
  lemma {:induction false} EmptyPlotIsIdle(g: Plot)
    requires forall r, c :: 0 <= r < |g| && 0 <= c < |g[r]| ==> g[r][c].None?
    ensures Totals(g) == NoEffect
  {
    if |g| > 0 {
      EmptyRowIsIdle(g[0]);
      EmptyPlotIsIdle(g[1..]);
    }
  }

  lemma {:induction false} EmptyRowIsIdle(row: seq<Option<Kind>>)
    requires forall c :: 0 <= c < |row| ==> row[c].None?
    ensures RowTotal(row) == NoEffect
  {
    if |row| > 0 {
      EmptyRowIsIdle(row[1..]);
    }
  }
}
