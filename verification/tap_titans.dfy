/** Tap Titans: four players share one screen, one quadrant each, and tap
    to damage a boss. Each counted tap deals a random 5..9 damage to the boss
    and credits it to the tapping player's score. */
module TapTitans {
  import opened Common

  const MaxHealth: int := 5000
  const Players: nat := 4

  datatype Phase = Start | Playing | End

  datatype TitanState = TitanState(phase: Phase, bossHealth: int, scores: seq<int>)

  /** One touch point in canvas coordinates, with the random draw
      (`Math.floor(Math.random() * 5)`, so 0..4) that fixes its damage. */
  datatype Touch = Touch(x: real, y: real, draw: int)

  predicate ValidDraws(ts: seq<Touch>)
  {
    forall i :: 0 <= i < |ts| ==> 0 <= ts[i].draw < 5
  }

  function Sum(s: seq<int>): int
  {
    if |s| == 0 then 0 else s[0] + Sum(s[1..])
  }

  function Reset(): (s: TitanState)
    ensures s.phase == Start && s.bossHealth == MaxHealth
    ensures |s.scores| == Players && forall i :: 0 <= i < Players ==> s.scores[i] == 0
  {
    TitanState(Start, MaxHealth, [0, 0, 0, 0])
  }

  /** Quadrant of a touch: 0 top-left, 1 top-right, 2 bottom-left,
      3 bottom-right; a point on either midline belongs to nobody. */
  function Quadrant(x: real, y: real, width: real, height: real): (q: Option<nat>)
    ensures q.Some? <==> x != width / 2.0 && y != height / 2.0
    ensures q.Some? ==> q.value < Players
    ensures q == Some(0) <==> x < width / 2.0 && y < height / 2.0
    ensures q == Some(1) <==> x > width / 2.0 && y < height / 2.0
    ensures q == Some(2) <==> x < width / 2.0 && y > height / 2.0
    ensures q == Some(3) <==> x > width / 2.0 && y > height / 2.0
  {
    if x < width / 2.0 && y < height / 2.0 then Some(0)
    else if x > width / 2.0 && y < height / 2.0 then Some(1)
    else if x < width / 2.0 && y > height / 2.0 then Some(2)
    else if x > width / 2.0 && y > height / 2.0 then Some(3)
    else None
  }

  function Damage(draw: int): int { 5 + draw }

  /** Applies one counted hit of `damage` by player `p`. */
  function Hit(s: TitanState, p: nat, damage: int): (s': TitanState)
    requires p < |s.scores|
    requires 5 <= damage <= 9
    ensures s'.bossHealth == Max(0, s.bossHealth - damage)
    ensures |s'.scores| == |s.scores| && s'.scores[p] == s.scores[p] + damage
    ensures forall i :: 0 <= i < |s.scores| && i != p ==> s'.scores[i] == s.scores[i]
    ensures s'.phase == s.phase
  {
    s.(bossHealth := Max(0, s.bossHealth - damage), scores := s.scores[p := s.scores[p] + damage])
  }

  /** A tap event with all its touch points, processed in order. Outside
      play a tap changes nothing. */
  function HandleTap(s: TitanState, touches: seq<Touch>, width: real, height: real): (s': TitanState)
    requires |s.scores| == Players
    requires ValidDraws(touches)
    ensures s.phase != Playing ==> s' == s
    ensures |s'.scores| == Players && s'.phase == s.phase
    ensures s'.bossHealth <= Max(0, s.bossHealth) || s' == s
    ensures forall i :: 0 <= i < Players ==> s'.scores[i] >= s.scores[i]
    decreases |touches|
  {
    if s.phase != Playing || |touches| == 0 then s
    else
      var t := touches[0];
      var next := match Quadrant(t.x, t.y, width, height)
                  case Some(p) => Hit(s, p, Damage(t.draw))
                  case None => s;
      HandleTap(next, touches[1..], width, height)
  }

  /** The boss-defeated effect: reaching zero health while playing ends the game. */
  function CheckEnd(s: TitanState): (s': TitanState)
    ensures s.phase == Playing && s.bossHealth <= 0 ==> s'.phase == End
    ensures !(s.phase == Playing && s.bossHealth <= 0) ==> s' == s
    ensures s'.bossHealth == s.bossHealth && s'.scores == s.scores
  {
    if s.phase == Playing && s.bossHealth <= 0 then s.(phase := End) else s
  }

  /** A click or touch outside play restarts the game. */
  function StartInteraction(s: TitanState): (s': TitanState)
    ensures s.phase == Playing ==> s' == s
    ensures s.phase != Playing ==> s' == Reset().(phase := Playing)
  {
    if s.phase != Playing then Reset().(phase := Playing) else s
  }

  /** The reported winner: the first index holding the highest score. */
  function Winner(scores: seq<int>): (w: nat)
    requires |scores| > 0
    ensures w < |scores|
    ensures forall i :: 0 <= i < |scores| ==> scores[i] <= scores[w]
    ensures forall i :: 0 <= i < w ==> scores[i] < scores[w]
  {
    FirstArgMax(scores)
  }

  /** Boss health is the damage budget left over after everything scored:
      max(0, 5000 - total score). */
  ghost predicate HealthMatchesScores(s: TitanState)
  {
    s.bossHealth == Max(0, MaxHealth - Sum(s.scores))
  }

  lemma {:induction false} SumUpdate(s: seq<int>, p: nat, d: int)
    requires p < |s|
    ensures Sum(s[p := s[p] + d]) == Sum(s) + d
  {
    if p == 0 {
      assert s[p := s[p] + d][1..] == s[1..];
    } else {
      assert s[p := s[p] + d][1..] == s[1..][p - 1 := s[p] + d];
      SumUpdate(s[1..], p - 1, d);
    }
  }

  lemma ResetHealthMatches()
    ensures HealthMatchesScores(Reset())
  {
    assert Sum([0, 0, 0, 0]) == 0;
  }

  /** Every tap keeps boss health equal to max(0, 5000 - total score). */
  lemma {:induction false} TapKeepsHealthMatching(s: TitanState, touches: seq<Touch>, width: real, height: real)
    requires |s.scores| == Players && ValidDraws(touches)
    requires HealthMatchesScores(s)
    ensures HealthMatchesScores(HandleTap(s, touches, width, height))
    decreases |touches|
  {
    if s.phase == Playing && |touches| > 0 {
      var t := touches[0];
      match Quadrant(t.x, t.y, width, height)
      case Some(p) =>
        var next := Hit(s, p, Damage(t.draw));
        SumUpdate(s.scores, p, Damage(t.draw));
        TapKeepsHealthMatching(next, touches[1..], width, height);
      case None =>
        TapKeepsHealthMatching(s, touches[1..], width, height);
    }
  }
}
