/** Shadow Duel: a timing duel against an AI swordsman. The AI winds up
    (telegraphs), attacks, and either lands a 10-point hit or, when the
    player parried within 250 ms of the blow, is left open for a 15-point
    strike. Every timer callback of the source is an event here; the clock
    reading `Date.now()` is a parameter of the events that read it. */
module ShadowDuel {
  import opened Common
  import Stats

  const MaxHealth: int := 100
  const PlayerDamage: int := 15
  const AiDamage: int := 10
  const ParryWindow: int := 250
  const StrikeReward: int := 100
  const WinBonus: int := 500
  const GameId: string := "shadow-duel"

  datatype Phase = Start | Playing | Win | Lose

  datatype AiState = Idle | Telegraphing | Attacking | Vulnerable | Hit

  /** The duel: game phase, both healths, score, the displayed high score,
      the AI's state and the time of the player's last parry. */
  datatype DuelState = DuelState(
    phase: Phase, playerHealth: int, aiHealth: int, score: int,
    highScore: int, ai: AiState, lastParry: int)

  /** Healths stay within 0..100 and the score is never negative. */
  predicate Valid(s: DuelState)
  {
    0 <= s.playerHealth <= MaxHealth && 0 <= s.aiHealth <= MaxHealth && 0 <= s.score
  }

  /** Restores both healths, calms the AI, clears the score and returns to
      the start screen. The high score and the last parry time are kept. */
  function Reset(s: DuelState): (s': DuelState)
    ensures s'.phase == Start && s'.ai == Idle && s'.score == 0
    ensures s'.playerHealth == MaxHealth && s'.aiHealth == MaxHealth
    ensures s'.highScore == s.highScore && s'.lastParry == s.lastParry
  {
    s.(phase := Start, playerHealth := MaxHealth, aiHealth := MaxHealth, ai := Idle, score := 0)
  }

  /** A click on the canvas outside play starts a fresh duel. */
  function HandleStart(s: DuelState): (s': DuelState)
    ensures s.phase == Playing ==> s' == s
    ensures s.phase != Playing ==> s' == Reset(s).(phase := Playing)
  {
    if s.phase != Playing then Reset(s).(phase := Playing) else s
  }

  /** The AI decides to attack: only from rest and only during play. */
  function AiThink(s: DuelState): (s': DuelState)
    ensures s.ai == Idle && s.phase == Playing ==> s' == s.(ai := Telegraphing)
    ensures !(s.ai == Idle && s.phase == Playing) ==> s' == s
  {
    if s.ai != Idle || s.phase != Playing then s else s.(ai := Telegraphing)
  }

  /** The wind-up timer fires: the blow is under way; nothing but the
      AI's state changes. */
  function AttackStarts(s: DuelState): (s': DuelState)
    ensures s'.ai == Attacking
    ensures s'.(ai := s.ai) == s
  {
    s.(ai := Attacking)
  }

  /** Whether a parry at `lastParry` counters a blow landing at `now`. */
  predicate Parried(lastParry: int, now: int)
  {
    now - lastParry < ParryWindow
  }

  /** The blow lands at time `now`: a recent parry leaves the AI open,
      otherwise the player loses 10 health (never below 0) and the AI rests. */
  function AttackEnds(s: DuelState, now: int): (s': DuelState)
    ensures Parried(s.lastParry, now) ==> s' == s.(ai := Vulnerable)
    ensures !Parried(s.lastParry, now) ==>
              s' == s.(ai := Idle, playerHealth := Max(0, s.playerHealth - AiDamage))
  {
    if Parried(s.lastParry, now) then s.(ai := Vulnerable)
    else s.(playerHealth := Max(0, s.playerHealth - AiDamage), ai := Idle)
  }

  /** The parry button records the time during play and does nothing else. */
  function Parry(s: DuelState, now: int): (s': DuelState)
    ensures s.phase == Playing ==> s' == s.(lastParry := now)
    ensures s.phase != Playing ==> s' == s
  {
    if s.phase != Playing then s else s.(lastParry := now)
  }

  /** The strike button: only an open AI during play can be hit; the hit
      costs it 15 health (never below 0) and earns 100 points. */
  function Strike(s: DuelState): (s': DuelState)
    ensures s.phase == Playing && s.ai == Vulnerable ==>
              s' == s.(aiHealth := Max(0, s.aiHealth - PlayerDamage), score := s.score + StrikeReward, ai := Hit)
    ensures !(s.phase == Playing && s.ai == Vulnerable) ==> s' == s
  {
    if s.phase != Playing || s.ai != Vulnerable then s
    else s.(aiHealth := Max(0, s.aiHealth - PlayerDamage), score := s.score + StrikeReward, ai := Hit)
  }

  /** Half a second after a strike the AI recovers and thinks again. */
  function Recover(s: DuelState): (s': DuelState)
    ensures s.phase == Playing ==> s' == s.(ai := Telegraphing)
    ensures s.phase != Playing ==> s' == s.(ai := Idle)
  {
    AiThink(s.(ai := Idle))
  }

  /** The strike window closes, as the source has it: the callback is the
      plain `aiThink`, which acts only on a resting AI, so an open AI is
      left open. */
  function WindowEndsAsWritten(s: DuelState): (s': DuelState)
    ensures s.ai == Vulnerable ==> s' == s
  {
    AiThink(s)
  }

  /** The strike window closes, as intended: an AI still open closes its
      guard and, during play, winds up its next attack; otherwise the
      callback is the plain `aiThink`. */
  function WindowEnds(s: DuelState): (s': DuelState)
    ensures s.ai == Vulnerable && s.phase == Playing ==> s' == s.(ai := Telegraphing)
    ensures s.ai == Vulnerable && s.phase != Playing ==> s' == s.(ai := Idle)
    ensures s.ai != Vulnerable ==> s' == WindowEndsAsWritten(s)
  {
    if s.ai == Vulnerable then Recover(s) else AiThink(s)
  }

  datatype EndResult = EndResult(state: DuelState, storage: Stats.Storage)

  /** The end-of-duel check, run after every change of phase, health or
      score: a fallen player loses and offers the score to the high-score
      store; a fallen AI gives the player a 500-point bonus, offers the
      bonus-inclusive score and wins. When both have fallen the win check
      runs second and decides. */
  function CheckEnd(s: DuelState, st: Stats.Storage): (r: EndResult)
    ensures s.playerHealth > 0 && s.aiHealth > 0 ==> r == EndResult(s, st)
    ensures s.playerHealth <= 0 && s.aiHealth > 0 ==>
              r.state == s.(phase := Lose, highScore := Max(Stats.GetGameStats(st, GameId).highScore, s.score)) &&
              r.storage == Stats.UpdateHighScore(st, GameId, s.score).storage
    ensures s.aiHealth <= 0 ==>
              r.state.phase == Win && r.state.score == s.score + WinBonus &&
              r.state.highScore >= s.score + WinBonus
    ensures s.playerHealth > 0 && s.aiHealth <= 0 ==>
              r.state == s.(phase := Win, score := s.score + WinBonus,
                            highScore := Max(Stats.GetGameStats(st, GameId).highScore, s.score + WinBonus)) &&
              r.storage == Stats.UpdateHighScore(st, GameId, s.score + WinBonus).storage
    ensures r.state.playerHealth == s.playerHealth && r.state.aiHealth == s.aiHealth && r.state.ai == s.ai
  {
    var lost :=
      if s.playerHealth <= 0 then
        var hs := Stats.UpdateHighScore(st, GameId, s.score);
        EndResult(s.(highScore := hs.highScore, phase := Lose), hs.storage)
      else EndResult(s, st);
    if s.aiHealth <= 0 then
      var hs := Stats.UpdateHighScore(lost.storage, GameId, s.score + WinBonus);
      EndResult(lost.state.(score := s.score + WinBonus, highScore := hs.highScore, phase := Win), hs.storage)
    else lost
  }

  /** Everything that can happen between two end-of-duel checks. */
  datatype Event =
    | Click
    | Think
    | AttackStart
    | AttackEnd(now: int)
    | ParryPress(now: int)
    | StrikePress
    | Recovered
    | WindowClosed

  /** One event. With `asWritten` the events behave as the source runs
      them: the strike window closes through the plain `aiThink`, and the
      half-second recovery after a strike never fires, because the strike's
      score update re-runs the end-of-duel effect, whose cleanup cancels the
      pending timer, and the re-run schedules a new think only for a resting
      AI. Without it the window closes as intended and the recovery runs. */
  function Step(s: DuelState, e: Event, asWritten: bool): (s': DuelState)
    ensures s'.highScore == s.highScore
    ensures e != Click ==> s'.phase == s.phase
    ensures asWritten && e == Recovered ==> s' == s
  {
    match e
    case Click => HandleStart(s)
    case Think => AiThink(s)
    case AttackStart => AttackStarts(s)
    case AttackEnd(now) => AttackEnds(s, now)
    case ParryPress(now) => Parry(s, now)
    case StrikePress => Strike(s)
    case Recovered => if asWritten then s else Recover(s)
    case WindowClosed => if asWritten then WindowEndsAsWritten(s) else WindowEnds(s)
  }

  function Run(s: DuelState, es: seq<Event>, asWritten: bool): (s': DuelState)
    ensures s'.highScore == s.highScore
    decreases |es|
  {
    if |es| == 0 then s else Run(Step(s, es[0], asWritten), es[1..], asWritten)
  }

  /** Whether event `e` can occur in state `s`: the player's clicks and
      buttons at any time, each timer callback only while its timer is
      pending, which the AI's state tells. */
  predicate Pending(s: DuelState, e: Event)
  {
    match e
    case Think => s.ai == Idle
    case AttackStart => s.ai == Telegraphing
    case AttackEnd(_) => s.ai == Attacking
    case Recovered => s.ai == Hit
    case WindowClosed => s.ai == Vulnerable
    case _ => true
  }

  /** Every event of `es` can occur when it comes. */
  predicate Feasible(s: DuelState, es: seq<Event>, asWritten: bool)
    decreases |es|
  {
    |es| == 0 || (Pending(s, es[0]) && Feasible(Step(s, es[0], asWritten), es[1..], asWritten))
  }

  /** Every event keeps healths within 0..100 and the score non-negative. */
  lemma StepKeepsValid(s: DuelState, e: Event, asWritten: bool)
    requires Valid(s)
    ensures Valid(Step(s, e, asWritten))
  {
  }

  lemma {:induction false} RunKeepsValid(s: DuelState, es: seq<Event>, asWritten: bool)
    requires Valid(s)
    ensures Valid(Run(s, es, asWritten))
    decreases |es|
  {
    if |es| > 0 {
      StepKeepsValid(s, es[0], asWritten);
      RunKeepsValid(Step(s, es[0], asWritten), es[1..], asWritten);
    }
  }

  /** The score counts strikes at 100 points each, and the AI's health is
      what those strikes leave of its 100: max(0, 100 - 15 per strike). */
  predicate ScoreMatchesDamage(s: DuelState)
  {
    s.score >= 0 && s.score % StrikeReward == 0 &&
    s.aiHealth == Max(0, MaxHealth - PlayerDamage * (s.score / StrikeReward))
  }

  lemma ResetMatches(s: DuelState)
    ensures ScoreMatchesDamage(Reset(s))
  {
  }

  lemma StrikeKeepsMatch(s: DuelState)
    requires ScoreMatchesDamage(s)
    ensures ScoreMatchesDamage(Strike(s))
  {
    if s.phase == Playing && s.ai == Vulnerable {
      var n := s.score / StrikeReward;
      assert s.score == StrikeReward * n;
      assert (s.score + StrikeReward) / StrikeReward == n + 1;
    }
  }

  /** Between end-of-duel checks the score is exactly 100 per strike and
      the AI's health exactly what the strikes leave. */
  lemma {:induction false} RunKeepsMatch(s: DuelState, es: seq<Event>, asWritten: bool)
    requires ScoreMatchesDamage(s)
    ensures ScoreMatchesDamage(Run(s, es, asWritten))
    decreases |es|
  {
    if |es| > 0 {
      if es[0] == StrikePress {
        StrikeKeepsMatch(s);
      } else if es[0] == Click {
        ResetMatches(s);
      }
      RunKeepsMatch(Step(s, es[0], asWritten), es[1..], asWritten);
    }
  }

  /** Seven strikes bring the AI down (and six do not). */
  lemma SevenStrikesWin(s: DuelState)
    requires ScoreMatchesDamage(s)
    ensures s.aiHealth <= 0 <==> s.score >= 7 * StrikeReward
  {
  }

  /** A parry less than 250 ms before the blow lands saves the player's
      health and opens the AI; a blow with no recent parry costs exactly
      10 health, or whatever is left. */
  lemma ParryBlocksBlow(s: DuelState, t: int, now: int)
    requires s.phase == Playing && s.ai == Attacking && Valid(s)
    ensures t <= now < t + ParryWindow ==>
              var s' := AttackEnds(Parry(s, t), now);
              s'.playerHealth == s.playerHealth && s'.ai == Vulnerable
    ensures !Parried(s.lastParry, now) ==>
              var s' := AttackEnds(s, now);
              s'.playerHealth == s.playerHealth - Min(AiDamage, s.playerHealth) && s'.ai == Idle
  {
  }

  /** Only a parried attack opens the AI to a strike: from a resting AI,
      the wind-up, the blow and a strike score a point only if the player
      parried in time. */
  lemma StrikeNeedsParry(s: DuelState, now: int)
    requires s.phase == Playing && s.ai == Idle
    ensures var s' := Strike(AttackEnds(AttackStarts(AiThink(s)), now));
            s'.score > s.score <==> Parried(s.lastParry, now)
  {
  }

  /** As written, an opened AI never closes its guard: once the strike
      window has passed, a strike still lands, however late. */
  lemma LateStrikeLandsAsWritten(s: DuelState)
    requires s.phase == Playing && s.ai == Vulnerable
    ensures var late := WindowEndsAsWritten(s);
            late.ai == Vulnerable && Strike(late).score == s.score + StrikeReward
  {
  }

  /** As intended, a strike after the window closes is wasted: the AI is
      winding up again and the score does not move. */
  lemma LateStrikeMisses(s: DuelState)
    requires s.phase == Playing && s.ai == Vulnerable
    ensures var late := WindowEnds(s);
            late.ai == Telegraphing && Strike(late) == late
  {
  }

  /** As written, the first strike is the last: once the AI has been hit
      during play, whatever can still happen leaves it in its hit state,
      the score and its health unchanged, so it never drops below 85. */
  lemma {:induction false} HitIsStuckAsWritten(s: DuelState, es: seq<Event>)
    requires s.phase == Playing && s.ai == Hit && Feasible(s, es, true)
    ensures var s' := Run(s, es, true);
            s'.phase == Playing && s'.ai == Hit && s'.score == s.score && s'.aiHealth == s.aiHealth
    decreases |es|
  {
    if |es| > 0 {
      HitIsStuckAsWritten(Step(s, es[0], true), es[1..]);
    }
  }

  /** As intended, the hit AI recovers and the duel goes on: it winds up,
      strikes, and a timely parry opens it to a second strike. */
  lemma SecondStrikeAsIntended(s: DuelState, t: int, now: int)
    requires s.phase == Playing && s.ai == Hit && t <= now < t + ParryWindow
    ensures var es := [Recovered, AttackStart, ParryPress(t), AttackEnd(now), StrikePress];
            Feasible(s, es, false) &&
            Run(s, es, false).score == s.score + StrikeReward &&
            Run(s, es, false).aiHealth == Max(0, s.aiHealth - PlayerDamage)
  {
    var es := [Recovered, AttackStart, ParryPress(t), AttackEnd(now), StrikePress];
    var s1 := Step(s, Recovered, false);
    var s2 := Step(s1, AttackStart, false);
    var s3 := Step(s2, ParryPress(t), false);
    var s4 := Step(s3, AttackEnd(now), false);
    assert s4.ai == Vulnerable;
    assert es[1..] == [AttackStart, ParryPress(t), AttackEnd(now), StrikePress];
    assert es[2..] == [ParryPress(t), AttackEnd(now), StrikePress] == es[1..][1..];
    assert es[3..] == [AttackEnd(now), StrikePress] == es[2..][1..];
    assert es[4..] == [StrikePress] == es[3..][1..];
    assert es[4..][1..] == [];
    assert Run(s4, es[4..], false) == Strike(s4) && Feasible(s4, es[4..], false);
    assert Run(s3, es[3..], false) == Run(s4, es[4..], false) && Feasible(s3, es[3..], false);
    assert Run(s2, es[2..], false) == Run(s3, es[3..], false) && Feasible(s2, es[2..], false);
    assert Run(s1, es[1..], false) == Run(s2, es[2..], false) && Feasible(s1, es[1..], false);
  }

  /** A loss is final: running the end-of-duel check again on its own
      result changes nothing once the player has lost. */
  lemma LossIsSettled(s: DuelState, st: Stats.Storage)
    requires s.playerHealth <= 0 && s.aiHealth > 0
    ensures var r := CheckEnd(s, st);
            CheckEnd(r.state, r.storage).state == r.state
  {
    var r := CheckEnd(s, st);
    Stats.UpdateIdempotent(st, GameId, s.score);
  }
}
