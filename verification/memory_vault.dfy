/** Memory Vault: sixteen coloured tiles; each level appends one random
    tile to a sequence the player must repeat. A wrong tap ends the game and
    offers the reached level to the high-score store. */
module MemoryVault {
  import opened Common
  import Stats

  const GridSize: nat := 4
  const TileCount: nat := 16
  const ColorCount: nat := 8
  const GameId: string := "memory-vault"

  datatype Phase = Start | Showing | Playing | GameOver

  /** A tile: its id and the index of its colour in the eight-colour palette. */
  datatype Tile = Tile(id: nat, color: nat)

  datatype VaultState = VaultState(
    phase: Phase, level: int, highScore: int,
    sequence: seq<nat>, inputIndex: nat, tiles: seq<Tile>)

  /** The palette indices 0..n-1 in order. */
  function Range(n: nat): (r: seq<nat>)
    ensures |r| == n
    ensures forall x :: x in r ==> x < n
  {
    if n == 0 then [] else Range(n - 1) + [n - 1]
  }

  lemma {:induction false} RangeOnce(n: nat, c: nat)
    ensures multiset(Range(n))[c] == if c < n then 1 else 0
  {
    if n > 0 {
      RangeOnce(n - 1, c);
      assert multiset(Range(n)) == multiset(Range(n - 1)) + multiset{(n - 1) as nat};
    }
  }

  /** The colour pool: the palette twice over. */
  function Pool(): (p: seq<nat>)
    ensures |p| == TileCount
    ensures forall x :: x in p ==> x < ColorCount
  {
    Range(ColorCount) + Range(ColorCount)
  }

  /** Splice-style removal of the element at index k. */
  function RemoveAt(s: seq<nat>, k: nat): (r: seq<nat>)
    requires k < |s|
    ensures |r| == |s| - 1
    ensures multiset(r) + multiset{s[k]} == multiset(s)
    ensures forall x :: x in r ==> x in s
  {
    assert s == s[..k] + [s[k]] + s[k + 1..];
    s[..k] + s[k + 1..]
  }

  /** `picks[i]` is the draw `Math.floor(Math.random() * remaining)` at step i. */
  predicate ValidPicks(picks: seq<nat>)
  {
    |picks| == TileCount && forall i :: 0 <= i < TileCount ==> picks[i] < TileCount - i
  }

  /** Deals the sixteen tiles: tile i takes the colour drawn (and removed)
      from the pool at step i. */
  method GenerateTiles(picks: seq<nat>) returns (tiles: seq<Tile>)
    requires ValidPicks(picks)
    ensures |tiles| == TileCount
    ensures forall i :: 0 <= i < TileCount ==> tiles[i].id == i && tiles[i].color < ColorCount
    ensures multiset(Colors(tiles)) == multiset(Pool())
  {
    assert |Pool()| == TileCount;
    var available: seq<nat> := Pool();
    tiles := [];
    var i := 0;
    while i < TileCount
      invariant 0 <= i <= TileCount
      invariant DealInvariant(tiles, available, i)
    {
      var k := picks[i];
      var t := Tile(i, available[k]);
      var rest := RemoveAt(available, k);
      DealStep(tiles, available, i, k);
      tiles := tiles + [t];
      available := rest;
      i := i + 1;
    }
  }

  /** After dealing i tiles: tile ids are their positions, and the dealt
      colours together with the remaining pool make up the whole pool. */
  ghost predicate DealInvariant(tiles: seq<Tile>, available: seq<nat>, i: nat)
  {
    |tiles| == i && |available| + i == TileCount &&
    (forall j :: 0 <= j < i ==> tiles[j].id == j && tiles[j].color < ColorCount) &&
    (forall x :: x in available ==> x < ColorCount) &&
    multiset(Colors(tiles)) + multiset(available) == multiset(Pool())
  }

  lemma DealStep(tiles: seq<Tile>, available: seq<nat>, i: nat, k: nat)
    requires DealInvariant(tiles, available, i)
    requires k < |available|
    ensures DealInvariant(tiles + [Tile(i, available[k])], RemoveAt(available, k), i + 1)
  {
    var t := Tile(i, available[k]);
    var rest := RemoveAt(available, k);
    var ts := tiles + [t];
    ColorsAppend(tiles, t);
    var a, b, c := multiset(Colors(tiles)), multiset(rest), multiset{t.color};
    assert multiset(Colors(ts)) == a + c;
    assert b + c == multiset(available);
    assert (a + c) + b == a + (b + c);
    forall j | 0 <= j < i + 1 ensures ts[j].id == j && ts[j].color < ColorCount {
      if j == i {
        assert available[k] in available;
      } else {
        assert ts[j] == tiles[j];
      }
    }
  }

  function Colors(tiles: seq<Tile>): (cs: seq<nat>)
    ensures |cs| == |tiles|
    ensures forall i :: 0 <= i < |tiles| ==> cs[i] == tiles[i].color
  {
    seq(|tiles|, i requires 0 <= i < |tiles| => tiles[i].color)
  }

  lemma ColorsAppend(tiles: seq<Tile>, t: Tile)
    ensures Colors(tiles + [t]) == Colors(tiles) + [t.color]
    ensures multiset(Colors(tiles + [t])) == multiset(Colors(tiles)) + multiset{t.color}
  {
    assert Colors(tiles + [t]) == Colors(tiles) + [t.color];
  }

  /** Every palette colour lands on exactly two tiles. */
  lemma EachColorTwice(tiles: seq<Tile>, c: nat)
    requires multiset(Colors(tiles)) == multiset(Pool())
    requires c < ColorCount
    ensures multiset(Colors(tiles))[c] == 2
  {
    RangeOnce(ColorCount, c);
    assert multiset(Pool()) == multiset(Range(ColorCount)) + multiset(Range(ColorCount));
  }

  /** A fresh game waiting for its first tap. */
  method ResetGame(s: VaultState, picks: seq<nat>) returns (s': VaultState)
    requires ValidPicks(picks)
    ensures s'.phase == Start && s'.level == 0 && s'.sequence == [] && s'.inputIndex == 0
    ensures s'.highScore == s.highScore
    ensures |s'.tiles| == TileCount && multiset(Colors(s'.tiles)) == multiset(Pool())
  {
    var tiles := GenerateTiles(picks);
    s' := VaultState(Start, 0, s.highScore, [], 0, tiles);
  }

  /** Starts the next level: one more random tile (`draw`) to remember. */
  function NextLevel(s: VaultState, draw: nat): (s': VaultState)
    requires draw < TileCount
    ensures s'.level == s.level + 1
    ensures s'.sequence == s.sequence + [draw] && |s'.sequence| == |s.sequence| + 1
    ensures s'.inputIndex == 0 && s'.phase == Showing
    ensures s'.tiles == s.tiles && s'.highScore == s.highScore
  {
    s.(level := s.level + 1, sequence := s.sequence + [draw], inputIndex := 0, phase := Showing)
  }

  /** The flashing of the sequence has finished: the player may answer. */
  function FinishShowing(s: VaultState): (s': VaultState)
    ensures s.phase == Showing ==> s' == s.(phase := Playing)
    ensures s.phase != Showing ==> s' == s
  {
    if s.phase == Showing then s.(phase := Playing) else s
  }

  datatype TapResult = TapResult(state: VaultState, storage: Stats.Storage, levelUpScheduled: bool)

  /** A tap on tile `tileId`. A correct tap advances the input index and,
      once the whole sequence is repeated, schedules the next level; a wrong
      tap (including any tap once the sequence is complete) ends the game. */
  function HandlePlayerInput(s: VaultState, st: Stats.Storage, tileId: nat): (r: TapResult)
    ensures s.phase != Playing ==> r == TapResult(s, st, false)
    ensures s.phase == Playing && s.inputIndex < |s.sequence| && tileId == s.sequence[s.inputIndex] ==>
              r.state == s.(inputIndex := s.inputIndex + 1) && r.storage == st &&
              (r.levelUpScheduled <==> s.inputIndex + 1 >= |s.sequence|)
    ensures s.phase == Playing && !(s.inputIndex < |s.sequence| && tileId == s.sequence[s.inputIndex]) ==>
              r.state.phase == GameOver && r.state.level == s.level && !r.levelUpScheduled &&
              r.state.highScore == Max(Stats.GetGameStats(st, GameId).highScore, s.level) &&
              r.storage == Stats.UpdateHighScore(st, GameId, s.level).storage
  {
    if s.phase != Playing then TapResult(s, st, false)
    else if s.inputIndex < |s.sequence| && tileId == s.sequence[s.inputIndex] then
      var idx := s.inputIndex + 1;
      TapResult(s.(inputIndex := idx), st, idx >= |s.sequence|)
    else
      var hs := Stats.UpdateHighScore(st, GameId, s.level);
      TapResult(s.(highScore := hs.highScore, phase := GameOver), hs.storage, false)
  }

  /** Taps of the sequence's own prefix keep the game going: after tapping
      the first k entries correctly the input index is k. */
  function TapAll(s: VaultState, st: Stats.Storage, taps: seq<nat>): (r: TapResult)
    decreases |taps|
  {
    if |taps| == 0 then TapResult(s, st, false)
    else
      var r1 := HandlePlayerInput(s, st, taps[0]);
      if |taps| == 1 then r1 else TapAll(r1.state, r1.storage, taps[1..])
  }

  lemma {:induction false} CorrectPrefixAdvances(s: VaultState, st: Stats.Storage, k: nat)
    requires s.phase == Playing && s.inputIndex == 0
    requires 0 < k <= |s.sequence|
    ensures TapAll(s, st, s.sequence[..k]).state == s.(inputIndex := k)
    ensures TapAll(s, st, s.sequence[..k]).levelUpScheduled <==> k == |s.sequence|
    ensures TapAll(s, st, s.sequence[..k]).storage == st
  {
    assert s.sequence[0..k] == s.sequence[..k];
    CorrectPrefixFrom(s, st, 0, k);
  }

  lemma {:induction false} CorrectPrefixFrom(s: VaultState, st: Stats.Storage, i: nat, k: nat)
    requires s.phase == Playing && s.inputIndex == i
    requires i < k <= |s.sequence|
    ensures TapAll(s, st, s.sequence[i..k]).state == s.(inputIndex := k)
    ensures TapAll(s, st, s.sequence[i..k]).levelUpScheduled <==> k == |s.sequence|
    ensures TapAll(s, st, s.sequence[i..k]).storage == st
    decreases k - i
  {
    var taps := s.sequence[i..k];
    var r1 := HandlePlayerInput(s, st, taps[0]);
    assert r1.state == s.(inputIndex := i + 1);
    if k > i + 1 {
      assert taps[1..] == r1.state.sequence[i + 1..k];
      CorrectPrefixFrom(r1.state, st, i + 1, k);
    }
  }

  /** A canvas click outside play: from the title screen it starts level 1,
      from game over it returns to the title screen. */
  method StartClick(s: VaultState, picks: seq<nat>, draw: nat) returns (s': VaultState)
    requires ValidPicks(picks) && draw < TileCount
    ensures s.phase == Start ==> s'.phase == Showing && s'.level == 1 && |s'.sequence| == 1 && s'.sequence[0] == draw
    ensures s.phase == GameOver ==> s'.phase == Start && s'.level == 0 && s'.sequence == []
    ensures s.phase == Showing || s.phase == Playing ==> s' == s
    ensures s'.highScore == s.highScore
  {
    if s.phase == Start {
      var initial := ResetGame(s, picks);
      s' := NextLevel(initial, draw);
    } else if s.phase == GameOver {
      s' := ResetGame(s, picks);
    } else {
      s' := s;
    }
  }
}
