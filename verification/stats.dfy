/** Per-game statistics kept in browser storage under the key
    prefix + game id: a high score and a play count. Storage is a map from
    keys to stored records; a storage that cannot be read or written is
    described by two flags instead of by exceptions. */
module Stats {
  import opened Common

  const Prefix: string := "7k-game-stats-"

  /** What a stored key holds: a parsed record whose fields may be missing,
      or something that does not parse (including an empty string). */
  datatype Stored = Record(highScore: Option<int>, timesPlayed: Option<int>) | Unreadable

  datatype Storage = Storage(readable: bool, writable: bool, items: map<string, Stored>)

  datatype GameStats = GameStats(highScore: int, timesPlayed: int)

  const Defaults: GameStats := GameStats(0, 0)

  function Key(gameId: string): string
  {
    Prefix + gameId
  }

  /** Distinct game ids are stored under distinct keys. */
  lemma KeyInjective(a: string, b: string)
    requires a != b
    ensures Key(a) != Key(b)
  {
    assert Key(a)[|Prefix|..] == a;
    assert Key(b)[|Prefix|..] == b;
  }

  /** Stored fields override the defaults; missing fields keep them. */
  function Merge(rec: Stored): (s: GameStats)
    requires rec.Record?
    ensures rec.highScore.None? ==> s.highScore == 0
    ensures rec.highScore.Some? ==> s.highScore == rec.highScore.value
    ensures rec.timesPlayed.None? ==> s.timesPlayed == 0
    ensures rec.timesPlayed.Some? ==> s.timesPlayed == rec.timesPlayed.value
  {
    GameStats(
      if rec.highScore.Some? then rec.highScore.value else Defaults.highScore,
      if rec.timesPlayed.Some? then rec.timesPlayed.value else Defaults.timesPlayed)
  }

  /** The stats of a game; the defaults when storage cannot be read, the
      key is missing, or its content does not parse. */
  function GetGameStats(st: Storage, gameId: string): (s: GameStats)
    ensures (!st.readable || Key(gameId) !in st.items || st.items[Key(gameId)].Unreadable?) ==> s == Defaults
    ensures st.readable && Key(gameId) in st.items && st.items[Key(gameId)].Record? ==>
              s == Merge(st.items[Key(gameId)])
  {
    if st.readable && Key(gameId) in st.items && st.items[Key(gameId)].Record? then
      Merge(st.items[Key(gameId)])
    else
      Defaults
  }

  /** Writing a full record; a failed write is caught and leaves storage as it was. */
  function Save(st: Storage, gameId: string, s: GameStats): (st': Storage)
    ensures !st.writable ==> st' == st
    ensures st.writable ==> st'.items == st.items[Key(gameId) := Record(Some(s.highScore), Some(s.timesPlayed))]
    ensures st'.readable == st.readable && st'.writable == st.writable
  {
    if st.writable then st.(items := st.items[Key(gameId) := Record(Some(s.highScore), Some(s.timesPlayed))])
    else st
  }

  function IncrementTimesPlayed(st: Storage, gameId: string): (st': Storage)
    // The play count goes up by exactly one and the high score is kept.
    ensures st.readable && st.writable ==>
              GetGameStats(st', gameId) ==
              GameStats(GetGameStats(st, gameId).highScore, GetGameStats(st, gameId).timesPlayed + 1)
    ensures !st.writable ==> st' == st
    // Only this game's key may change.
    ensures forall k :: k != Key(gameId) ==> (k in st'.items <==> k in st.items)
    ensures forall k :: k != Key(gameId) && k in st.items ==> st'.items[k] == st.items[k]
  {
    var s := GetGameStats(st, gameId);
    Save(st, gameId, s.(timesPlayed := s.timesPlayed + 1))
  }

  datatype HighScoreResult = HighScoreResult(storage: Storage, highScore: int)

  /** Records `newScore` when it beats the stored high score; returns the
      high score after the call. */
  function UpdateHighScore(st: Storage, gameId: string, newScore: int): (r: HighScoreResult)
    ensures r.highScore == Max(GetGameStats(st, gameId).highScore, newScore)
    // Storage is written only on a strict improvement.
    ensures newScore <= GetGameStats(st, gameId).highScore ==> r.storage == st
    ensures newScore > GetGameStats(st, gameId).highScore && st.writable ==>
              r.storage.items ==
              st.items[Key(gameId) := Record(Some(newScore), Some(GetGameStats(st, gameId).timesPlayed))]
    ensures forall k :: k != Key(gameId) ==> (k in r.storage.items <==> k in st.items)
    ensures forall k :: k != Key(gameId) && k in st.items ==> r.storage.items[k] == st.items[k]
  {
    var s := GetGameStats(st, gameId);
    if newScore > s.highScore then
      HighScoreResult(Save(st, gameId, s.(highScore := newScore)), newScore)
    else
      HighScoreResult(st, s.highScore)
  }

  /** Updating one game's high score never changes what another game reads. */
  lemma UpdateIsolated(st: Storage, g: string, other: string, score: int)
    requires g != other
    ensures GetGameStats(UpdateHighScore(st, g, score).storage, other) == GetGameStats(st, other)
  {
    KeyInjective(g, other);
  }

  /** Incrementing one game's play count never changes what another game reads. */
  lemma IncrementIsolated(st: Storage, g: string, other: string)
    requires g != other
    ensures GetGameStats(IncrementTimesPlayed(st, g), other) == GetGameStats(st, other)
  {
    KeyInjective(g, other);
  }

  /** A second call with the same score changes nothing and returns the same value. */
  lemma UpdateIdempotent(st: Storage, g: string, score: int)
    ensures var r1 := UpdateHighScore(st, g, score);
            var r2 := UpdateHighScore(r1.storage, g, score);
            r2 == r1
  {
  }

  /** The stored high score never decreases. */
  lemma UpdateMonotone(st: Storage, g: string, score: int)
    ensures GetGameStats(UpdateHighScore(st, g, score).storage, g).highScore >= GetGameStats(st, g).highScore
  {
  }
}
