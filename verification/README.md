# 7k Playgames minigames in Dafny

7k Playgames is a browser hub of small canvas games written in React and
TypeScript. This project models the game logic of nine of those games and two
shared pieces:

- the per-game statistics store kept in browser local storage;
- the hub's favourites list and catalogue tabs.

The nine games are:

- Chess Blitz: chess against a greedy computer, with clocks and power-ups.
- Mind Merge: an Onet-style pair-matching puzzle with a path of at most two bends.
- Maze Escape: a two-player co-operative maze with traps and abilities.
- Last Square Standing: a two-player floor that crumbles under the players' feet.
- Memory Vault: repeat a growing sequence of tiles.
- Space Miner Tycoon: mine asteroids, sell ore and buy upgrades.
- City Builder Lite: place buildings and watch the resources tick.
- Shadow Duel: parry the computer's attack, then strike.
- Tap Titans: four players tap a shared boss down.

Every game state is an immutable datatype, and every handler is a pure
function or method from the old state to the new one. Inputs from outside the
program become parameters:

- random draws;
- timestamps;
- canvas geometry and pointer positions;
- the contents of local storage.

Timer callbacks become separate event functions. Shadow Duel's events are also
collected in an `Event` datatype and replayed by `Run`, either as the game
runs them or as intended.

The modules are `Common` (shared helpers), `Stats`, `Hub`, `Chess`,
`MindMerge`, `MazeEscape`, `LastSquare`, `MemoryVault`, `SpaceMiner`,
`CityBuilder`, `ShadowDuel` and `TapTitans`. There is one file per module.

## Model

| member | source | states |
|---|---|---|
| Stats.KeyInjective | utils/statsManager.ts:2 | Different game ids never share a storage key, so one game's record never shadows another's. |
| Stats.Merge | utils/statsManager.ts:12-13 | A stored record is merged over the defaults: a missing field reads as 0 and a present one is taken as stored. |
| Stats.GetGameStats | utils/statsManager.ts:9-18 | Unreadable storage, a missing key or an unparsable record yields the defaults (0, 0); otherwise the record merged over the defaults. |
| Stats.IncrementTimesPlayed | utils/statsManager.ts:20-28 | On working storage the play count read back afterwards is one more than before and the high score is unchanged; unwritable storage is left as it is; no other key changes. |
| Stats.UpdateHighScore | utils/statsManager.ts:30-41 | The returned high score is the larger of the stored one and the new score; storage is written only on a strict improvement, with the play count kept; no other key changes. |
| Stats.UpdateIsolated | utils/statsManager.ts:30-41 | Updating one game's high score leaves every other game's statistics as they read before. |
| Stats.IncrementIsolated | utils/statsManager.ts:20-28 | Counting a play of one game leaves every other game's statistics as they read before. |
| Stats.UpdateIdempotent | utils/statsManager.ts:30-41 | Offering the same score twice has the effect of offering it once. |
| Stats.UpdateMonotone | utils/statsManager.ts:30-41 | The stored high score never goes down. |
| Hub.Filter | App.tsx:34-45 | Array filtering keeps exactly the elements satisfying the predicate, each as often as it occurs, and drops every other, in their original order (a subsequence). |
| Hub.RemoveAll | App.tsx:29 | Removing an id keeps every other favourite as often as it occurs, in order, and drops every copy of the id. |
| Hub.ToggleFavorite | App.tsx:25-31 | Toggling removes a present id and appends an absent one; membership of every other id is unchanged. |
| Hub.RemoveAllKeepsNoDuplicates | App.tsx:29 | Removal keeps a duplicate-free favourites list duplicate-free. |
| Hub.ToggleKeepsNoDuplicates | App.tsx:25-31 | Toggling keeps a duplicate-free favourites list duplicate-free. |
| Hub.ToggleTwiceRestores | App.tsx:25-31 | Favouriting and then unfavouriting a game restores the original list exactly. |
| Hub.RemoveAllAppended | App.tsx:29-30 | Removing the id just appended gives back the list before the append. |
| Hub.FilteredGames | App.tsx:34-45 | The All tab shows the catalogue as it is; the other tabs show, in catalogue order and with their multiplicities, exactly the solo games, the multiplayer games or the favourited games. |
| Hub.TabsPartitionCatalogue | App.tsx:36-39 | The Solo and Multiplayer tabs together list every catalogue game exactly once. |
| Chess.InitialBoard | components/games/ChessBlitz.tsx:31-41 | Black's back rank and pawns occupy rows 0 and 1, white's occupy rows 7 and 6 in the order rook, knight, bishop, queen, king, bishop, knight, rook, and rows 2 to 5 are empty. |
| Chess.InitialBoardMirrored | components/games/ChessBlitz.tsx:33-40 | The initial set-up is symmetric: each white square is the colour-swapped mirror of the black one. |
| Chess.ProbeAt | components/games/ChessBlitz.tsx:121-129 | A target is recorded exactly when it is on the board, not held by the mover's colour, holds an enemy if capture is required and is empty if capture is forbidden; a slide continues exactly past recorded empty squares. |
| Chess.PawnMoves | components/games/ChessBlitz.tsx:131-139 | Every pawn target is on the board and not held by the mover's colour. |
| Chess.PawnMovesSpec | components/games/ChessBlitz.tsx:131-139 | A pawn's targets are exactly: one empty square ahead; two ahead from the start row when both squares are empty; a diagonal capture of an enemy. |
| Chess.PawnRules | components/games/ChessBlitz.tsx:131-139 | The unfiltered move list of a pawn is exactly what the pawn rules allow. |
| Chess.Ray | components/games/ChessBlitz.tsx:141-146 | Every square of a slide is on the board and not held by the mover's colour. |
| Chess.RayStart | components/games/ChessBlitz.tsx:143-144 | A slide begins at the first square past the piece and is empty exactly when that square is off the board or friendly. |
| Chess.RaySteps | components/games/ChessBlitz.tsx:144-146 | A slide advances one step at a time in its direction and passes only across empty squares. |
| Chess.RayEnd | components/games/ChessBlitz.tsx:144-146 | A slide that ends on an empty square ends only because the next square is off the board or friendly. |
| Chess.Slides | components/games/ChessBlitz.tsx:141-148 | Every sliding target is on the board and not friendly. |
| Chess.SlidesSpec | components/games/ChessBlitz.tsx:141-148 | A sliding target is exactly a square on the slide in one of the piece's directions. |
| Chess.Jumps | components/games/ChessBlitz.tsx:150-151 | Every knight or king target is on the board and not friendly. |
| Chess.JumpsSpec | components/games/ChessBlitz.tsx:150-151 | A knight or king target is exactly an offset square that is on the board and not friendly. |
| Chess.Generate | components/games/ChessBlitz.tsx:153-158 | Move generation for each kind yields only on-board, non-friendly targets. |
| Chess.Relocate | components/games/ChessBlitz.tsx:163-165 | The trial board empties the origin, puts the piece on the target and leaves every other square alone. |
| Chess.KingFrom | components/games/ChessBlitz.tsx:171-179 | The king search returns the first square in row-major order that holds the king of that colour, or nothing if there is none. |
| Chess.ValidMoves | components/games/ChessBlitz.tsx:114-168 | An empty square has no moves; every move of a piece is on the board and not friendly. |
| Chess.SafeOnly | components/games/ChessBlitz.tsx:162-167 | The king-safety filter keeps only candidate moves. |
| Chess.SafeOnlyMembers | components/games/ChessBlitz.tsx:162-167 | A candidate survives the filter exactly when the trial board does not leave the mover in check. |
| Chess.KingSafeMovesSpec | components/games/ChessBlitz.tsx:160-167 | With the safety flag, a move is kept exactly when it is an unfiltered move whose trial board leaves the mover's king out of check. |
| Chess.AttackedFromSpec | components/games/ChessBlitz.tsx:182-193 | The attacker scan succeeds exactly when some enemy piece, at or after the scan position, has the king's square among its unfiltered moves. |
| Chess.NoKingIsCheck | components/games/ChessBlitz.tsx:180 | A side without a king counts as being in check. |
| Chess.CheckForMate | components/games/ChessBlitz.tsx:196-205 | The mate scan answers true exactly when no piece of that colour has a king-safe move. |
| Chess.KingSafeMoveLeavesNoCheck | components/games/ChessBlitz.tsx:160-167 | A king-safe move never leaves the mover's own king in check on the trial board. |
| Chess.CandidatesFrom | components/games/ChessBlitz.tsx:275-286 | Every collected candidate is a king-safe move of the computer scored by the value it captures, and every such move is collected. |
| Chess.NoCandidatesIffNoMoves | components/games/ChessBlitz.tsx:276-287 | The computer has no candidate exactly when it has no legal move. |
| Chess.BestBeatsEveryMove | components/games/ChessBlitz.tsx:281-288 | A candidate scoring at least every other candidate captures at least as much as any king-safe move. |
| Chess.PickBest | components/games/ChessBlitz.tsx:287-289 | The stable sort's first entry is found: nothing for an empty list, otherwise the first entry of highest score. |
| Chess.ChooseMove | components/games/ChessBlitz.tsx:274-290 | The computer picks nothing exactly when it has no legal move, and otherwise the first candidate of highest score. |
| Chess.ChosenIsBest | components/games/ChessBlitz.tsx:274-290 | The chosen candidate is a king-safe move that captures at least as much as any other legal move. |
| Chess.Reset | components/games/ChessBlitz.tsx:97-112 | A reset gives the initial position, 60 seconds per side, white to move, one charge of each power-up, no pending effects and no selection. |
| Chess.Promote | components/games/ChessBlitz.tsx:218-220 | A pawn reaching the first or last row becomes a queen; every other piece is unchanged. |
| Chess.MakeMove | components/games/ChessBlitz.tsx:207-241 | The piece moves, promoted if due, and every other square is unchanged. The new board is recorded and the selection cleared. If the opponent cannot move, the game ends in mate or stalemate; otherwise the turn passes unless a double move was pending, which is consumed. |
| Chess.MoveKeepsKingSafe | components/games/ChessBlitz.tsx:160-167 | Playing a king-safe, non-promoting move leaves the mover's king out of check. |
| Chess.Tick | components/games/ChessBlitz.tsx:296-310 | While a game is running, a second comes off the clock of the side to move; at zero that side loses on time. The other clock and the board are unchanged. |
| Chess.ClockRunsOut | components/games/ChessBlitz.tsx:296-310 | Left alone, a side with t seconds is still playing after fewer than t ticks and loses on time at the t-th. |
| Chess.Undo | components/games/ChessBlitz.tsx:243-250 | On white's turn with a charge and at least three recorded boards, the last two boards are dropped, the board before them is restored and one charge is spent; otherwise nothing happens. |
| Chess.UndoRevertsExchange | components/games/ChessBlitz.tsx:243-250 | After a recorded move and reply, undo restores the board from before the move and the history from before the move. |
| Chess.DoubleMove | components/games/ChessBlitz.tsx:252-257 | On white's turn with a charge, a double move is armed and one charge spent; otherwise nothing happens. |
| Chess.Freeze | components/games/ChessBlitz.tsx:259-264 | On white's turn with a charge, the computer's next turn is frozen and one charge spent; otherwise nothing happens. |
| Chess.Press | components/games/ChessBlitz.tsx:407-412 | A disabled button does nothing; no press adds charges or makes one negative, and only undo changes the board. |
| Chess.PowerUpsAreSingleUse | components/games/ChessBlitz.tsx:243-264 | With one charge, pressing a power-up twice has the same effect as pressing it once. |
| Chess.AiTurn | components/games/ChessBlitz.tsx:266-294 | On the computer's turn, a freeze is consumed and the turn handed back. Otherwise, if it can move, it plays a king-safe move that captures at least as much as any other; if it cannot, nothing happens. |
| Chess.Click | components/games/ChessBlitz.tsx:379-405 | Outside play a click starts a fresh game. In play, on white's turn and on the board: a highlighted square is played, any other clears the selection, and a white piece becomes selected with its king-safe moves. |
| Chess.SelectThenMoveIsSafe | components/games/ChessBlitz.tsx:393-403 | Selecting a white piece and clicking a highlighted non-promoting square never leaves white in check. |
| MindMerge.InitializeBoard | components/games/MindMerge.tsx:92-112 | The shuffled ids are dealt so that each cell holds a distinct node, and consecutive ids share one colour. |
| MindMerge.DealtBoard | components/games/MindMerge.tsx:92-112 | After dealing, every cell holds a node with an id in range, ids are all different, and ids 2k and 2k+1 share a colour. |
| MindMerge.Walk | components/games/MindMerge.tsx:133-163 | Walking one direction from a path node only queues genuine paths from the start, never past an occupied cell, and any path it returns reaches the target within the bend budget. |
| MindMerge.Visit | components/games/MindMerge.tsx:138-162 | One cell of a walk: a cell over budget or already reached is passed over, an occupied cell other than the target stops the walk, the target returns a connecting path, and any other cell is queued with a genuine path. |
| MindMerge.Search | components/games/MindMerge.tsx:114-167 | Any path the search returns connects the two nodes in straight segments that cross only empty or off-board cells (or the start node's own cell), with at most as many bends as the initial counter allows. |
| MindMerge.NoJumpOverNode | components/games/MindMerge.tsx:147-151 | A straight segment cannot jump over a node: with (0,1) occupied, (0,0) and (0,2) are not joined by one segment. |
| MindMerge.FindPathAsWritten | components/games/MindMerge.tsx:118-141 | The path search as written, with its counter starting at -1, returns only paths with at most three bends. |
| MindMerge.FindPath | components/games/MindMerge.tsx:114-167 | With the counter starting at 0, any returned path has at most two bends. |
| MindMerge.CounterCountsChanges | components/games/MindMerge.tsx:139 | Along a path the bend counter equals its starting value plus the number of direction changes. |
| MindMerge.ThreeBendsPassAsWritten | components/games/MindMerge.tsx:118-141 | A concrete path with three bends passes the guard when the counter starts at -1, and is rejected when it starts at 0. |
| MindMerge.Reset | components/games/MindMerge.tsx:179-187 | A reset deals a new board and returns to the title screen with score 0, a full minute and no selection. |
| MindMerge.HandleInput | components/games/MindMerge.tsx:189-246 | The title screen starts play. Game over deals the fresh board, clears the selection and the winning path, and returns to the title screen with score 0 and a full minute. In play, a first click selects a node. A second click drops the selection; the search runs only for a same-coloured different node, and when it finds a path (at most three bends as the game runs it, two as intended) both nodes are removed, the path is shown and score and time are added, while no path changes nothing else. |
| MindMerge.Frame | components/games/MindMerge.tsx:261-274 | Each whole second accumulated takes one second off the clock (not below zero), and the game ends when the clock read at the frame is spent. |
| MindMerge.ClockCountsDown | components/games/MindMerge.tsx:261-274 | After n one-second frames the clock shows n seconds less and play continues. |
| MindMerge.EffectRerunAsWritten | components/games/MindMerge.tsx:248-251 | As the game runs, a render whose phase, score or clock changed re-runs the main effect, whose reset returns to the title screen with score 0, a full minute and no selection; an unchanged render is left alone. |
| MindMerge.ClickAsWritten | components/games/MindMerge.tsx:189-200 | As the game runs, a click outside play always ends on the title screen with score 0 and a full minute: the start click's phase change is undone by the effect's reset. |
| MazeEscape.Openings | components/games/MazeEscape.tsx:96-102 | The carver's neighbour list holds exactly the walled chambers two cells away, each with the wall between. |
| MazeEscape.Carve | components/games/MazeEscape.tsx:87-112 | The backtracking carver terminates with every odd-odd chamber opened; the border and the even-even pillars stay wall. |
| MazeEscape.Open | components/games/MazeEscape.tsx:105-108 | Opening a neighbour floors the chamber and the wall between and changes nothing else. |
| MazeEscape.CarveShrinks | components/games/MazeEscape.tsx:104-108 | Each carving step keeps the maze shape, floors one more chamber and never walls up a floor. |
| MazeEscape.AllCarved | components/games/MazeEscape.tsx:94-112 | Once every open chamber has no walled neighbour left, every chamber is open. |
| MazeEscape.PlaceTraps | components/games/MazeEscape.tsx:117-126 | Traps only replace floor tiles, and only by a cracked wall, a laser or a spike trap. |
| MazeEscape.GenerateMaze | components/games/MazeEscape.tsx:87-129 | The generated maze has a wall border and pillars, the start at (1,1), the exit at the opposite corner, and traps only where the carver left floor. |
| MazeEscape.Reset | components/games/MazeEscape.tsx:131-138 | A reset builds a new maze and puts both players at their spawn with three lives and no cooldown, on the title screen. |
| MazeEscape.MovePlayer | components/games/MazeEscape.tsx:150-171 | A move happens exactly when play is on, the cooldown has passed, and the target is in bounds, passable and not occupied. It moves only that player and stamps the time. |
| MazeEscape.MoveKeepsPlayersApart | components/games/MazeEscape.tsx:164-170 | Players on different cells stay on different cells after a move. |
| MazeEscape.StepBack | components/games/MazeEscape.tsx:150-171 | A successful move followed by the reverse move after the cooldown returns both players to where they were. |
| MazeEscape.FirstHit | components/games/MazeEscape.tsx:179-193 | The ability scan finds the first of the five probed cells holding the player's target tile, or none. |
| MazeEscape.UseAbility | components/games/MazeEscape.tsx:173-195 | Off cooldown in play, the first laser (player 1) or cracked wall (player 2) in reach is switched off or broken and the cooldown set to 3 or 1 seconds; nothing else changes. |
| MazeEscape.RestoreLaser | components/games/MazeEscape.tsx:187 | The delayed callback turns a laser that is still off back on and touches nothing else. |
| MazeEscape.LaserComesBack | components/games/MazeEscape.tsx:184-187 | Switching a laser off and then running its restore callback gives back the original maze. |
| MazeEscape.ToggleSpikes | components/games/MazeEscape.tsx:245-247 | The spike toggle swaps raised and lowered spikes and leaves every other tile alone. |
| MazeEscape.ToggleTwice | components/games/MazeEscape.tsx:245-247 | Toggling the spikes twice restores the maze. |
| MazeEscape.Hurt | components/games/MazeEscape.tsx:252-256 | A player on a live laser or raised spike loses a life and returns to spawn; otherwise the player is unchanged. |
| MazeEscape.Frame | components/games/MazeEscape.tsx:244-263 | A frame in play advances the counter, toggles spikes on the scheduled frame and hurts players on hazards. The game is won when both stand on the exit, lost when a player runs out of lives, and goes on otherwise. |
| MazeEscape.FrameCostsAtMostOneLife | components/games/MazeEscape.tsx:252-256 | A frame costs each player at most one life. |
| MazeEscape.HandleKey | components/games/MazeEscape.tsx:205-223 | A key starts play from the title screen. After the game it resets: the title screen, both players at their spawn with full lives and no cooldown, and the start and exit tiles in place. In play each key maps to its player's move or ability. |
| LastSquare.Reset | components/games/LastSquareStanding.tsx:53-61 | A reset makes every tile stable and puts the two live players at (1,4) and (7,4) on the title screen. |
| LastSquare.HandleStart | components/games/LastSquareStanding.tsx:191-197 | Starting outside play resets and begins play; during play it does nothing. |
| LastSquare.MovePlayer | components/games/LastSquareStanding.tsx:63-96 | A permitted move steps the player, pushes the opponent one step along if it stood there, and starts the left tile cracking. The time is stamped, nothing else changes, and a refused move changes nothing. |
| LastSquare.Crack | components/games/LastSquareStanding.tsx:89-91 | Leaving a tile sets it cracking with a full timer and leaves every other tile alone. |
| LastSquare.MoveKeepsValid | components/games/LastSquareStanding.tsx:63-96 | Moves keep the state well formed and only wear the floor further. |
| LastSquare.MovePlaces | components/games/LastSquareStanding.tsx:63-96 | After a permitted move both players are on the floor and on different tiles. |
| LastSquare.MoveWears | components/games/LastSquareStanding.tsx:89-91 | A permitted move keeps every cracking timer positive and only wears the floor further. |
| LastSquare.TickFloor | components/games/LastSquareStanding.tsx:132-140 | Each frame ticks every tile independently. |
| LastSquare.CrumbleCountdown | components/games/LastSquareStanding.tsx:133-139 | A cracking tile with timer t is still cracking with t - n after n < t frames and is gone after t frames. |
| LastSquare.Fall | components/games/LastSquareStanding.tsx:141-145 | A player stays alive exactly when alive before and the tile underneath is not gone. |
| LastSquare.Tick | components/games/LastSquareStanding.tsx:127-153 | A frame in play ticks the floor and drops players on vanished tiles. The round ends once at most one player lives, naming the survivor or no one. The floor only wears and the dead stay dead. |
| LastSquare.WornTransitive | components/games/LastSquareStanding.tsx:132-140 | Wear accumulates: the wearing order is transitive. |
| LastSquare.OutStaysOut | components/games/LastSquareStanding.tsx:141-145 | A player who has fallen stays out after any move and frame. |
| MemoryVault.GenerateTiles | components/games/MemoryVault.tsx:65-72 | Dealing from the doubled palette gives sixteen tiles with ids 0 to 15, whose colours are a permutation of the pool. |
| MemoryVault.EachColorTwice | components/games/MemoryVault.tsx:67 | Each of the eight colours lands on exactly two tiles. |
| MemoryVault.ResetGame | components/games/MemoryVault.tsx:94-100 | A reset deals new tiles and returns to the title screen with level 0, an empty sequence and input index 0. |
| MemoryVault.NextLevel | components/games/MemoryVault.tsx:74-78 | The next level raises the level by one, appends exactly one tile to the sequence and restarts input in the showing phase. |
| MemoryVault.FinishShowing | components/games/MemoryVault.tsx:87-90 | When the flashing ends, the showing phase becomes the playing phase. |
| MemoryVault.HandlePlayerInput | components/games/MemoryVault.tsx:102-118 | Outside play a tap is ignored. A correct tap advances the index and schedules the next level after the last entry. A wrong tap ends the game and offers the level to the high-score store. |
| MemoryVault.CorrectPrefixAdvances | components/games/MemoryVault.tsx:105-111 | Tapping the first k entries of the sequence correctly sets the input index to k, leaves the store alone, and schedules the next level exactly when k is the whole sequence. |
| MemoryVault.StartClick | components/games/MemoryVault.tsx:184-194 | From the title screen a click deals and starts level 1 with a one-tile sequence; from game over it returns to the title screen. |
| SpaceMiner.AddOre | components/games/SpaceMinerTycoon.tsx:139 | Collecting ore raises one resource by the amount and leaves the others alone. |
| SpaceMiner.LevelUp | components/games/SpaceMinerTycoon.tsx:189 | An upgrade raises one level by one and leaves the others alone. |
| SpaceMiner.Initial | components/games/SpaceMinerTycoon.tsx:63-65 | A first visit starts with no cash, zero of each ore, laser, cargo and scanner at level 1 and no drone. |
| SpaceMiner.Capacity | components/games/SpaceMinerTycoon.tsx:81 | Cargo capacity is never below 50. |
| SpaceMiner.CapacityGrowth | components/games/SpaceMinerTycoon.tsx:81 | Each cargo upgrade adds 25 capacity and other upgrades add none. |
| SpaceMiner.CostIsFloor | components/games/SpaceMinerTycoon.tsx:185 | The integer cost is the floor of base cost times 1.5 to the level. |
| SpaceMiner.CostIncreases | components/games/SpaceMinerTycoon.tsx:185 | Each level makes the next upgrade strictly dearer. |
| SpaceMiner.CostAtLeastBase | components/games/SpaceMinerTycoon.tsx:185 | An upgrade never costs less than its base cost. |
| SpaceMiner.BuyUpgrade | components/games/SpaceMinerTycoon.tsx:183-193 | With enough cash the cost is paid and that upgrade rises one level; otherwise nothing changes; cash never goes negative. |
| SpaceMiner.BuyRaisesPrice | components/games/SpaceMinerTycoon.tsx:183-193 | A purchase spends cash and raises the price of the next purchase. |
| SpaceMiner.SellResources | components/games/SpaceMinerTycoon.tsx:174-181 | Selling empties the hold and conserves worth: cash plus ore at its unit value. |
| SpaceMiner.SellTwice | components/games/SpaceMinerTycoon.tsx:174-181 | Selling an empty hold changes nothing further. |
| SpaceMiner.ScannerNeverHurts | components/games/SpaceMinerTycoon.tsx:108-113 | For the same draw, a higher scanner level never yields a commoner ore. |
| SpaceMiner.SpawnAsteroid | components/games/SpaceMinerTycoon.tsx:104-127 | With more than ten asteroids nothing spawns. Otherwise one asteroid is appended just off the right edge, with the drawn kind and health floor(size x 5 x modifier). |
| SpaceMiner.SpawnBounded | components/games/SpaceMinerTycoon.tsx:105 | The field never grows beyond eleven asteroids. |
| SpaceMiner.SpawnHealthPositive | components/games/SpaceMinerTycoon.tsx:116 | A spawned asteroid of size at least one has health at least five. |
| SpaceMiner.RemoveId | components/games/SpaceMinerTycoon.tsx:153 | Filtering by id keeps exactly the asteroids with another id, each as often as it occurs, in order. |
| SpaceMiner.Mine | components/games/SpaceMinerTycoon.tsx:128-155 | Damage is subtracted. A destroyed asteroid is removed and its ore collected only if it fits in the hold; a surviving one keeps the hold unchanged. |
| SpaceMiner.MineKeepsCargoInCapacity | components/games/SpaceMinerTycoon.tsx:137-138 | Mining never fills the hold beyond its capacity. |
| SpaceMiner.FirstHit | components/games/SpaceMinerTycoon.tsx:164-170 | A click hits the first asteroid within its radius, or none. |
| SpaceMiner.Click | components/games/SpaceMinerTycoon.tsx:157-172 | A click that hits mines the first asteroid under it for 5 x laser level; a miss changes nothing. |
| SpaceMiner.FrameDelta | components/games/SpaceMinerTycoon.tsx:203 | The frame delta is the time difference, or 16.7 ms when that is zero. |
| SpaceMiner.OnScreen | components/games/SpaceMinerTycoon.tsx:220 | Asteroids are kept exactly while still on screen, in order. |
| SpaceMiner.OnScreenCounts | components/games/SpaceMinerTycoon.tsx:220 | Each asteroid still on screen is kept as often as it occurs; every other one is dropped. |
| SpaceMiner.Drift | components/games/SpaceMinerTycoon.tsx:215 | Every asteroid drifts left by the scale. |
| SpaceMiner.Frame | components/games/SpaceMinerTycoon.tsx:202-221 | A frame never changes cash or upgrade levels. It adds at most one asteroid and keeps only asteroids still on screen. Without a drone the hold is untouched, and every asteroid still on screen after drifting left by the scale survives. |
| SpaceMiner.FrameKeepsValid | components/games/SpaceMinerTycoon.tsx:202-221 | Frames keep the hold within capacity, amounts non-negative and the field bounded. |
| SpaceMiner.ActionsKeepValid | components/games/SpaceMinerTycoon.tsx:157-193 | Clicking, selling and buying keep those bounds too. |
| CityBuilder.TableHasAll | components/games/CityBuilderLite.tsx:23-28 | Every building kind has a cost and effect entry. |
| CityBuilder.Initial | components/games/CityBuilderLite.tsx:43-45 | The city starts empty with 500 cash, no population, 50 happiness and 10 power, with nothing selected. |
| CityBuilder.Select | components/games/CityBuilderLite.tsx:223 | Choosing from the menu selects a kind and changes nothing else. |
| CityBuilder.Place | components/games/CityBuilderLite.tsx:74-92 | Placement fails, changing nothing, when nothing is selected, cash is short or the tile is occupied. Success pays the cost, fills only that tile and clears the selection. |
| CityBuilder.Press | components/games/CityBuilderLite.tsx:190-195 | A press on the grid places at the cell under the pointer; a press off the grid changes nothing and is reported as off the plot, not as a refusal. |
| CityBuilder.TotalsByKind | components/games/CityBuilderLite.tsx:97-105 | The summed effects of the grid equal those of a census of its buildings by kind. |
| CityBuilder.PlacementAddsEffects | components/games/CityBuilderLite.tsx:85-105 | A successful placement adds exactly the new building's effects to the city totals. |
| CityBuilder.Efficiency | components/games/CityBuilderLite.tsx:108-109 | Without a power deficit income runs at full efficiency; with one it runs at between 10% and 100%. |
| CityBuilder.Clamp | components/games/CityBuilderLite.tsx:115 | Happiness is clamped into 0 to 100, unchanged when already inside. |
| CityBuilder.Income | components/games/CityBuilderLite.tsx:118 | Income is full with enough power and otherwise scaled between 10% and 100% of the nominal amount. |
| CityBuilder.Step | components/games/CityBuilderLite.tsx:107-122 | A tick adds population and power. It adds the scaled income, adjusts happiness with the deficit and debt penalties, and keeps happiness within 0 to 100. |
| CityBuilder.Tick | components/games/CityBuilderLite.tsx:95-126 | A tick leaves the grid and selection alone and applies the grid's summed effects. |
| CityBuilder.StepByCensus | components/games/CityBuilderLite.tsx:24-27 | With r, f, s, k buildings of each kind a tick adds 5r population and 10s - r - 3f power, and with power to spare 2r + 10f - s - k cash. |
| CityBuilder.EmptyPlotIsIdle | components/games/CityBuilderLite.tsx:98-99 | An empty grid has no effects. |
| ShadowDuel.Reset | components/games/ShadowDuel.tsx:67-74 | A reset restores both healths to 100, the score to 0 and the AI to idle on the title screen. |
| ShadowDuel.HandleStart | components/games/ShadowDuel.tsx:211-217 | Starting outside play resets and begins play; during play it does nothing. |
| ShadowDuel.AiThink | components/games/ShadowDuel.tsx:76-79 | The AI starts telegraphing only from idle during play; otherwise nothing happens. |
| ShadowDuel.AttackStarts | components/games/ShadowDuel.tsx:80-81 | When the telegraph ends the AI attacks and nothing else changes. |
| ShadowDuel.AttackEnds | components/games/ShadowDuel.tsx:83-95 | A parry within 250 ms before the blow leaves the AI vulnerable; otherwise the player takes 10 damage (not below 0) and the AI returns to idle. |
| ShadowDuel.Parry | components/games/ShadowDuel.tsx:100-103 | A parry during play records its time and nothing else. |
| ShadowDuel.Strike | components/games/ShadowDuel.tsx:105-117 | A strike on a vulnerable AI in play deals 15 damage (not below 0), scores 100 and marks the AI hit; otherwise nothing happens. |
| ShadowDuel.Recover | components/games/ShadowDuel.tsx:113-116 | After the hit pause the AI goes idle and, in play, straight into a new telegraph. |
| ShadowDuel.WindowEndsAsWritten | components/games/ShadowDuel.tsx:88 | As written, the end of the strike window calls the thinker, which leaves a vulnerable AI vulnerable. |
| ShadowDuel.WindowEnds | components/games/ShadowDuel.tsx:86-88 | At the end of the strike window a vulnerable AI recovers and, in play, starts a new telegraph. |
| ShadowDuel.CheckEnd | components/games/ShadowDuel.tsx:119-137 | With both alive nothing happens. The player's defeat loses and offers the score to the store. The AI's defeat wins and adds 500; with the player standing, the store receives exactly the bonus score and the shown high score is the larger of the stored one and that score. Health and AI state are untouched. |
| ShadowDuel.Step | components/games/ShadowDuel.tsx:67-137 | No event changes the remembered high score, and only a click changes the phase. As the game runs, the recovery after a strike does nothing. |
| ShadowDuel.StepKeepsValid | components/games/ShadowDuel.tsx:67-137 | Every event keeps both healths within 0 to 100, both as the game runs and as intended. |
| ShadowDuel.RunKeepsValid | components/games/ShadowDuel.tsx:67-137 | Any sequence of events keeps both healths within 0 to 100, both as the game runs and as intended. |
| ShadowDuel.ResetMatches | components/games/ShadowDuel.tsx:67-74 | After a reset the score agrees with the damage dealt to the AI. |
| ShadowDuel.StrikeKeepsMatch | components/games/ShadowDuel.tsx:109-111 | Each strike keeps the AI's health at max(0, 100 - 15 x strikes), the score a multiple of 100. |
| ShadowDuel.RunKeepsMatch | components/games/ShadowDuel.tsx:67-117 | Any sequence of events before the end check keeps score and AI damage in step, both as the game runs and as intended. |
| ShadowDuel.HitIsStuckAsWritten | components/games/ShadowDuel.tsx:105-137 | As the game runs, once the AI is hit, nothing that can still happen moves it out of its hit state or changes the score or its health. |
| ShadowDuel.SecondStrikeAsIntended | components/games/ShadowDuel.tsx:76-116 | With the recovery running, a hit AI winds up again and a parried blow opens it to a second strike worth 100 and 15 damage. |
| ShadowDuel.SevenStrikesWin | components/games/ShadowDuel.tsx:12-14 | The AI falls exactly when 700 points have been scored, that is on the seventh strike. |
| ShadowDuel.ParryBlocksBlow | components/games/ShadowDuel.tsx:84-95 | A parry in the 250 ms before the blow spares the player and leaves the AI vulnerable; without one the player loses 10 health. |
| ShadowDuel.StrikeNeedsParry | components/games/ShadowDuel.tsx:76-111 | In one attack cycle a strike scores exactly when the blow was parried. |
| ShadowDuel.LateStrikeLandsAsWritten | components/games/ShadowDuel.tsx:88 | As written, a strike after the window has closed still lands and scores. |
| ShadowDuel.LateStrikeMisses | components/games/ShadowDuel.tsx:86-88 | With the window closing properly, a late strike does nothing. |
| ShadowDuel.LossIsSettled | components/games/ShadowDuel.tsx:123-128 | Re-running the end check after a loss leaves the state as it is. |
| TapTitans.Reset | components/games/TapTitans.tsx:49-54 | A reset restores the boss to 5000 health and all four scores to 0 on the title screen. |
| TapTitans.Quadrant | components/games/TapTitans.tsx:68-72 | A touch belongs to the quadrant it lies strictly inside; on a centre line it belongs to none. |
| TapTitans.Hit | components/games/TapTitans.tsx:76-82 | A hit lowers the boss's health by the damage (not below 0) and credits the damage to that player alone. |
| TapTitans.HandleTap | components/games/TapTitans.tsx:56-94 | Taps outside play are ignored; during play no score goes down and the boss never heals. |
| TapTitans.CheckEnd | components/games/TapTitans.tsx:96-101 | The game ends exactly when the boss has no health left during play. |
| TapTitans.StartInteraction | components/games/TapTitans.tsx:188-194 | A tap outside play resets and starts play; during play it does nothing here. |
| TapTitans.Winner | components/games/TapTitans.tsx:175 | The named winner has the highest score and is the first player with it. |
| TapTitans.ResetHealthMatches | components/games/TapTitans.tsx:49-54 | After a reset the boss's health is 5000 minus the total score. |
| TapTitans.TapKeepsHealthMatching | components/games/TapTitans.tsx:76-82 | Taps keep the boss's health at max(0, 5000 - total score). |

## Left out

- Drawing, animation, particles, floating texts, sounds, resizing and layout are left out. They change no game state.
- React re-render timing is left out: effect re-runs, stale closures and batched state updates are not modelled. Each handler is modelled as acting on the state it reads. The one exception is Shadow Duel's lost recovery timer, which `ShadowDuel.Step` models because it decides whether the duel can be won.
- Timers and `setTimeout`/`setInterval` become explicit events. Random numbers and `Date.now`/`performance.now` become parameters.
- Local storage failures become two flags, `readable` and `writable`. A record that does not parse is `Unreadable`.
- Chess.MakeMove: promotion changes the piece object shared with earlier boards in the source. The model promotes a copy, so recorded history boards keep the pawn.
- Chess.MoveKeepsKingSafe: covers only non-promoting moves, because the safety filter tests the unpromoted piece.
- Chess: black's power-up counters are set but never used; the computer's 500 ms delay is not modelled.
- Chess.UndoRevertsExchange: stated over any state whose history ends with two recorded boards after the restored one. This is the shape `Chess.MakeMove`'s contract gives the history after a move and a reply.
- MindMerge: the main effect calls the reset on every re-run, that is on each phase, score or clock change. The reset deals a new board and also returns to the title screen, so in the running app play never starts (see Findings). `MindMerge.EffectRerunAsWritten` and `MindMerge.ClickAsWritten` model this. The other handlers, and `MindMerge.Frame`, describe the game as intended, where the reset runs only on mount and on the game-over click.
- MindMerge: the per-node `cleared` flag is not modelled. A cleared node is an empty cell, which is all the source reads.
- MindMerge.Search: returns a path or nothing. It does not prove that a path is found whenever one exists; the source promises only the returned path's shape.
- MazeEscape: the maze is mutated in place. The model returns a new maze, so the laser restore callback acts on the maze it is given.
- MazeEscape.LaserComesBack: holds for the maze the callback captured. In the source the spike toggle (MazeEscape.tsx:247) replaces the maze array every 120 frames, about two seconds. The 5-second restore then usually writes into a discarded array, and the laser stays off in the maze the game shows.
- MazeEscape: the second player's spawn (1,2) can be a wall. The model keeps the source's coordinates.
- MazeEscape.Reset: the move timestamps and the spike counter are not reset, as in the source.
- MazeEscape.Carve: the random neighbour choice is a nondeterministic pick. Traps use explicit draws.
- LastSquare: the keyboard mapping (WASD and arrows) is a direct mapping onto MovePlayer and is not restated.
- SpaceMiner.CostIsFloor: 1.5 to the level is exact rational arithmetic here, not IEEE doubles.
- SpaceMiner.Mine: the capacity check reads the current hold, not the render's stale total.
- SpaceMiner: positions, sizes and rotation are reals taken as given, and the scale is assumed positive. Stars are not modelled.
- CityBuilder: messages and their timeouts, the hover preview and the cancel button are not modelled.
- CityBuilder: cash, power and efficiency are exact rationals. The source uses doubles, so after a fractional income the cash check (CityBuilderLite.tsx:77) can decide differently from exact arithmetic when cash is within rounding of the price.
- ShadowDuel.Step: run with `asWritten` it follows the game as it runs; the strike window closing through the plain thinker and the lost recovery are both under Findings. Run without it, it uses the intended window end and the recovery callback.
- ShadowDuel.SevenStrikesWin: in the game as it runs the AI stays hit after the first strike, so the seventh strike and the win branch of `ShadowDuel.CheckEnd` are never reached. The lemma and the win branch describe the intended game.
- ShadowDuel.CheckEnd: the win effect re-runs when the score changes and would add the 500 bonus again. The model applies it once.
- ShadowDuel: the telegraph's random duration is an event boundary rather than a number.
- TapTitans.HandleTap: damage draws are parameters in 5 to 9; touch coordinates are reals.
- Hub: the catalogue is a parameter; selecting and launching games is navigation and is left out.

## Findings

| source | as written | input that shows it | evidently intended | confidence | as-written member | corrected member |
|---|---|---|---|---|---|---|
| components/games/MindMerge.tsx:118 | the path search starts its bend counter at -1, and the first segment from the start node does not count, so the guard `turns > 2` admits paths with three bends | a board full except (0,2) and (1,2), with a same-coloured pair at (0,0) and (1,1): the only connection leaves the grid upwards, then goes right along the outer ring, down column 2 and left, which is three bends, and the pair is matched | at most two bends, the budget the guard's constant 2 states, so the counter starts at 0 | not executed | MindMerge.ThreeBendsPassAsWritten | MindMerge.FindPath |
| components/games/ShadowDuel.tsx:88 | after a successful parry the strike window's end calls `aiThink`, which acts only from idle, so the AI stays vulnerable indefinitely | any state in play with the AI vulnerable after a parry, and 800 ms passing without a strike | the window closes and the AI resumes its attack cycle | not executed | ShadowDuel.LateStrikeLandsAsWritten | ShadowDuel.LateStrikeMisses |
| components/games/ShadowDuel.tsx:111-116 | the strike sets the 500 ms recovery timer and changes the score. The score change re-runs the end-of-duel effect, whose cleanup (line 136) cancels that timer. The re-run schedules a new think only for an idle AI, so the AI stays hit | any duel after its first strike: every later event leaves the AI hit, so its health stays at 85 and the duel cannot be won | the AI recovers half a second after a strike and attacks again, so seven strikes win | not executed | ShadowDuel.HitIsStuckAsWritten | ShadowDuel.SecondStrikeAsIntended |
| components/games/MindMerge.tsx:251 | the main effect calls `resetGame`, which sets the phase back to 'start', on every run, and the effect lists the phase, score and clock among its dependencies (line 361) | a click on the title screen: the phase becomes 'playing' (line 193), the effect re-runs and its reset restores 'start', so play never begins | the board is dealt and the title screen shown once on mount, and a start click begins play | not executed | MindMerge.ClickAsWritten | MindMerge.HandleInput |
