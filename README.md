# Match-Me-If-You-Can: a Dafny model of the game engine

The game is a browser memory game. Tiles showing film characters are scattered
on a board. The player drags one tile onto another tile showing the same
character. A release within 60 pixels of such a tile pairs the two, and the
pair scores 100 points plus a bonus that decays with time. When every pair is
matched, the game ends with a completion bonus.

This project models the engine inside `script.js`: the session record
`gameState`, tile creation and the Fisher–Yates shuffle, the match decision on
release, scoring, the session transitions, the pause key, drag and resize
clamping, and the timer text. DOM, audio and timers are not modelled.

Modules, one per component:

- `GameConfig`: `CONFIG` and `CHARACTERS`.
- `Decimal`: the decimal text that template literals produce, and reading it back.
- `Geometry`: integer positions, the match-distance test and clamping.
- `Scoring`: match points, the completion bonus and the `m:ss` timer text.
- `Tiles`: the tile record and the count of matched tiles.
- `TileFactory`: tile ids, pair construction, and the shuffle as a function and as an in-place array method.
- `MatchEngine`: the `checkForMatches` filter and the choice of partner.
- `GameSession`: class `Game` holds the fields of `gameState`; its methods are the event handlers. Each handler's new state is stated through `State()`. The pure transitions `AfterMatch`, `AfterCheck` and `Completed` carry the lemmas.

Modelling choices:

- A tile's identity (`tile === draggedTile`) is its index in `tiles`. Its screen position lives in a parallel `positions` sequence.
- Positions and board sizes are integer pixels. `Math.sqrt(dx*dx + dy*dy) <= 60` becomes `dx*dx + dy*dy <= 3600`.
- `Date.now()` is an integer-millisecond argument `now`. The `null` start time that a restart leaves becomes 0, the value JavaScript subtraction gives it.
- The shuffle's random draws are a sequence `picks`, with `picks[i] <= i`. The random tile placement is a sequence of positions.
- Two behaviours of the code are easy to misread, and the model follows the code:
  - Pair `i` gets the character `CHARACTERS[i % 4]`, and every difficulty deals more than 4 pairs. So in every difficulty, easy included, some characters appear on four or six tiles, not two (`CharactersReusedBeyondRoster`). Any two unmatched tiles of one character can pair.
  - The comment at script.js:322 says the match goes to the closest candidate. The code takes the first candidate in board order (`ChosenPartnerIsFirstCandidate`), which need not be the nearest (`FirstCandidateNotNearest`).

## Model

| member | source | states |
|---|---|---|
| `GameConfig.Pairs` | script.js:8-12 | every difficulty deals more pairs than there are characters, and at most three times as many |
| `GameConfig.TimeBonus` | script.js:8-12 | the starting time bonus lies between 10 and 20 |
| `Decimal.NatToString` | script.js:144 | `${n}` is a non-empty string of decimal digits, one digit exactly when n < 10, with no leading zero unless n is 0 |
| `Decimal.ParseNatToString` | script.js:144 | reading the decimal text of n gives back n |
| `Decimal.SplitLastJoin` | script.js:144 | splitting a joined string at its last separator recovers both parts |
| `Geometry.DistanceSquared` | script.js:388-392 | the squared distance is never negative and is zero exactly when the two points coincide |
| `Geometry.DistanceSquaredProperties` | script.js:388-392 | the distance is symmetric, never negative, and zero exactly when the two points coincide |
| `Geometry.WithinMatchDistance` | script.js:313-314 | the squared test is the 60-pixel disc: along an axis it admits exactly offsets up to 60; any match is within 60 on both axes; offsets up to 42 on both axes always match |
| `Geometry.Clamp` | script.js:251-252 | the clamped value lies in [0, hi], equals v when v is already there, and is 0 when the board is narrower than a tile |
| `Geometry.ClampNearest` | script.js:251-252 | clamping is idempotent and gives the point of [0, hi] nearest to v |
| `Geometry.ClampToBoard` | script.js:582-586 | when the board fits a tile, the clamped corner keeps the whole tile on the board, and an on-board position is left alone |
| `Scoring.MatchTimeBonus` | script.js:340-341 | the bonus is never negative, never exceeds the difficulty's bonus, is whole in the first 10 s, is 0 once 10 s per bonus point have passed, and in between has lost exactly one point per whole 10 s elapsed |
| `Scoring.MatchPoints` | script.js:340-342 | a match earns at least 100 points, at most 100 + 2 × the time bonus, and an even amount |
| `Scoring.MatchPointsDecay` | script.js:341 | a later match never earns more |
| `Scoring.MatchPointsMediumAtFiveSeconds` | script.js:341-342 | medium difficulty at 5 s earns 130 |
| `Scoring.FinalTimeBonus` | script.js:373-374 | the completion bonus is never negative, at most 1500, 0 from five minutes on, and otherwise the whole number of 200 ms steps left before five minutes, that is `Math.floor` of five points per second left |
| `Scoring.FinalTimeBonusDecay` | script.js:374 | finishing later never earns a larger bonus |
| `Scoring.FinalTimeBonusAtOneMinute` | script.js:374 | completing at 60 s adds 1200 |
| `Scoring.PadStart` | script.js:415 | `padStart` gives a string of at least the target length, ending in the input and filled with the pad character before it |
| `Scoring.TimerText` | script.js:411-415 | the display is at least four characters: decimal minute digits, a colon, and exactly two second digits |
| `Scoring.SecondsField` | script.js:413-415 | the seconds field is two digits whose value is the seconds |
| `Scoring.TimerTextRoundTrip` | script.js:411-415 | the `m:ss` text is a non-empty digit string, a colon and two digits; read back, seconds < 60 and minutes × 60 + seconds is the elapsed whole seconds |
| `Scoring.TimerTextAtStart` | script.js:411-415 | no elapsed time displays as `0:00`, the text shown when no game runs |
| `Scoring.TimerTextAtOneMinuteFive` | script.js:411-415 | 65.999 s displays as `1:05` |
| `Tiles.MatchedCount` | script.js:329-330 | the number of matched tiles never exceeds the number of tiles |
| `Tiles.MatchedCountUpdate` | script.js:329-330 | replacing one tile changes the count by the difference of the two flags |
| `Tiles.MatchedCountNone` | script.js:148 | a board of unmatched tiles counts zero |
| `Tiles.MatchedCountFull` | script.js:359 | the count equals the board size only when every tile is matched |
| `TileFactory.TileId` | script.js:144 | the id starts with the character id and an underscore, followed by at least three more characters |
| `TileFactory.DecodeTileIdRoundTrip` | script.js:144 | the pair and copy numbers can be read back from any id `${character}_${i}_${j}` |
| `TileFactory.PairCharacter` | script.js:139 | pair i shows a roster character: the i-th for the first four pairs, and the roster repeats every four pairs |
| `TileFactory.PairTile` | script.js:143-150 | a new tile is unmatched and shows its pair's character |
| `TileFactory.UnshuffledTiles` | script.js:137-152 | `numPairs` pairs give exactly `2 × numPairs` tiles |
| `TileFactory.UnshuffledTileAt` | script.js:138-151 | tiles 2i and 2i+1 are copies 0 and 1 of pair i: character `CHARACTERS[i % 4]`, id `${character}_${i}_${j}`, unmatched |
| `TileFactory.UnshuffledTilesFresh` | script.js:143-149 | all tile ids are distinct and every tile starts unmatched |
| `TileFactory.UnshuffledCharacterCountsEven` | script.js:138-152 | every character appears on an even number of tiles |
| `TileFactory.CharactersReusedBeyondRoster` | script.js:139 | at every difficulty, four tiles with distinct ids (pairs 0 and 4) share one character, so no difficulty has exactly two tiles per character |
| `TileFactory.Shuffle` | script.js:394-399 | shuffling keeps the length and the multiset of elements |
| `TileFactory.Swap` | script.js:397 | the destructuring swap exchanges the two cells and leaves the others alone |
| `TileFactory.FisherYates` | script.js:395-398 | the shuffle steps keep the length |
| `TileFactory.SwapPermutes` | script.js:397 | a swap keeps the multiset of elements |
| `TileFactory.FisherYatesPermutes` | script.js:394-399 | the shuffle is a permutation: the same multiset of elements |
| `TileFactory.FisherYatesMap` | script.js:394-399 | shuffling commutes with projecting each element, such as to its id or its character |
| `TileFactory.SwapKeepsDistinct` | script.js:397 | a swap keeps distinct elements distinct |
| `TileFactory.FisherYatesKeepsDistinct` | script.js:394-399 | shuffling keeps distinct elements distinct |
| `TileFactory.ShuffleArray` | script.js:394-399 | the in-place loop leaves the array equal to the shuffle of its old contents, a permutation of them |
| `TileFactory.BuildTilePairs` | script.js:137-152 | the nested push loops build exactly the unshuffled pair list |
| `TileFactory.ShuffleTilePairs` | script.js:137-155 | building into an array and shuffling in place gives the dealt board |
| `TileFactory.DealtTiles` | script.js:129-155 | a new board has 2 × pairs tiles, the factory's tiles in some order |
| `TileFactory.DealtTilesProperties` | script.js:129-155 | a dealt board is the factory's tiles reordered: 2 × pairs unmatched tiles with distinct ids, each character on an even number of them |
| `MatchEngine.IsMatchCandidate` | script.js:310-317 | a candidate is another unmatched tile of the dragged tile's character within 60 pixels on each axis of the drop point; one within 42 pixels on both axes always qualifies |
| `MatchEngine.CandidatesBelow` | script.js:309-318 | the filter over the first n tiles keeps exactly the candidates below n, in increasing board order |
| `MatchEngine.MatchingTiles` | script.js:309-318 | `matchingTiles` holds exactly the other unmatched tiles of the same character within 60 pixels of the drop point, in board order |
| `MatchEngine.ChosenPartnerIsFirstCandidate` | script.js:320-323 | there is a partner iff some tile qualifies, and the partner is the qualifying tile earliest in board order |
| `MatchEngine.CandidatesShareCharacter` | script.js:310-317 | a tile of another character, a matched tile and the dragged tile itself never pair, whatever the distance |
| `MatchEngine.FirstCandidateNotNearest` | script.js:322 | a board where the chosen partner is 50 pixels away while another candidate is 10 pixels away |
| `GameSession.MatchedPairsBounded` | script.js:337 | the invariant gives `matchedPairs <= totalPairs` |
| `GameSession.CompletionMeansBoardCleared` | script.js:359 | when `matchedPairs >= totalPairs` on a dealt board, the counter equals the pair count and every tile is matched |
| `GameSession.MarkMatched` | script.js:329-330 | both tiles' flags are set, no flag is cleared, ids and characters stay, and every other tile is unchanged |
| `GameSession.AfterMatch` | script.js:327-344 | a match sets both flags, adds one pair and between 100 and 100 + 2 × time bonus points, and changes no other field |
| `GameSession.AfterMatchProperties` | script.js:327-344 | a match keeps the invariant, sets exactly the two flags, increments `matchedPairs` by one, and adds between 100 and 100 + 2 × time bonus points, changing nothing else |
| `GameSession.AfterCheck` | script.js:300-325 | a release clears no flag and never lowers the score; it changes the session exactly when some tile qualifies, and then the released tile is matched and one pair is added |
| `GameSession.AfterCheckProperties` | script.js:300-325 | a release keeps the invariant and every set flag; with no candidate nothing changes, otherwise the released tile and its partner are matched and one pair is added; the score never decreases |
| `GameSession.Completed` | script.js:369-375 | completion ends play, stops the timer, adds between 0 and 1500 points and changes no other field |
| `GameSession.CompletedProperties` | script.js:369-375 | completion ends play, stops the timer, keeps the board and the invariant, and adds between 0 and 1500 points |
| `GameSession.StaleRelease` | script.js:261-274 | the release of a drag held across a restart and the next start sets at most one flag, adds at most one pair and its points, and keeps every other field |
| `GameSession.StaleReleaseBreaksInvariant` | script.js:111-121 | when a new tile of the held tile's character lies near the drop point, that release counts a pair for one matched tile, breaking the invariant, and a tile stays unmatched once the counter reaches the pair count |
| `GameSession.StartStateValid` | script.js:91-101 | a freshly started session satisfies the invariant |
| `GameSession.SameSessionTransitive` | script.js:329-330 | matched flags stay set across any number of steps |
| `GameSession.DraggedPosition` | script.js:241-252 | the dragged tile follows the pointer while that keeps it on the board, and never leaves a board that fits it |
| `GameSession.ResizedPositions` | script.js:576-589 | resizing leaves matched tiles and on-board tiles where they are, and puts every unmatched tile on the board |
| `GameSession.Game.constructor` | script.js:52-63 | the initial session: not playing, empty board, zero counters, medium difficulty |
| `GameSession.Game.SetDifficulty` | script.js:72-74 | the selector changes only the difficulty, even during a game |
| `GameSession.Game.CreateTiles` | script.js:129-178 | the board becomes the dealt tiles at the given positions; nothing else changes |
| `GameSession.Game.StartGame` | script.js:91-109 | play starts unpaused with a fresh board, zero score and counter, `totalPairs` = the difficulty's pairs, the start time `now`, and the timer running |
| `GameSession.Game.RestartGame` | script.js:111-127 | play stops, the board empties, score, counter and start time are reset, the timer stops; difficulty and `totalPairs` stay |
| `GameSession.Game.PressRestartKey` | script.js:550-556 | the `r` key gives a running game exactly the `restartGame` state and a stopped one exactly the `startGame` state |
| `GameSession.Game.TogglePause` | script.js:558-563 | the `p` key flips the pause flag only while playing |
| `GameSession.Game.StartDrag` | script.js:212-231 | a drag begins only on an unmatched tile of a running game |
| `GameSession.Game.DragTo` | script.js:233-259 | only the dragged tile moves, to its clamped position |
| `GameSession.Game.HandleMatch` | script.js:327-344 | the state becomes `AfterMatch`, and the returned points are the score's increase |
| `GameSession.Game.CheckForMatches` | script.js:300-325 | the state becomes `AfterCheck`, and the result says whether a match was made |
| `GameSession.Game.EndDrag` | script.js:261-275 | the drag ends, and the tile's final position is checked for a match |
| `GameSession.Game.HandleGameComplete` | script.js:369-375 | the state becomes `Completed` |
| `GameSession.Game.CompletionCheck` | script.js:359-363 | the game completes exactly when `matchedPairs >= totalPairs` |
| `GameSession.Game.Resize` | script.js:570-591 | while playing, positions become `ResizedPositions`; otherwise nothing changes |
| `GameSession.Game.TimerTick` | script.js:408-416 | a tick shows the `m:ss` elapsed time exactly while the timer runs and the game is playing and not paused |
| `GameSession.Game.Remaining` | script.js:429 | the remaining count is never negative and adds up with `matchedPairs` to `totalPairs` |

## Left out

- DOM work is not modelled: element creation, CSS classes, `innerHTML`, z-index and board measurement (`getBoundingClientRect`, `offsetLeft`, computed `--tile-size`). Board size, tile size and positions are integer arguments.
- Audio (`initAudio`, `playSound`) is not modelled. It is Web Audio output with float frequencies and has no effect on state.
- Toasts, the quote popup, the random quote and the typewriter effect are not modelled. They are presentation with their own timers.
- `checkForNearbyMatches` is not modelled. It only toggles a highlight class.
- Random tile placement (`Math.random() * max(0, maxX) + 20`) is a positions argument. Fractional pixel positions are not modelled.
- `TileFactory.ShuffleArray` is proved a permutation and equal to the shuffle of its draws. That the result is uniformly random is not modelled.
- Timings are exact integer arithmetic on milliseconds. Floating-point rounding in `ms / 1000` at exact boundaries is not modelled.
- The completion callbacks fire 300 ms and then 500 ms after a match. They are one method, `Game.CompletionCheck`, which the caller invokes after a match. The model therefore does not capture a game changing while the callbacks are pending. In the source, if the last match passes the test at script.js:359 and the player then restarts and starts a new game (`r` twice) within the next 500 ms, the pending `handleGameComplete` (script.js:360-362) ends the new game: play and the timer stop, and a completion bonus of about 1500 points is added.
- `Game.RestartGame` and `Game.StartGame` end any drag in progress. The source's `restartGame` clears only `gameState.draggedTile`, which nothing reads. The drag itself is each tile's `isDragging` flag (script.js:199, 216, 234, 262), and a restart leaves it set. The model does not capture a drag that outlives a restart; `GameSession.StaleRelease` models its release on its own, and "## Findings" below describes what it breaks. `CompletionMeansBoardCleared` holds for the model because its restart ends the drag.
- `Game.HandleMatch` and `Game.CheckForMatches` require that no drag is in progress. In the source, `handleMatch` is called only from `checkForMatches`, and `checkForMatches` only from `endDrag`, which has just cleared the drag.
- Simultaneous drags of several tiles (multi-touch) are not modelled.
- `Game.TimerTick` requires that the clock has not gone back past the start time. The text for a negative elapsed time is not modelled.
- The touch-coordinate fallback `e.clientX || e.touches[0].clientX` is not modelled. Pointer coordinates are arguments.
- `updateUI` is not modelled, except the remaining-pairs counter (`Game.Remaining`). The other displays show fields as they are.
- The character names and picture URLs are not modelled. They are presentation only.

## Findings

| source | as written | input that shows it | evidently intended | confidence | as-written member | corrected member |
|---|---|---|---|---|---|---|
| script.js:111-121 | `restartGame` nulls `gameState.draggedTile` but leaves the dragged tile's `isDragging` flag and document listeners in place, so its later `endDrag` runs `checkForMatches(oldTile, …)` against the next board; `handleMatch` then sets one new tile's flag and adds a whole pair | hold a tile, press `r` twice (restart, then start), and release while an unmatched new tile of the same character lies within 60 pixels of the old tile's reported position: `matchedPairs` becomes 1 with one matched tile, and the game later completes with a tile unmatched | a restart ends any drag in progress, so every counted pair is two matched tiles of the current board | medium, not executed | `GameSession.StaleReleaseBreaksInvariant` | `GameSession.Game.RestartGame` |
