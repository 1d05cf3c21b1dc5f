/** The session record `gameState` and the event handlers that update it:
    start, restart, difficulty change, pause key, drag, release, match,
    completion, resize and timer tick. Time is an injected millisecond clock
    reading `now`; random draws are parameters. */
module GameSession {
  import opened GameConfig
  import opened Geometry
  import opened Scoring
  import opened Tiles
  import opened TileFactory
  import opened MatchEngine

  datatype Option<T> = None | Some(value: T)

  /** A drag in progress: the tile, the pointer position when it went down,
      and the tile's position at that moment. */
  datatype Drag = Drag(tile: nat, startX: int, startY: int, initial: Point)

  /** Every field of the session record, as one value. A `null` start time is
      0, the number JavaScript's subtraction turns it into. */
  datatype SessionState = SessionState(
    isPlaying: bool,
    isPaused: bool,
    tiles: seq<Tile>,
    positions: seq<Point>,
    matchedPairs: nat,
    totalPairs: nat,
    score: nat,
    startTime: int,
    timerRunning: bool,
    drag: Option<Drag>,
    difficulty: Difficulty)

  /** Each matched pair accounts for two matched tiles, and a dealt board has
      two tiles per pair. */
  predicate PairsAccounted(tiles: seq<Tile>, matchedPairs: nat, totalPairs: nat)
  {
    (tiles == [] || |tiles| == 2 * totalPairs) && MatchedCount(tiles) == 2 * matchedPairs
  }

  predicate ValidState(s: SessionState)
  {
    |s.positions| == |s.tiles| &&
    PairsAccounted(s.tiles, s.matchedPairs, s.totalPairs) &&
    (s.drag.Some? ==> s.drag.value.tile < |s.tiles| && !s.tiles[s.drag.value.tile].matched)
  }

  /** The matched-pair counter never passes the number of pairs. */
  lemma MatchedPairsBounded(tiles: seq<Tile>, matchedPairs: nat, totalPairs: nat)
    requires PairsAccounted(tiles, matchedPairs, totalPairs)
    ensures matchedPairs <= totalPairs
  {
  }

  /** When the completion test `matchedPairs >= totalPairs` passes on a dealt
      board, the counter is exactly the number of pairs and every tile is matched. */
  lemma CompletionMeansBoardCleared(tiles: seq<Tile>, matchedPairs: nat, totalPairs: nat)
    requires PairsAccounted(tiles, matchedPairs, totalPairs) && tiles != []
    requires matchedPairs >= totalPairs
    ensures matchedPairs == totalPairs
    ensures forall k :: 0 <= k < |tiles| ==> tiles[k].matched
  {
    MatchedCountFull(tiles);
  }

  /** The two tiles' flags set; every other tile, and every id and character, unchanged. */
  function MarkMatched(tiles: seq<Tile>, a: nat, b: nat): (r: seq<Tile>)
    requires a < |tiles| && b < |tiles|
    ensures SameSession(tiles, r) && r[a].matched && r[b].matched
    ensures forall k :: 0 <= k < |tiles| && k != a && k != b ==> r[k] == tiles[k]
  {
    tiles[a := tiles[a].(matched := true)][b := tiles[b].(matched := true)]
  }

  /** `handleMatch`: both flags set, one more pair, the time-decayed points added. */
  function AfterMatch(s: SessionState, a: nat, b: nat, now: int): (r: SessionState)
    requires a < |s.tiles| && b < |s.tiles|
    ensures SameSession(s.tiles, r.tiles) && r.tiles[a].matched && r.tiles[b].matched
    ensures r.matchedPairs == s.matchedPairs + 1
    ensures s.score + PointsPerMatch <= r.score
    ensures now >= s.startTime ==> r.score <= s.score + PointsPerMatch + TimeBonusMultiplier * TimeBonus(s.difficulty)
    ensures r.(tiles := s.tiles, matchedPairs := s.matchedPairs, score := s.score) == s
  {
    s.(tiles := MarkMatched(s.tiles, a, b),
       matchedPairs := s.matchedPairs + 1,
       score := s.score + MatchPoints(s.difficulty, now - s.startTime))
  }

  /** `checkForMatches`: pair with the first candidate, if there is one. */
  function AfterCheck(s: SessionState, dragged: nat, drop: Point, now: int): (r: SessionState)
    requires WellFormedBoard(s.tiles, s.positions, dragged)
    ensures SameSession(s.tiles, r.tiles) && s.score <= r.score
    ensures r == s <==> MatchingTiles(s.tiles, s.positions, dragged, drop) == []
    ensures r != s ==> r.matchedPairs == s.matchedPairs + 1 && r.tiles[dragged].matched
  {
    var candidates := MatchingTiles(s.tiles, s.positions, dragged, drop);
    if candidates == [] then s else AfterMatch(s, dragged, candidates[0], now)
  }

  /** The release of a drag that began before a restart and ends after the
      next start. The restart clears `gameState.draggedTile` only; the drag
      lives on in the old tile's own `isDragging` flag and document listeners.
      The old tile `stale` is `===` to no tile of the new board, so every
      unmatched new tile of its character near the drop point qualifies, and
      `handleMatch` sets the flag of the one new tile it pairs with while
      counting a whole pair. The model's own restart ends the drag instead. */
  function StaleRelease(s: SessionState, stale: Tile, drop: Point, now: int): (r: SessionState)
    requires |s.positions| == |s.tiles|
    ensures |r.tiles| == |s.tiles| && s.matchedPairs <= r.matchedPairs <= s.matchedPairs + 1
    ensures SameSession(s.tiles, r.tiles) && s.score <= r.score
    ensures forall k :: 0 <= k < |s.tiles| && r.tiles[k] != s.tiles[k] ==>
              !s.tiles[k].matched && r.tiles[k] == s.tiles[k].(matched := true) &&
              forall j :: 0 <= j < |s.tiles| && j != k ==> r.tiles[j] == s.tiles[j]
    ensures r.(tiles := s.tiles, matchedPairs := s.matchedPairs, score := s.score) == s
  {
    var candidates := MatchingTiles(s.tiles + [stale], s.positions + [drop], |s.tiles|, drop);
    if candidates == [] then s
    else
      var c := candidates[0];
      assert c in candidates;
      s.(tiles := s.tiles[c := s.tiles[c].(matched := true)],
         matchedPairs := s.matchedPairs + 1,
         score := s.score + MatchPoints(s.difficulty, now - s.startTime))
  }

  /** Such a release breaks the session invariant whenever an unmatched new
      tile of the old tile's character lies near the drop point: one tile is
      matched but a whole pair is counted, and once the counter reaches the
      number of pairs a tile is still unmatched. */
  lemma StaleReleaseBreaksInvariant(s: SessionState, stale: Tile, drop: Point, now: int, k: nat)
    requires ValidState(s)
    requires k < |s.tiles| && !s.tiles[k].matched && s.tiles[k].characterId == stale.characterId
    requires WithinMatchDistance(drop, s.positions[k])
    ensures var r := StaleRelease(s, stale, drop, now);
            r.matchedPairs == s.matchedPairs + 1 &&
            MatchedCount(r.tiles) + 1 == 2 * r.matchedPairs &&
            !ValidState(r) &&
            (r.matchedPairs >= r.totalPairs ==> exists j :: 0 <= j < |r.tiles| && !r.tiles[j].matched)
  {
    var board, ps := s.tiles + [stale], s.positions + [drop];
    assert board[k] == s.tiles[k] && ps[k] == s.positions[k];
    assert IsMatchCandidate(board, ps, |s.tiles|, drop, k);
    var candidates := MatchingTiles(board, ps, |s.tiles|, drop);
    assert k in candidates;
    var c := candidates[0];
    assert c in candidates;
    MatchedCountUpdate(s.tiles, c, s.tiles[c].(matched := true));
    var r := StaleRelease(s, stale, drop, now);
    if r.matchedPairs >= r.totalPairs {
      UnmatchedTileExists(r.tiles);
    }
  }

  /** `handleGameComplete`: stop play and the timer, add the completion bonus. */
  function Completed(s: SessionState, now: int): (r: SessionState)
    ensures !r.isPlaying && !r.timerRunning && s.score <= r.score
    ensures now >= s.startTime ==> r.score <= s.score + 1500
    ensures r.(isPlaying := s.isPlaying, timerRunning := s.timerRunning, score := s.score) == s
  {
    s.(isPlaying := false, timerRunning := false, score := s.score + FinalTimeBonus(now - s.startTime))
  }

  /** A match of two distinct unmatched tiles keeps the invariant, sets
      exactly their two flags, adds one pair and between 100 and
      100 + 2 * time bonus points, and changes nothing else. */
  lemma {:induction false} AfterMatchProperties(s: SessionState, a: nat, b: nat, now: int)
    requires ValidState(s) && s.drag.None?
    requires a < |s.tiles| && b < |s.tiles| && a != b
    requires !s.tiles[a].matched && !s.tiles[b].matched
    ensures var r := AfterMatch(s, a, b, now);
            ValidState(r) && SameSession(s.tiles, r.tiles) &&
            r.tiles[a].matched && r.tiles[b].matched &&
            (forall k :: 0 <= k < |s.tiles| && k != a && k != b ==> r.tiles[k] == s.tiles[k]) &&
            r.matchedPairs == s.matchedPairs + 1 && r.matchedPairs <= r.totalPairs &&
            s.score + PointsPerMatch <= r.score &&
            (now >= s.startTime ==> r.score <= s.score + PointsPerMatch + TimeBonusMultiplier * TimeBonus(s.difficulty)) &&
            r.(tiles := s.tiles, matchedPairs := s.matchedPairs, score := s.score) == s
  {
    var once := s.tiles[a := s.tiles[a].(matched := true)];
    MatchedCountUpdate(s.tiles, a, s.tiles[a].(matched := true));
    MatchedCountUpdate(once, b, once[b].(matched := true));
    var r := AfterMatch(s, a, b, now);
    MatchedPairsBounded(r.tiles, r.matchedPairs, r.totalPairs);
  }

  /** Releasing a tile keeps the invariant and the matched flags; it either
      leaves the session untouched (no candidate) or matches the released tile
      with its first candidate, adding one pair. The score never decreases. */
  lemma AfterCheckProperties(s: SessionState, dragged: nat, drop: Point, now: int)
    requires ValidState(s) && s.drag.None?
    requires dragged < |s.tiles| && !s.tiles[dragged].matched
    ensures var r := AfterCheck(s, dragged, drop, now);
            var candidates := MatchingTiles(s.tiles, s.positions, dragged, drop);
            ValidState(r) && SameSession(s.tiles, r.tiles) && s.score <= r.score &&
            (candidates == [] <==> r == s) &&
            (candidates != [] ==> r.matchedPairs == s.matchedPairs + 1 &&
                                  r.tiles[dragged].matched && r.tiles[candidates[0]].matched)
  {
    var candidates := MatchingTiles(s.tiles, s.positions, dragged, drop);
    if candidates != [] {
      assert candidates[0] in candidates;
      AfterMatchProperties(s, dragged, candidates[0], now);
    }
  }

  /** Completion keeps the board and the invariant, ends play and never lowers the score. */
  lemma CompletedProperties(s: SessionState, now: int)
    requires ValidState(s)
    ensures var r := Completed(s, now);
            ValidState(r) && !r.isPlaying && !r.timerRunning && r.tiles == s.tiles &&
            s.score <= r.score &&
            (now >= s.startTime ==> r.score <= s.score + 1500)
  {
  }

  /** A freshly started session satisfies the invariant: its board is
      unmatched and has two tiles for each of the difficulty's pairs. */
  lemma StartStateValid(d: Difficulty, picks: seq<nat>, placement: seq<Point>, now: int)
    requires ValidPicks(picks, 2 * Pairs(d)) && |placement| == 2 * Pairs(d)
    ensures ValidState(SessionState(true, false, DealtTiles(Pairs(d), picks), placement,
                                    0, Pairs(d), 0, now, true, None, d))
  {
    var tiles := DealtTiles(Pairs(d), picks);
    DealtTilesProperties(Pairs(d), picks, "");
    MatchedCountNone(tiles);
  }

  /** Matched flags are never cleared within a session, over any number of steps. */
  lemma SameSessionTransitive(a: seq<Tile>, b: seq<Tile>, c: seq<Tile>)
    requires SameSession(a, b) && SameSession(b, c)
    ensures SameSession(a, c)
  {
  }

  /** Where the dragged tile goes: its position when the drag began moved by
      the pointer's travel, then kept on the board. */
  function DraggedPosition(d: Drag, pointerX: int, pointerY: int,
                           boardWidth: int, boardHeight: int, tileSize: int): (p: Point)
    ensures boardWidth >= tileSize && boardHeight >= tileSize ==> InBounds(p, boardWidth, boardHeight, tileSize)
    ensures var follow := Point(d.initial.x + (pointerX - d.startX), d.initial.y + (pointerY - d.startY));
            InBounds(follow, boardWidth, boardHeight, tileSize) ==> p == follow
  {
    var newX := d.initial.x + (pointerX - d.startX);
    var newY := d.initial.y + (pointerY - d.startY);
    ClampToBoard(Point(newX, newY), boardWidth, boardHeight, tileSize)
  }

  /** The resize handler's new positions: unmatched tiles clamped, matched ones left alone. */
  function ResizedPositions(tiles: seq<Tile>, positions: seq<Point>,
                            boardWidth: int, boardHeight: int, tileSize: int): (r: seq<Point>)
    requires |positions| == |tiles|
    ensures |r| == |positions|
    ensures forall k :: 0 <= k < |r| && tiles[k].matched ==> r[k] == positions[k]
    ensures forall k :: 0 <= k < |r| && InBounds(positions[k], boardWidth, boardHeight, tileSize) ==> r[k] == positions[k]
    ensures boardWidth >= tileSize && boardHeight >= tileSize ==>
              forall k :: 0 <= k < |r| && !tiles[k].matched ==> InBounds(r[k], boardWidth, boardHeight, tileSize)
  {
    seq(|tiles|, k requires 0 <= k < |tiles| =>
      if tiles[k].matched then positions[k] else ClampToBoard(positions[k], boardWidth, boardHeight, tileSize))
  }

  class Game {
    var isPlaying: bool
    var isPaused: bool
    var tiles: seq<Tile>
    var positions: seq<Point>
    var matchedPairs: nat
    var totalPairs: nat
    var score: nat
    var startTime: int
    var timerRunning: bool
    var drag: Option<Drag>
    var difficulty: Difficulty

    ghost function State(): SessionState
      reads this
    {
      SessionState(isPlaying, isPaused, tiles, positions, matchedPairs, totalPairs,
                   score, startTime, timerRunning, drag, difficulty)
    }

    ghost predicate Valid()
      reads this
    {
      ValidState(State())
    }

    /** The page's initial `gameState`. */
    constructor ()
      ensures Valid()
      ensures State() == SessionState(false, false, [], [], 0, 0, 0, 0, false, None, Medium)
    {
      isPlaying, isPaused := false, false;
      tiles, positions := [], [];
      matchedPairs, totalPairs, score := 0, 0, 0;
      startTime, timerRunning := 0, false;
      drag := None;
      difficulty := Medium;
    }

    /** The difficulty selector; it may change during a game, and later
        matches then score with the new difficulty's time bonus. */
    method SetDifficulty(d: Difficulty)
      requires Valid()
      modifies this
      ensures Valid()
      ensures State() == old(State()).(difficulty := d)
    {
      difficulty := d;
    }

    /** `createTiles`: deal `2 * pairs` shuffled tiles at the given positions. */
    method CreateTiles(picks: seq<nat>, placement: seq<Point>)
      requires ValidPicks(picks, 2 * Pairs(difficulty)) && |placement| == 2 * Pairs(difficulty)
      modifies this
      ensures State() == old(State()).(tiles := DealtTiles(Pairs(old(difficulty)), picks), positions := placement)
    {
      tiles, positions := [], [];
      var shuffled := ShuffleTilePairs(Pairs(difficulty), picks);
      for k := 0 to |shuffled|
        invariant tiles == shuffled[..k] && positions == placement[..k]
        invariant State() == old(State()).(tiles := tiles, positions := positions)
      {
        tiles := tiles + [shuffled[k]];
        positions := positions + [placement[k]];
      }
    }

    /** `startGame`: a fresh board of the selected difficulty, score and
        counter at zero, play and the timer running from `now`. */
    method StartGame(now: int, picks: seq<nat>, placement: seq<Point>)
      requires ValidPicks(picks, 2 * Pairs(difficulty)) && |placement| == 2 * Pairs(difficulty)
      modifies this
      ensures Valid()
      ensures State() == SessionState(true, false, DealtTiles(Pairs(old(difficulty)), picks), placement,
                                      0, Pairs(old(difficulty)), 0, now, true, None, old(difficulty))
    {
      isPlaying := true;
      isPaused := false;
      matchedPairs := 0;
      score := 0;
      startTime := now;
      totalPairs := Pairs(difficulty);
      drag := None;
      CreateTiles(picks, placement);
      timerRunning := true;
      assert State() == SessionState(true, false, DealtTiles(Pairs(difficulty), picks), placement,
                                     0, Pairs(difficulty), 0, now, true, None, difficulty);
      StartStateValid(difficulty, picks, placement, now);
    }

    /** `restartGame`: stop the timer, clear the board, zero score and counter. */
    method RestartGame()
      requires Valid()
      modifies this
      ensures Valid()
      ensures State() == old(State()).(isPlaying := false, isPaused := false, tiles := [], positions := [],
                                       matchedPairs := 0, score := 0, startTime := 0,
                                       timerRunning := false, drag := None)
    {
      timerRunning := false;
      tiles, positions := [], [];
      isPlaying := false;
      isPaused := false;
      matchedPairs := 0;
      score := 0;
      startTime := 0;
      drag := None;
    }

    /** The `r` key: restart a running game, otherwise start one. */
    method PressRestartKey(now: int, picks: seq<nat>, placement: seq<Point>)
      requires Valid()
      requires !isPlaying ==> ValidPicks(picks, 2 * Pairs(difficulty)) && |placement| == 2 * Pairs(difficulty)
      modifies this
      ensures Valid()
      ensures State() == if old(isPlaying)
                         then old(State()).(isPlaying := false, isPaused := false, tiles := [], positions := [],
                                            matchedPairs := 0, score := 0, startTime := 0,
                                            timerRunning := false, drag := None)
                         else SessionState(true, false, DealtTiles(Pairs(old(difficulty)), picks), placement,
                                           0, Pairs(old(difficulty)), 0, now, true, None, old(difficulty))
    {
      if isPlaying {
        RestartGame();
      } else {
        StartGame(now, picks, placement);
      }
    }

    /** The `p` key: toggles the pause flag, but only while a game is running. */
    method TogglePause()
      requires Valid()
      modifies this
      ensures Valid()
      ensures State() == if old(isPlaying) then old(State()).(isPaused := !old(isPaused)) else old(State())
    {
      if isPlaying {
        isPaused := !isPaused;
      }
    }

    /** `startDrag`: only an unmatched tile of a running game can be picked up
        (a paused game still allows it). */
    method StartDrag(k: nat, pointerX: int, pointerY: int)
      requires Valid() && k < |tiles|
      modifies this
      ensures Valid()
      ensures State() == if old(isPlaying) && !old(tiles[k].matched)
                         then old(State()).(drag := Some(Drag(k, pointerX, pointerY, old(positions[k]))))
                         else old(State())
    {
      if !isPlaying || tiles[k].matched {
        return;
      }
      drag := Some(Drag(k, pointerX, pointerY, positions[k]));
    }

    /** `drag`: the dragged tile follows the pointer, kept on the board. */
    method DragTo(pointerX: int, pointerY: int, boardWidth: int, boardHeight: int, tileSize: int)
      requires Valid()
      modifies this
      ensures Valid()
      ensures State() == match old(drag)
                         case None => old(State())
                         case Some(d) => old(State()).(positions := old(positions)[d.tile :=
                                           DraggedPosition(d, pointerX, pointerY, boardWidth, boardHeight, tileSize)])
    {
      match drag
      case None =>
      case Some(d) =>
        positions := positions[d.tile := DraggedPosition(d, pointerX, pointerY, boardWidth, boardHeight, tileSize)];
    }

    /** `handleMatch`. */
    method HandleMatch(a: nat, b: nat, now: int) returns (points: int)
      requires Valid() && drag.None?
      requires a < |tiles| && b < |tiles| && a != b && !tiles[a].matched && !tiles[b].matched
      modifies this
      ensures Valid()
      ensures State() == AfterMatch(old(State()), a, b, now)
      ensures points == score - old(score)
    {
      AfterMatchProperties(State(), a, b, now);
      tiles := tiles[a := tiles[a].(matched := true)];
      tiles := tiles[b := tiles[b].(matched := true)];
      matchedPairs := matchedPairs + 1;
      var elapsedMs := now - startTime;
      points := MatchPoints(difficulty, elapsedMs);
      score := score + points;
    }

    /** `checkForMatches` for the tile released at `drop`. */
    method CheckForMatches(dragged: nat, drop: Point, now: int) returns (matched: bool)
      requires Valid() && drag.None? && dragged < |tiles| && !tiles[dragged].matched
      modifies this
      ensures Valid()
      ensures State() == AfterCheck(old(State()), dragged, drop, now)
      ensures matched <==> MatchingTiles(old(tiles), old(positions), dragged, drop) != []
    {
      var matchingTiles := MatchingTiles(tiles, positions, dragged, drop);
      matched := matchingTiles != [];
      if matched {
        assert matchingTiles[0] in matchingTiles;
        var _ := HandleMatch(dragged, matchingTiles[0], now);
      }
    }

    /** `endDrag`: the drag ends and the tile's final position is checked for a match. */
    method EndDrag(now: int) returns (matched: bool)
      requires Valid()
      modifies this
      ensures Valid()
      ensures old(drag).None? ==> State() == old(State()) && !matched
      ensures old(drag).Some? ==>
                var k := old(drag).value.tile;
                k < |old(tiles)| &&
                State() == AfterCheck(old(State()).(drag := None), k, old(positions)[k], now)
    {
      match drag
      case None =>
        matched := false;
      case Some(d) =>
        drag := None;
        matched := CheckForMatches(d.tile, positions[d.tile], now);
    }

    /** `handleGameComplete`. */
    method HandleGameComplete(now: int)
      requires Valid()
      modifies this
      ensures Valid()
      ensures State() == Completed(old(State()), now)
    {
      isPlaying := false;
      timerRunning := false;
      var elapsedMs := now - startTime;
      score := score + FinalTimeBonus(elapsedMs);
    }

    /** The callback a match schedules: complete the game once every pair is matched. */
    method CompletionCheck(now: int)
      requires Valid()
      modifies this
      ensures Valid()
      ensures State() == if old(matchedPairs) >= old(totalPairs) then Completed(old(State()), now) else old(State())
    {
      if matchedPairs >= totalPairs {
        HandleGameComplete(now);
      }
    }

    /** The window's resize handler: while a game runs, clamp every unmatched
        tile back onto the board. */
    method Resize(boardWidth: int, boardHeight: int, tileSize: int)
      requires Valid()
      modifies this
      ensures Valid()
      ensures State() == if old(isPlaying)
                         then old(State()).(positions := ResizedPositions(old(tiles), old(positions), boardWidth, boardHeight, tileSize))
                         else old(State())
    {
      if !isPlaying {
        return;
      }
      ghost var target := ResizedPositions(tiles, positions, boardWidth, boardHeight, tileSize);
      for k := 0 to |tiles|
        invariant |positions| == |tiles| && tiles == old(tiles)
        invariant forall i :: 0 <= i < k ==> positions[i] == target[i]
        invariant forall i :: k <= i < |tiles| ==> positions[i] == old(positions)[i]
        invariant State() == old(State()).(positions := positions)
      {
        if !tiles[k].matched {
          positions := positions[k := ClampToBoard(positions[k], boardWidth, boardHeight, tileSize)];
        }
      }
      assert positions == target;
    }

    /** One timer tick: the `m:ss` display while a game runs unpaused, nothing otherwise. */
    method TimerTick(now: int) returns (display: Option<string>)
      requires now >= startTime
      ensures display.Some? <==> timerRunning && isPlaying && !isPaused
      ensures display.Some? ==> display.value == TimerText(now - startTime)
    {
      if !timerRunning || !isPlaying || isPaused {
        return None;
      }
      display := Some(TimerText(now - startTime));
    }

    /** The "remaining" counter `totalPairs - matchedPairs`, never negative. */
    function Remaining(): (r: nat)
      reads this
      requires Valid()
      ensures r + matchedPairs == totalPairs
    {
      MatchedPairsBounded(tiles, matchedPairs, totalPairs);
      totalPairs - matchedPairs
    }
  }
}
