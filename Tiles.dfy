/** The tile record of `gameState.tiles` and the facts about its matched flags
    that the session's invariant rests on. */
module Tiles {

  /** A tile: its unique id, the character it shows, and whether it has been
      matched. Presentation fields (name, picture, DOM element) are not modelled. */
  datatype Tile = Tile(id: string, characterId: string, matched: bool)

  function IdOf(t: Tile): string { t.id }

  function CharacterOf(t: Tile): string { t.characterId }

  function MapSeq<T, U>(f: T -> U, s: seq<T>): (r: seq<U>)
    ensures |r| == |s|
    ensures forall k :: 0 <= k < |s| ==> r[k] == f(s[k])
  {
    seq(|s|, k requires 0 <= k < |s| => f(s[k]))
  }

  function Ids(tiles: seq<Tile>): seq<string> { MapSeq(IdOf, tiles) }

  function CharacterIds(tiles: seq<Tile>): seq<string> { MapSeq(CharacterOf, tiles) }

  predicate Distinct<T(==)>(s: seq<T>)
  {
    forall i, j :: 0 <= i < |s| && 0 <= j < |s| && i != j ==> s[i] != s[j]
  }

  /** Number of matched tiles. */
  function MatchedCount(tiles: seq<Tile>): (n: nat)
    ensures n <= |tiles|
  {
    if tiles == [] then 0
    else MatchedCount(tiles[..|tiles| - 1]) + (if tiles[|tiles| - 1].matched then 1 else 0)
  }

  function Flag(b: bool): nat { if b then 1 else 0 }

  /** Replacing one tile changes the count by the difference of the two flags. */
  lemma {:induction false} MatchedCountUpdate(tiles: seq<Tile>, i: nat, t: Tile)
    requires i < |tiles|
    ensures MatchedCount(tiles[i := t]) == MatchedCount(tiles) - Flag(tiles[i].matched) + Flag(t.matched)
    decreases |tiles|
  {
    var n := |tiles| - 1;
    var updated := tiles[i := t];
    if i == n {
      assert updated[..n] == tiles[..n];
    } else {
      assert updated[..n] == tiles[..n][i := t];
      MatchedCountUpdate(tiles[..n], i, t);
    }
  }

  /** A board with no matched tile counts zero. */
  lemma {:induction false} MatchedCountNone(tiles: seq<Tile>)
    requires forall k :: 0 <= k < |tiles| ==> !tiles[k].matched
    ensures MatchedCount(tiles) == 0
  {
    if tiles != [] {
      MatchedCountNone(tiles[..|tiles| - 1]);
    }
  }

  /** The count reaches the board's size only when every tile is matched. */
  lemma {:induction false} MatchedCountFull(tiles: seq<Tile>)
    requires MatchedCount(tiles) == |tiles|
    ensures forall k :: 0 <= k < |tiles| ==> tiles[k].matched
  {
    if tiles != [] {
      var n := |tiles| - 1;
      MatchedCountFull(tiles[..n]);
      forall k | 0 <= k < |tiles| ensures tiles[k].matched {
        if k < n {
          assert tiles[k] == tiles[..n][k];
        }
      }
    }
  }

  /** A count below the board's size leaves some tile unmatched. */
  lemma {:induction false} UnmatchedTileExists(tiles: seq<Tile>)
    requires MatchedCount(tiles) < |tiles|
    ensures exists j :: 0 <= j < |tiles| && !tiles[j].matched
  {
    var n := |tiles| - 1;
    if tiles[n].matched {
      UnmatchedTileExists(tiles[..n]);
      var j :| 0 <= j < n && !tiles[..n][j].matched;
      assert tiles[j] == tiles[..n][j];
    } else {
      assert 0 <= n < |tiles| && !tiles[n].matched;
    }
  }

  /** `after` is the same board as `before` later in one session: same tiles
      in the same order, and every matched flag that was set is still set. */
  ghost predicate SameSession(before: seq<Tile>, after: seq<Tile>)
  {
    |after| == |before| &&
    forall k :: 0 <= k < |before| ==>
      after[k].id == before[k].id && after[k].characterId == before[k].characterId &&
      (before[k].matched ==> after[k].matched)
  }
}
