/** The decision taken when a dragged tile is released: which other tiles it
    may pair with, and which one it pairs with. */
module MatchEngine {
  import opened Tiles
  import opened Geometry

  predicate WellFormedBoard(tiles: seq<Tile>, positions: seq<Point>, dragged: nat)
  {
    |positions| == |tiles| && dragged < |tiles|
  }

  /** Tile `i` may pair with the tile released at `drop`: it is another tile,
      still unmatched, of the same character, and within the match distance. */
  predicate IsMatchCandidate(tiles: seq<Tile>, positions: seq<Point>, dragged: nat, drop: Point, i: nat): (r: bool)
    requires WellFormedBoard(tiles, positions, dragged) && i < |tiles|
    ensures r ==> i != dragged && !tiles[i].matched && tiles[i].characterId == tiles[dragged].characterId &&
                  -60 <= drop.x - positions[i].x <= 60 && -60 <= drop.y - positions[i].y <= 60
    ensures (i != dragged && !tiles[i].matched && tiles[i].characterId == tiles[dragged].characterId &&
             -42 <= drop.x - positions[i].x <= 42 && -42 <= drop.y - positions[i].y <= 42) ==> r
  {
    i != dragged && !tiles[i].matched &&
    tiles[i].characterId == tiles[dragged].characterId &&
    WithinMatchDistance(drop, positions[i])
  }

  predicate Increasing(s: seq<nat>)
  {
    forall a, b :: 0 <= a < b < |s| ==> s[a] < s[b]
  }

  /** The candidates among the first `n` tiles, in board order. */
  function CandidatesBelow(tiles: seq<Tile>, positions: seq<Point>, dragged: nat, drop: Point, n: nat): (r: seq<nat>)
    requires WellFormedBoard(tiles, positions, dragged) && n <= |tiles|
    ensures forall i: nat :: i in r <==> i < n && IsMatchCandidate(tiles, positions, dragged, drop, i)
    ensures forall k :: 0 <= k < |r| ==> r[k] < n
    ensures Increasing(r)
  {
    if n == 0 then []
    else
      var front := CandidatesBelow(tiles, positions, dragged, drop, n - 1);
      if IsMatchCandidate(tiles, positions, dragged, drop, n - 1) then
        assert forall k :: 0 <= k < |front| ==> front[k] in front && front[k] < n - 1;
        front + [n - 1]
      else front
  }

  /** `matchingTiles`: the filter of `checkForMatches`, as indices in board order. */
  function MatchingTiles(tiles: seq<Tile>, positions: seq<Point>, dragged: nat, drop: Point): (r: seq<nat>)
    requires WellFormedBoard(tiles, positions, dragged)
    ensures forall i: nat :: i in r <==> i < |tiles| && IsMatchCandidate(tiles, positions, dragged, drop, i)
    ensures forall k :: 0 <= k < |r| ==> r[k] < |tiles|
    ensures Increasing(r)
  {
    CandidatesBelow(tiles, positions, dragged, drop, |tiles|)
  }

  /** The partner chosen is `matchingTiles[0]`: the first candidate in board
      order, and no candidate at all means no partner. */
  lemma ChosenPartnerIsFirstCandidate(tiles: seq<Tile>, positions: seq<Point>, dragged: nat, drop: Point)
    requires WellFormedBoard(tiles, positions, dragged)
    ensures var r := MatchingTiles(tiles, positions, dragged, drop);
            (r == [] <==> forall i :: 0 <= i < |tiles| ==> !IsMatchCandidate(tiles, positions, dragged, drop, i)) &&
            (r != [] ==> r[0] < |tiles| && IsMatchCandidate(tiles, positions, dragged, drop, r[0]) &&
                         forall i :: 0 <= i < r[0] ==> !IsMatchCandidate(tiles, positions, dragged, drop, i))
  {
    var r := MatchingTiles(tiles, positions, dragged, drop);
    if r != [] {
      assert r[0] in r;
      assert forall k :: 0 <= k < |r| ==> r[0] <= r[k];
      forall i: nat | i < r[0] ensures i !in r {
      }
    } else {
      forall i | 0 <= i < |tiles| ensures !IsMatchCandidate(tiles, positions, dragged, drop, i) {
        assert i !in r;
      }
    }
  }

  /** Tiles of different characters never pair, however close, and a matched
      tile or the dragged tile itself is never a candidate. */
  lemma CandidatesShareCharacter(tiles: seq<Tile>, positions: seq<Point>, dragged: nat, drop: Point, i: nat)
    requires WellFormedBoard(tiles, positions, dragged) && i < |tiles|
    requires tiles[i].characterId != tiles[dragged].characterId || tiles[i].matched || i == dragged
    ensures i !in MatchingTiles(tiles, positions, dragged, drop)
  {
  }

  /** The source comment calls the chosen partner "the closest one", but a
      candidate earlier on the board wins over a nearer one: dropped at the
      origin, the tile 50 pixels away is chosen over the one 10 pixels away. */
  lemma FirstCandidateNotNearest()
    ensures var t := Tile("a", "leo1", false);
            var tiles := [t.(id := "leo1_0_0"), t.(id := "leo1_4_0"), t.(id := "leo1_0_1")];
            var positions := [Point(0, 0), Point(50, 0), Point(10, 0)];
            var r := MatchingTiles(tiles, positions, 0, Point(0, 0));
            r == [1, 2] && DistanceSquared(Point(0, 0), positions[r[1]]) < DistanceSquared(Point(0, 0), positions[r[0]])
  {
    var t := Tile("a", "leo1", false);
    var tiles := [t.(id := "leo1_0_0"), t.(id := "leo1_4_0"), t.(id := "leo1_0_1")];
    var positions := [Point(0, 0), Point(50, 0), Point(10, 0)];
    var r := MatchingTiles(tiles, positions, 0, Point(0, 0));
    assert CandidatesBelow(tiles, positions, 0, Point(0, 0), 1) == [];
    assert CandidatesBelow(tiles, positions, 0, Point(0, 0), 2) == [1];
  }
}
