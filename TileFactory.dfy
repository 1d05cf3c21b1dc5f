/** Building a session's tiles: two tiles per pair, characters taken from the
    roster in turn, then a Fisher-Yates shuffle whose random draws are given. */
module TileFactory {
  import opened GameConfig
  import opened Decimal
  import opened Tiles

  /** The id `${character}_${pair}_${copy}`: the character id, then the pair
      and copy numbers, each after an underscore. */
  function TileId(characterId: string, pair: nat, copy: nat): (id: string)
    ensures |characterId| + 4 <= |id| && id[..|characterId| + 1] == characterId + "_"
  {
    characterId + "_" + NatToString(pair) + "_" + NatToString(copy)
  }

  /** Reads the pair and copy numbers back from the two trailing fields of an id. */
  function DecodeTileId(id: string): (nat, nat)
  {
    var (rest, copy) := SplitLast(id, '_');
    var (_, pair) := SplitLast(rest, '_');
    (ParseNat(pair), ParseNat(copy))
  }

  lemma DigitsHaveNoUnderscore(s: string)
    requires IsDigits(s)
    ensures '_' !in s
  {
  }

  /** Whatever the character id holds, the id gives back its pair and copy numbers. */
  lemma DecodeTileIdRoundTrip(characterId: string, pair: nat, copy: nat)
    ensures DecodeTileId(TileId(characterId, pair, copy)) == (pair, copy)
  {
    DecodeJoined(characterId, NatToString(pair), NatToString(copy));
    ParseNatToString(pair);
    ParseNatToString(copy);
  }

  /** Two digit fields joined to any prefix by underscores are the two fields
      the decoder reads. */
  lemma DecodeJoined(prefix: string, p: string, c: string)
    requires IsDigits(p) && IsDigits(c)
    ensures DecodeTileId(prefix + "_" + p + "_" + c) == (ParseNat(p), ParseNat(c))
  {
    DigitsHaveNoUnderscore(p);
    DigitsHaveNoUnderscore(c);
    assert prefix + "_" + p + "_" + c == (prefix + "_" + p) + ['_'] + c;
    SplitLastJoin(prefix + "_" + p, '_', c);
    assert prefix + "_" + p == prefix + ['_'] + p;
    SplitLastJoin(prefix, '_', p);
  }

  /** The character of pair `i`: `CHARACTERS[i % CHARACTERS.length]`, the
      roster taken in turn. */
  function PairCharacter(i: nat): (c: Character)
    ensures c in Characters
    ensures i < |Characters| ==> c == Characters[i]
    ensures i >= |Characters| ==> c == Characters[(i - |Characters|) % |Characters|]
  {
    Characters[i % |Characters|]
  }

  /** Copy `j` of pair `i`, as the factory creates it: unmatched, showing the
      pair's character, with an id that reads back as `(i, j)`. */
  function PairTile(i: nat, j: nat): (t: Tile)
    ensures !t.matched && t.characterId == PairCharacter(i).id
  {
    Tile(TileId(PairCharacter(i).id, i, j), PairCharacter(i).id, false)
  }

  /** The tiles before shuffling: pair 0's two copies, then pair 1's, and so on. */
  function UnshuffledTiles(numPairs: nat): (tiles: seq<Tile>)
    ensures |tiles| == 2 * numPairs
  {
    if numPairs == 0 then []
    else UnshuffledTiles(numPairs - 1) + [PairTile(numPairs - 1, 0), PairTile(numPairs - 1, 1)]
  }

  /** Tiles `2i` and `2i+1` are the two copies of pair `i`. */
  lemma {:induction false} UnshuffledTileAt(numPairs: nat, k: nat)
    requires k < 2 * numPairs
    ensures UnshuffledTiles(numPairs)[k] == PairTile(k / 2, k % 2)
  {
    var front := UnshuffledTiles(numPairs - 1);
    if k < 2 * (numPairs - 1) {
      UnshuffledTileAt(numPairs - 1, k);
      assert UnshuffledTiles(numPairs)[k] == front[k];
    } else if k == 2 * numPairs - 2 {
      assert k / 2 == numPairs - 1 && k % 2 == 0;
    } else {
      assert k / 2 == numPairs - 1 && k % 2 == 1;
    }
  }

  /** Every tile id is distinct, and every tile starts unmatched. */
  lemma UnshuffledTilesFresh(numPairs: nat)
    ensures Distinct(Ids(UnshuffledTiles(numPairs)))
    ensures forall k :: 0 <= k < 2 * numPairs ==> !UnshuffledTiles(numPairs)[k].matched
  {
    var tiles := UnshuffledTiles(numPairs);
    forall k | 0 <= k < |tiles| ensures !tiles[k].matched {
      UnshuffledTileAt(numPairs, k);
    }
    forall a, b | 0 <= a < |tiles| && 0 <= b < |tiles| && a != b
      ensures Ids(tiles)[a] != Ids(tiles)[b]
    {
      UnshuffledTileAt(numPairs, a);
      UnshuffledTileAt(numPairs, b);
      DecodeTileIdRoundTrip(PairCharacter(a / 2).id, a / 2, a % 2);
      DecodeTileIdRoundTrip(PairCharacter(b / 2).id, b / 2, b % 2);
    }
  }

  lemma AppendTwiceKeepsParity<T>(s: seq<T>, x: T, c: T)
    ensures multiset(s + [x, x])[c] % 2 == multiset(s)[c] % 2
  {
    assert multiset(s + [x, x]) == multiset(s) + multiset{x, x};
  }

  lemma UnshuffledCharacterIdsSnoc(numPairs: nat)
    requires numPairs > 0
    ensures var c := PairCharacter(numPairs - 1).id;
            CharacterIds(UnshuffledTiles(numPairs)) == CharacterIds(UnshuffledTiles(numPairs - 1)) + [c, c]
  {
  }

  /** Every character appears on an even number of tiles. */
  lemma {:induction false} UnshuffledCharacterCountsEven(numPairs: nat, c: string)
    ensures multiset(CharacterIds(UnshuffledTiles(numPairs)))[c] % 2 == 0
  {
    if numPairs == 0 {
      assert CharacterIds(UnshuffledTiles(0)) == [];
    } else {
      UnshuffledCharacterIdsSnoc(numPairs);
      AppendTwiceKeepsParity(CharacterIds(UnshuffledTiles(numPairs - 1)), PairCharacter(numPairs - 1).id, c);
      UnshuffledCharacterCountsEven(numPairs - 1, c);
    }
  }

  /** With more pairs than characters, tiles of different pairs share a
      character: pairs 0 and |Characters| show the same picture. Every
      difficulty deals more pairs than there are characters, so no difficulty
      has exactly two tiles per character. */
  lemma CharactersReusedBeyondRoster(d: Difficulty)
    ensures var tiles := UnshuffledTiles(Pairs(d));
            var k := 2 * |Characters|;
            k < |tiles| && tiles[0].characterId == tiles[1].characterId == tiles[k].characterId == tiles[k + 1].characterId &&
            Distinct([tiles[0].id, tiles[1].id, tiles[k].id, tiles[k + 1].id])
  {
    var tiles := UnshuffledTiles(Pairs(d));
    var k := 2 * |Characters|;
    UnshuffledTilesFresh(Pairs(d));
    UnshuffledTileAt(Pairs(d), 0);
    UnshuffledTileAt(Pairs(d), 1);
    UnshuffledTileAt(Pairs(d), k);
    UnshuffledTileAt(Pairs(d), k + 1);
    assert Ids(tiles)[0] == tiles[0].id && Ids(tiles)[1] == tiles[1].id;
    assert Ids(tiles)[k] == tiles[k].id && Ids(tiles)[k + 1] == tiles[k + 1].id;
  }

  // ---------------------------------------------------------------------------
  // Fisher-Yates shuffle

  /** Random draws for a shuffle of `n` elements: entry `i` stands for
      `Math.floor(Math.random() * (i + 1))`; entry 0 is never drawn. */
  predicate ValidPicks(picks: seq<nat>, n: nat)
  {
    |picks| == n && forall i :: 0 < i < n ==> picks[i] <= i
  }

  function Swap<T>(s: seq<T>, i: nat, j: nat): (r: seq<T>)
    requires i < |s| && j < |s|
    ensures |r| == |s| && r[i] == s[j] && r[j] == s[i]
    ensures forall k :: 0 <= k < |s| && k != i && k != j ==> r[k] == s[k]
  {
    s[i := s[j]][j := s[i]]
  }

  /** The result of the shuffle's steps `i, i - 1, ..., 1` applied to `s`. */
  function FisherYates<T>(s: seq<T>, picks: seq<nat>, i: int): (r: seq<T>)
    requires ValidPicks(picks, |s|) && -1 <= i < |s|
    ensures |r| == |s|
    decreases i + 1
  {
    if i <= 0 then s else FisherYates(Swap(s, i, picks[i]), picks, i - 1)
  }

  /** `shuffleArray` on a sequence: the same elements, reordered by the draws. */
  function Shuffle<T>(s: seq<T>, picks: seq<nat>): (r: seq<T>)
    requires ValidPicks(picks, |s|)
    ensures |r| == |s| && multiset(r) == multiset(s)
  {
    FisherYatesPermutes(s, picks, |s| - 1);
    FisherYates(s, picks, |s| - 1)
  }

  lemma SwapPermutes<T>(s: seq<T>, i: nat, j: nat)
    requires i < |s| && j < |s|
    ensures multiset(Swap(s, i, j)) == multiset(s)
  {
  }

  /** The shuffle is a permutation: it keeps every element and its multiplicity. */
  lemma {:induction false} FisherYatesPermutes<T>(s: seq<T>, picks: seq<nat>, i: int)
    requires ValidPicks(picks, |s|) && -1 <= i < |s|
    ensures multiset(FisherYates(s, picks, i)) == multiset(s)
    decreases i + 1
  {
    if i > 0 {
      SwapPermutes(s, i, picks[i]);
      FisherYatesPermutes(Swap(s, i, picks[i]), picks, i - 1);
    }
  }

  /** Shuffling commutes with projecting every element. */
  lemma {:induction false} FisherYatesMap<T, U>(f: T -> U, s: seq<T>, picks: seq<nat>, i: int)
    requires ValidPicks(picks, |s|) && -1 <= i < |s|
    ensures MapSeq(f, FisherYates(s, picks, i)) == FisherYates(MapSeq(f, s), picks, i)
    decreases i + 1
  {
    if i > 0 {
      assert MapSeq(f, Swap(s, i, picks[i])) == Swap(MapSeq(f, s), i, picks[i]);
      FisherYatesMap(f, Swap(s, i, picks[i]), picks, i - 1);
    }
  }

  lemma SwapKeepsDistinct<T>(s: seq<T>, i: nat, j: nat)
    requires i < |s| && j < |s| && Distinct(s)
    ensures Distinct(Swap(s, i, j))
  {
    var r := Swap(s, i, j);
    forall a, b | 0 <= a < |r| && 0 <= b < |r| && a != b ensures r[a] != r[b] {
      var a' := if a == i then j else if a == j then i else a;
      var b' := if b == i then j else if b == j then i else b;
      assert r[a] == s[a'] && r[b] == s[b'];
    }
  }

  lemma {:induction false} FisherYatesKeepsDistinct<T>(s: seq<T>, picks: seq<nat>, i: int)
    requires ValidPicks(picks, |s|) && -1 <= i < |s| && Distinct(s)
    ensures Distinct(FisherYates(s, picks, i))
    decreases i + 1
  {
    if i > 0 {
      SwapKeepsDistinct(s, i, picks[i]);
      FisherYatesKeepsDistinct(Swap(s, i, picks[i]), picks, i - 1);
    }
  }

  /** `shuffleArray`: in place, from the last index down to 1, swap with the drawn index. */
  method ShuffleArray<T>(a: array<T>, picks: seq<nat>)
    requires ValidPicks(picks, a.Length)
    modifies a
    ensures a[..] == Shuffle(old(a[..]), picks)
    ensures multiset(a[..]) == multiset(old(a[..]))
  {
    var i := a.Length - 1;
    while i > 0
      invariant -1 <= i < a.Length
      invariant FisherYates(a[..], picks, i) == Shuffle(old(a[..]), picks)
      invariant multiset(a[..]) == multiset(old(a[..]))
      decreases i
    {
      var j := picks[i];
      ghost var before := a[..];
      a[i], a[j] := a[j], a[i];
      assert a[..] == Swap(before, i, j);
      SwapPermutes(before, i, j);
      i := i - 1;
    }
  }

  /** The loop of `createTiles` that pushes two tiles for every pair. */
  method BuildTilePairs(numPairs: nat) returns (tilePairs: seq<Tile>)
    ensures tilePairs == UnshuffledTiles(numPairs)
  {
    tilePairs := [];
    for i := 0 to numPairs
      invariant tilePairs == UnshuffledTiles(i)
    {
      ghost var pair := [PairTile(i, 0), PairTile(i, 1)];
      for j := 0 to 2
        invariant tilePairs == UnshuffledTiles(i) + pair[..j]
      {
        var character := PairCharacter(i);
        var tile := Tile(TileId(character.id, i, j), character.id, false);
        assert tile == pair[j];
        assert pair[..j + 1] == pair[..j] + [tile];
        tilePairs := tilePairs + [tile];
      }
      assert pair[..2] == pair;
      assert UnshuffledTiles(i + 1) == UnshuffledTiles(i) + pair;
    }
  }

  /** The tiles of a new session, in board order. */
  function DealtTiles(numPairs: nat, picks: seq<nat>): (tiles: seq<Tile>)
    requires ValidPicks(picks, 2 * numPairs)
    ensures |tiles| == 2 * numPairs && multiset(tiles) == multiset(UnshuffledTiles(numPairs))
  {
    Shuffle(UnshuffledTiles(numPairs), picks)
  }

  /** The part of `createTiles` before placement: build the pairs into an
      array and shuffle it in place. */
  method ShuffleTilePairs(numPairs: nat, picks: seq<nat>) returns (shuffled: seq<Tile>)
    requires ValidPicks(picks, 2 * numPairs)
    ensures shuffled == DealtTiles(numPairs, picks)
  {
    var tilePairs := BuildTilePairs(numPairs);
    var board := new Tile[|tilePairs|](k requires 0 <= k < |tilePairs| => tilePairs[k]);
    assert board[..] == tilePairs;
    ShuffleArray(board, picks);
    shuffled := board[..];
  }

  /** A dealt board holds exactly the factory's tiles, reordered: `2 * numPairs`
      unmatched tiles with distinct ids, each character on an even number of them. */
  lemma DealtTilesProperties(numPairs: nat, picks: seq<nat>, c: string)
    requires ValidPicks(picks, 2 * numPairs)
    ensures var tiles := DealtTiles(numPairs, picks);
            |tiles| == 2 * numPairs &&
            multiset(tiles) == multiset(UnshuffledTiles(numPairs)) &&
            Distinct(Ids(tiles)) &&
            (forall k :: 0 <= k < |tiles| ==> !tiles[k].matched) &&
            multiset(CharacterIds(tiles))[c] % 2 == 0
  {
    var source := UnshuffledTiles(numPairs);
    var tiles := DealtTiles(numPairs, picks);
    FisherYatesPermutes(source, picks, |source| - 1);
    UnshuffledTilesFresh(numPairs);
    FisherYatesMap(IdOf, source, picks, |source| - 1);
    FisherYatesKeepsDistinct(Ids(source), picks, |source| - 1);
    FisherYatesMap(CharacterOf, source, picks, |source| - 1);
    FisherYatesPermutes(CharacterIds(source), picks, |source| - 1);
    UnshuffledCharacterCountsEven(numPairs, c);
    forall k | 0 <= k < |tiles| ensures !tiles[k].matched {
      assert tiles[k] in multiset(source);
    }
  }
}
