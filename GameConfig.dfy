/** The game's fixed configuration: the three difficulty levels, the match
    threshold, the scoring constants and the character roster. */
module GameConfig {

  /** The difficulty levels offered by the selector; a new session starts on Medium. */
  datatype Difficulty = Easy | Medium | Hard

  /** A character whose picture appears on two or more tiles. */
  datatype Character = Character(id: string, name: string)

  /** Number of tile pairs dealt at each difficulty. */
  function Pairs(d: Difficulty): (n: nat)
    ensures |Characters| < n <= 3 * |Characters|
  {
    match d
    case Easy => 6
    case Medium => 8
    case Hard => 12
  }

  /** Starting time bonus of a match, decaying by one every ten seconds. */
  function TimeBonus(d: Difficulty): (b: nat)
    ensures 10 <= b <= 20
  {
    match d
    case Easy => 10
    case Medium => 15
    case Hard => 20
  }

  /** Largest distance, in pixels, between a released tile and its partner. */
  const MatchDistance: nat := 60

  const PointsPerMatch: nat := 100

  const TimeBonusMultiplier: nat := 2

  /** The roster, reused cyclically when there are more pairs than characters. */
  const Characters: seq<Character> := [
    Character("leo1", "DiCaprio 1"),
    Character("leo2", "DiCaprio 2"),
    Character("detective1", "Detective 1"),
    Character("detective2", "Detective 2")
  ]
}
