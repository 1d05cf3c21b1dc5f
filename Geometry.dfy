/** Board geometry: integer pixel positions, the match-distance test and the
    clamping that keeps a tile on the board. */
module Geometry {
  import opened GameConfig

  /** Top-left corner of a tile, in board-local pixels. */
  datatype Point = Point(x: int, y: int)

  function DistanceSquared(a: Point, b: Point): (d: int)
    ensures d >= 0
    ensures d == 0 <==> a == b
  {
    var dx := a.x - b.x;
    var dy := a.y - b.y;
    DiscShape(dx, dy);
    dx * dx + dy * dy
  }

  /** `sqrt(dx*dx + dy*dy) <= MatchDistance`, decided without the square root.
      It is the Euclidean disc of radius 60: along an axis it admits exactly
      the offsets of at most 60 pixels, any match is within 60 pixels on each
      axis, and offsets of at most 42 pixels on both axes always match. */
  predicate WithinMatchDistance(a: Point, b: Point): (r: bool)
    ensures a.y == b.y ==> (r <==> -60 <= a.x - b.x <= 60)
    ensures r ==> -60 <= a.x - b.x <= 60 && -60 <= a.y - b.y <= 60
    ensures -42 <= a.x - b.x <= 42 && -42 <= a.y - b.y <= 42 ==> r
  {
    DiscShape(a.x - b.x, a.y - b.y);
    DistanceSquared(a, b) <= MatchDistance * MatchDistance
  }

  lemma SquareMonotone(u: int, v: int)
    requires 0 <= u <= v
    ensures u * u <= v * v
  {
  }

  /** The sum of two squares: never negative, zero only at the origin, and
      compared with the squared match distance it bounds each offset. */
  lemma DiscShape(dx: int, dy: int)
    ensures dx * dx >= 0 && dy * dy >= 0
    ensures dx * dx + dy * dy == 0 <==> dx == 0 && dy == 0
    ensures dy == 0 ==> (dx * dx + dy * dy <= 3600 <==> -60 <= dx <= 60)
    ensures dx * dx + dy * dy <= 3600 ==> -60 <= dx <= 60 && -60 <= dy <= 60
    ensures -42 <= dx <= 42 && -42 <= dy <= 42 ==> dx * dx + dy * dy <= 3600
  {
    var ax, ay := if dx < 0 then -dx else dx, if dy < 0 then -dy else dy;
    assert dx * dx == ax * ax && dy * dy == ay * ay;
    SquareMonotone(0, ax);
    SquareMonotone(0, ay);
    if ax > 0 {
      SquareMonotone(1, ax);
    }
    if ay > 0 {
      SquareMonotone(1, ay);
    }
    if ax > 60 {
      SquareMonotone(61, ax);
    }
    if ay > 60 {
      SquareMonotone(61, ay);
    }
    if ax <= 42 && ay <= 42 {
      SquareMonotone(ax, 42);
      SquareMonotone(ay, 42);
    }
    if ax <= 60 {
      SquareMonotone(ax, 60);
    }
  }

  /** Squared distance is a metric's square: symmetric, never negative and zero exactly at one point. */
  lemma DistanceSquaredProperties(a: Point, b: Point)
    ensures DistanceSquared(a, b) == DistanceSquared(b, a)
    ensures DistanceSquared(a, b) >= 0
    ensures DistanceSquared(a, b) == 0 <==> a == b
  {
    var dx, dy := a.x - b.x, a.y - b.y;
    assert dx * dx == (-dx) * (-dx);
    assert dy * dy == (-dy) * (-dy);
  }

  function Min(a: int, b: int): int { if a < b then a else b }

  function Max(a: int, b: int): int { if a < b then b else a }

  /** `Math.max(0, Math.min(v, hi))`: the position closest to `v` in `[0, hi]`,
      and 0 when the board is narrower than a tile. */
  function Clamp(v: int, hi: int): (r: int)
    ensures hi >= 0 ==> 0 <= r <= hi
    ensures 0 <= v <= hi ==> r == v
    ensures v < 0 || hi < 0 ==> r == 0
    ensures 0 <= hi < v ==> r == hi
  {
    Max(0, Min(v, hi))
  }

  /** Clamping is idempotent, and no point of `[0, hi]` is closer to `v` than the clamped one. */
  lemma ClampNearest(v: int, hi: int, w: int)
    requires 0 <= w <= hi
    ensures Clamp(Clamp(v, hi), hi) == Clamp(v, hi)
    ensures (if v < Clamp(v, hi) then Clamp(v, hi) - v else v - Clamp(v, hi))
            <= (if v < w then w - v else v - w)
  {
  }

  /** Clamps both coordinates of a tile's top-left corner into a board of the
      given size. */
  function ClampToBoard(p: Point, boardWidth: int, boardHeight: int, tileSize: int): (r: Point)
    ensures boardWidth >= tileSize ==> 0 <= r.x <= boardWidth - tileSize
    ensures boardHeight >= tileSize ==> 0 <= r.y <= boardHeight - tileSize
    ensures InBounds(p, boardWidth, boardHeight, tileSize) ==> r == p
  {
    Point(Clamp(p.x, boardWidth - tileSize), Clamp(p.y, boardHeight - tileSize))
  }

  predicate InBounds(p: Point, boardWidth: int, boardHeight: int, tileSize: int)
  {
    0 <= p.x <= boardWidth - tileSize && 0 <= p.y <= boardHeight - tileSize
  }
}
