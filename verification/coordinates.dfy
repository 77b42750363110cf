/** Positions and the coordinate system that stores the local one. The
    coordinate system's conversion (spherical or planar) is not part of this
    model: it is an arbitrary total, deterministic `normalize`. */
module Coordinates {
  import opened Doubles

  /** A position: its two components and whether it has ever been set. */
  datatype Coordinate = Coordinate(x: Double, y: Double, enabled: bool)

  /** True when `next` is at another place than `prev`, in the sense of the
      context's change test: the x components or the y components compare
      unequal as doubles. The `enabled` flag plays no part. */
  predicate Moved(prev: Coordinate, next: Coordinate)
  {
    !Eq(prev.x, next.x) || !Eq(prev.y, next.y)
  }

  /** A component holds NaN. */
  predicate HasNaN(p: Coordinate)
  {
    p.x.NaN? || p.y.NaN?
  }

  /** `Moved` is structural inequality of the components, except that a
      NaN on either side always counts as a move. */
  lemma MovedIffComponentsDifferOrNaN(prev: Coordinate, next: Coordinate)
    ensures Moved(prev, next) <==> (prev.x != next.x || prev.y != next.y || HasNaN(prev) || HasNaN(next))
  {
  }

  /** The coordinate system owned by a context: its conversion and the local
      position it currently stores (always a converted value once set). */
  datatype CoordSystem = CoordSystem(normalize: Coordinate -> Coordinate, local: Coordinate)
  {
    /** Store a new local position: the conversion of `pos` replaces the
        stored one; the conversion itself is kept. */
    function Store(pos: Coordinate): CoordSystem
    {
      this.(local := normalize(pos))
    }
  }
}
