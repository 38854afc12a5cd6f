/** The sixteen compass points at which a connection docks to a room. */
module Compass {

  /**
   * A docking point. The sixteen named points are listed clockwise from north;
   * `Undefined` is any other value the underlying enumeration can hold (a
   * corrupted docking value), which the export treats as a fault.
   */
  datatype CompassPoint =
    | North | NorthNorthEast | NorthEast | EastNorthEast
    | East | EastSouthEast | SouthEast | SouthSouthEast
    | South | SouthSouthWest | SouthWest | WestSouthWest
    | West | WestNorthWest | NorthWest | NorthNorthWest
    | Undefined(ordinal: int)

  /** The sixteen named points, clockwise from north (the order rooms create their ports in). */
  const SixteenPoints: seq<CompassPoint> :=
    [North, NorthNorthEast, NorthEast, EastNorthEast,
     East, EastSouthEast, SouthEast, SouthSouthEast,
     South, SouthSouthWest, SouthWest, WestSouthWest,
     West, WestNorthWest, NorthWest, NorthNorthWest]

  /** The eight points that lie exactly on a canonical compass direction. */
  predicate IsCanonicalPoint(p: CompassPoint) {
    p in {North, NorthEast, East, SouthEast, South, SouthWest, West, NorthWest}
  }

  /** Position of a named point in `SixteenPoints` (0 = north, counting clockwise). */
  function Ordinal(p: CompassPoint): (k: nat)
    requires !p.Undefined?
    ensures k < 16 && SixteenPoints[k] == p
  {
    match p
    case North => 0 case NorthNorthEast => 1 case NorthEast => 2 case EastNorthEast => 3
    case East => 4 case EastSouthEast => 5 case SouthEast => 6 case SouthSouthEast => 7
    case South => 8 case SouthSouthWest => 9 case SouthWest => 10 case WestSouthWest => 11
    case West => 12 case WestNorthWest => 13 case NorthWest => 14 case NorthNorthWest => 15
  }

  lemma SixteenPointsAreTheNamedPoints(p: CompassPoint)
    ensures p in SixteenPoints <==> !p.Undefined?
    ensures forall i, j :: 0 <= i < j < |SixteenPoints| ==> SixteenPoints[i] != SixteenPoints[j]
  {
    if !p.Undefined? {
      var k := Ordinal(p);
    }
  }
}

/** The directions an exporter can name: the eight canonical compass directions plus up, down, in and out. */
module Automap {

  /** A direction of travel that an exporter can emit. */
  datatype AutomapDirection =
    | North | NorthEast | East | SouthEast | South | SouthWest | West | NorthWest
    | Up | Down | In | Out

  /** Every direction, in the order the best-exit pass visits them. */
  const AllDirections: seq<AutomapDirection> :=
    [North, NorthEast, East, SouthEast, South, SouthWest, West, NorthWest, Up, Down, In, Out]

  lemma AllDirectionsListsEachDirectionOnce(d: AutomapDirection)
    ensures d in AllDirections
    ensures forall i, j :: 0 <= i < j < |AllDirections| ==> AllDirections[i] != AllDirections[j]
  {
  }

  /** The eight canonical directions, clockwise from north. */
  predicate IsCanonicalDirection(d: AutomapDirection) {
    !(d.Up? || d.Down? || d.In? || d.Out?)
  }

  /** The canonical direction at a given eighth of a turn clockwise from north. */
  function CanonicalAt(k: nat): (d: AutomapDirection)
    requires k < 8
    ensures IsCanonicalDirection(d)
  {
    [North, NorthEast, East, SouthEast, South, SouthWest, West, NorthWest][k]
  }
}
