/**
 * Exits of the code exporter: how a connection end becomes an exit with a
 * primary direction, an optional up/down/in/out direction and a priority, and
 * how the best exit in a direction is chosen from a room's exits.
 * The type parameter `L` is the exporter's location.
 */
module Exits {
  import opened Wrappers
  import opened Compass
  import opened Automap

  /** Why content preparation can fail. */
  datatype ExportError =
    | DuplicateKey(name: string)                // `Dictionary.Add` of a name already present
    | UnexpectedCompassPoint(point: CompassPoint) // an exit docked at a point outside the sixteen

  /** The connection labels that mean up, down, in and out (`Connection.Up`, `.Down`, `.In`, `.Out`). */
  datatype Labels = Labels(up: string, down: string, inward: string, outward: string)

  /** An exit from `source` to `target`. */
  datatype Exit<L> = Exit(
    source: L,
    target: L,
    visualCompassPoint: CompassPoint,
    primaryDirection: AutomapDirection,
    secondaryDirection: Option<AutomapDirection>,
    conditional: bool,
    primaryPriority: int)

  /** The direction a docking point stands for: each half-wind collapses to the nearest cardinal. */
  function AssignPrimaryDirection(point: CompassPoint): (d: Option<AutomapDirection>)
    ensures d.None? <==> point.Undefined?
    ensures d.Some? ==> IsCanonicalDirection(d.value)
  {
    match point
    case NorthNorthWest | North | NorthNorthEast => Some(AutomapDirection.North)
    case NorthEast => Some(AutomapDirection.NorthEast)
    case EastNorthEast | East | EastSouthEast => Some(AutomapDirection.East)
    case SouthEast => Some(AutomapDirection.SouthEast)
    case SouthSouthEast | South | SouthSouthWest => Some(AutomapDirection.South)
    case SouthWest => Some(AutomapDirection.SouthWest)
    case WestSouthWest | West | WestNorthWest => Some(AutomapDirection.West)
    case NorthWest => Some(AutomapDirection.NorthWest)
    case Undefined(_) => None
  }

  /** The up/down/in/out direction a connection label stands for, if any. */
  function AssignSecondaryDirection(text: string, labels: Labels): (d: Option<AutomapDirection>)
    ensures d.Some? ==> !IsCanonicalDirection(d.value)
    ensures d == Some(Up) <==> text == labels.up
    ensures d == Some(Down) <==> text != labels.up && text == labels.down
    ensures d == Some(In) <==> text != labels.up && text != labels.down && text == labels.inward
    ensures d == Some(Out) <==>
      text != labels.up && text != labels.down && text != labels.inward && text == labels.outward
    ensures d.None? <==> text !in {labels.up, labels.down, labels.inward, labels.outward}
  {
    if text == labels.up then Some(Up)
    else if text == labels.down then Some(Down)
    else if text == labels.inward then Some(In)
    else if text == labels.outward then Some(Out)
    else None
  }

  /** The priority of an exit in its primary direction, from its docking point and its secondary direction. */
  function AssignPrimaryPriority(point: CompassPoint, secondary: Option<AutomapDirection>): (p: int)
    ensures p > 0 <==> secondary.None?
    ensures p == 4 <==> secondary.None? && IsCanonicalPoint(point)
  {
    if IsCanonicalPoint(point) then
      (if secondary.None? then 4 else -2)
    else
      (if secondary.None? then 3 else -1)
  }

  /**
   * The exit constructor. The priority is assigned before the secondary
   * direction, so it is always computed as for an unlabelled exit.
   * An unlabelled exit docked at an unnamed point has no direction: that is
   * the constructor's exception.
   */
  function NewExit<L>(source: L, target: L, point: CompassPoint, text: string,
                      dashed: bool, labels: Labels): (r: Result<Exit<L>, ExportError>)
    ensures r.Failure? <==> AssignSecondaryDirection(text, labels).None? && point.Undefined?
    ensures r.Failure? ==> r.error == UnexpectedCompassPoint(point)
    ensures r.Success? ==> WellFormed(r.value)
    ensures r.Success? ==> r.value.source == source && r.value.target == target
    ensures r.Success? ==> r.value.visualCompassPoint == point && r.value.conditional == dashed
    ensures r.Success? ==> r.value.secondaryDirection == AssignSecondaryDirection(text, labels)
    ensures r.Success? ==> r.value.primaryPriority in {3, 4}
  {
    var priority := AssignPrimaryPriority(point, None);
    var secondary := AssignSecondaryDirection(text, labels);
    if secondary.Some? then
      Success(Exit(source, target, point, secondary.value, secondary, dashed, priority))
    else
      match AssignPrimaryDirection(point)
      case None => Failure(UnexpectedCompassPoint(point))
      case Some(d) => Success(Exit(source, target, point, d, None, dashed, priority))
  }

  /**
   * What every constructed exit satisfies: priority 4 at one of the eight
   * canonical points and 3 elsewhere; a labelled exit's primary direction is its
   * label's direction; an unlabelled one's is its docking point's direction.
   */
  predicate WellFormed<L>(e: Exit<L>) {
    && e.primaryPriority == (if IsCanonicalPoint(e.visualCompassPoint) then 4 else 3)
    && (e.secondaryDirection.Some? ==>
          e.primaryDirection == e.secondaryDirection.value && !IsCanonicalDirection(e.primaryDirection))
    && (e.secondaryDirection.None? ==> AssignPrimaryDirection(e.visualCompassPoint) == Some(e.primaryDirection))
  }

  /** The exit's priority in a direction; higher is more suitable. */
  function GetPriority<L>(e: Exit<L>, d: AutomapDirection): (p: int)
    ensures WellFormed(e) ==> (p > 1 <==> d == e.primaryDirection)
    ensures d != e.primaryDirection && e.secondaryDirection != Some(d) ==> p == -1
  {
    if d == e.primaryDirection then e.primaryPriority
    else if e.secondaryDirection == Some(d) then 1
    else -1
  }

  /** The exit leads in direction `d`. */
  predicate Matches<L>(e: Exit<L>, d: AutomapDirection) {
    e.primaryDirection == d || e.secondaryDirection == Some(d)
  }

  /** For a constructed exit, a direction is either its primary one (priority 3 or 4) or not its direction at all (-1). */
  lemma WellFormedPriority<L>(e: Exit<L>, d: AutomapDirection)
    requires WellFormed(e)
    ensures Matches(e, d) <==> e.primaryDirection == d
    ensures GetPriority(e, d) == if e.primaryDirection == d then e.primaryPriority else -1
    ensures e.primaryDirection == d ==> GetPriority(e, d) >= 3
  {
  }

  // ----- the collapse of the sixteen points onto the eight directions -----

  /** Distance between two of the sixteen points, in sixteenths of a turn. */
  function CircularDistance(a: nat, b: nat): (n: nat)
    requires a < 16 && b < 16
    ensures n <= 8
  {
    var forward := (a - b) % 16;
    if forward <= 8 then forward else 16 - forward
  }

  /**
   * Canonical direction `c` (an eighth of a turn from north) is the one nearest
   * to point `k` (a sixteenth of a turn from north), and on a tie it is the
   * cardinal one.
   */
  predicate IsNearestCanonical(k: nat, c: nat)
    requires k < 16
  {
    && c < 8
    && CircularDistance(k, 2 * c) <= 1
    && (CircularDistance(k, 2 * c) == 1 ==> c % 2 == 0)
  }

  /** Each named point has exactly one nearest canonical direction. */
  lemma {:induction false} NearestCanonicalUnique(k: nat, c1: nat, c2: nat)
    requires k < 16 && IsNearestCanonical(k, c1) && IsNearestCanonical(k, c2)
    ensures c1 == c2
  {
    assert k % 2 == 0 ==> c1 == k / 2 && c2 == k / 2;
  }

  /** The direction of an unlabelled exit is the canonical direction nearest its docking point. */
  lemma {:induction false} PrimaryDirectionIsNearest(p: CompassPoint)
    ensures AssignPrimaryDirection(p).None? <==> p.Undefined?
    ensures !p.Undefined? ==>
      exists c :: IsNearestCanonical(Ordinal(p), c) && AssignPrimaryDirection(p) == Some(CanonicalAt(c))
  {
    match p
    case Undefined(_) =>
    case North => NearestWitness(p, 0);
    case NorthNorthEast => NearestWitness(p, 0);
    case NorthEast => NearestWitness(p, 1);
    case EastNorthEast => NearestWitness(p, 2);
    case East => NearestWitness(p, 2);
    case EastSouthEast => NearestWitness(p, 2);
    case SouthEast => NearestWitness(p, 3);
    case SouthSouthEast => NearestWitness(p, 4);
    case South => NearestWitness(p, 4);
    case SouthSouthWest => NearestWitness(p, 4);
    case SouthWest => NearestWitness(p, 5);
    case WestSouthWest => NearestWitness(p, 6);
    case West => NearestWitness(p, 6);
    case WestNorthWest => NearestWitness(p, 6);
    case NorthWest => NearestWitness(p, 7);
    case NorthNorthWest => NearestWitness(p, 0);
  }

  lemma NearestWitness(p: CompassPoint, c: nat)
    requires !p.Undefined? && c < 8
    requires IsNearestCanonical(Ordinal(p), c) && AssignPrimaryDirection(p) == Some(CanonicalAt(c))
    ensures exists d :: IsNearestCanonical(Ordinal(p), d) && AssignPrimaryDirection(p) == Some(CanonicalAt(d))
  {
  }

  // ----- ordering a room's exits by priority -----

  /** Exits in non-increasing priority for direction `d`. */
  predicate SortedByPriority<L>(exits: seq<Exit<L>>, d: AutomapDirection) {
    forall i, j :: 0 <= i < j < |exits| ==> InPriorityOrder(exits, d, i, j)
  }

  /** The exit at `i` has at least the priority for `d` of the exit at `j`. */
  predicate InPriorityOrder<L>(exits: seq<Exit<L>>, d: AutomapDirection, i: int, j: int) {
    0 <= i < |exits| && 0 <= j < |exits| && GetPriority(exits[i], d) >= GetPriority(exits[j], d)
  }

  /** Inserts an exit into a list sorted by priority for `d`. */
  function InsertByPriority<L>(e: Exit<L>, sorted: seq<Exit<L>>, d: AutomapDirection): seq<Exit<L>>
    decreases |sorted|
  {
    if sorted == [] || GetPriority(e, d) >= GetPriority(sorted[0], d) then [e] + sorted
    else [sorted[0]] + InsertByPriority(e, sorted[1..], d)
  }

  /** An order by priority for `d`: a witness that some sorted permutation exists. */
  function SortByPriority<L>(exits: seq<Exit<L>>, d: AutomapDirection): seq<Exit<L>>
    decreases |exits|
  {
    if exits == [] then [] else InsertByPriority(exits[0], SortByPriority(exits[1..], d), d)
  }

  /** Prepending an exit of the highest priority keeps a list sorted. */
  lemma PrependSorted<L>(e: Exit<L>, rest: seq<Exit<L>>, d: AutomapDirection)
    requires SortedByPriority(rest, d)
    requires forall x :: x in rest ==> GetPriority(x, d) <= GetPriority(e, d)
    ensures SortedByPriority([e] + rest, d)
  {
    forall i, j | 0 <= i < j < |[e] + rest|
      ensures InPriorityOrder([e] + rest, d, i, j)
    {
      if i > 0 {
        assert InPriorityOrder(rest, d, i - 1, j - 1);
        assert ([e] + rest)[i] == rest[i - 1] && ([e] + rest)[j] == rest[j - 1];
      } else {
        assert ([e] + rest)[j] in rest;
      }
    }
  }

  lemma {:induction false} InsertByPriorityCorrect<L>(e: Exit<L>, sorted: seq<Exit<L>>, d: AutomapDirection)
    requires SortedByPriority(sorted, d)
    ensures SortedByPriority(InsertByPriority(e, sorted, d), d)
    ensures multiset(InsertByPriority(e, sorted, d)) == multiset(sorted) + multiset{e}
    decreases |sorted|
  {
    if sorted == [] || GetPriority(e, d) >= GetPriority(sorted[0], d) {
      assert InsertByPriority(e, sorted, d) == [e] + sorted;
      InsertAtFront(e, sorted, d);
    } else {
      var tail := sorted[1..];
      SortedTail(sorted, d);
      InsertByPriorityCorrect(e, tail, d);
      assert InsertByPriority(e, sorted, d) == [sorted[0]] + InsertByPriority(e, tail, d);
      InsertBehind(e, sorted, d);
    }
  }

  /** An exit of at least the first one's priority goes in front. */
  lemma InsertAtFront<L>(e: Exit<L>, sorted: seq<Exit<L>>, d: AutomapDirection)
    requires SortedByPriority(sorted, d)
    requires sorted == [] || GetPriority(e, d) >= GetPriority(sorted[0], d)
    ensures SortedByPriority([e] + sorted, d)
  {
    forall x | x in sorted ensures GetPriority(x, d) <= GetPriority(e, d) {
      var i :| 0 <= i < |sorted| && sorted[i] == x;
      assert i == 0 || InPriorityOrder(sorted, d, 0, i);
    }
    PrependSorted(e, sorted, d);
  }

  lemma SortedTail<L>(sorted: seq<Exit<L>>, d: AutomapDirection)
    requires sorted != [] && SortedByPriority(sorted, d)
    ensures SortedByPriority(sorted[1..], d)
  {
    var tail := sorted[1..];
    forall i, j | 0 <= i < j < |tail| ensures InPriorityOrder(tail, d, i, j) {
      assert InPriorityOrder(sorted, d, i + 1, j + 1);
      assert tail[i] == sorted[i + 1] && tail[j] == sorted[j + 1];
    }
  }

  /** An exit of lower priority than the first one goes after it, into the rest. */
  lemma InsertBehind<L>(e: Exit<L>, sorted: seq<Exit<L>>, d: AutomapDirection)
    requires sorted != [] && SortedByPriority(sorted, d)
    requires GetPriority(e, d) < GetPriority(sorted[0], d)
    requires SortedByPriority(InsertByPriority(e, sorted[1..], d), d)
    requires multiset(InsertByPriority(e, sorted[1..], d)) == multiset(sorted[1..]) + multiset{e}
    ensures SortedByPriority([sorted[0]] + InsertByPriority(e, sorted[1..], d), d)
    ensures multiset([sorted[0]] + InsertByPriority(e, sorted[1..], d)) == multiset(sorted) + multiset{e}
  {
    var tail := sorted[1..];
    var inserted := InsertByPriority(e, tail, d);
    NoneAboveFirst(e, sorted, inserted, d);
    PrependSorted(sorted[0], inserted, d);
    assert sorted == [sorted[0]] + tail;
    assert multiset([sorted[0]] + inserted) == multiset{sorted[0]} + multiset(inserted);
  }

  /** Nothing that goes behind the first exit has a higher priority than it. */
  lemma NoneAboveFirst<L>(e: Exit<L>, sorted: seq<Exit<L>>, inserted: seq<Exit<L>>, d: AutomapDirection)
    requires sorted != [] && SortedByPriority(sorted, d)
    requires GetPriority(e, d) < GetPriority(sorted[0], d)
    requires multiset(inserted) == multiset(sorted[1..]) + multiset{e}
    ensures forall x :: x in inserted ==> GetPriority(x, d) <= GetPriority(sorted[0], d)
  {
    var tail := sorted[1..];
    forall x | x in inserted ensures GetPriority(x, d) <= GetPriority(sorted[0], d) {
      assert x in multiset(inserted);
      if x != e {
        assert x in multiset(tail);
        var i :| 0 <= i < |tail| && tail[i] == x;
        assert sorted[i + 1] == x && InPriorityOrder(sorted, d, 0, i + 1);
      }
    }
  }

  lemma {:induction false} SortByPriorityCorrect<L>(exits: seq<Exit<L>>, d: AutomapDirection)
    ensures SortedByPriority(SortByPriority(exits, d), d)
    ensures multiset(SortByPriority(exits, d)) == multiset(exits)
    decreases |exits|
  {
    if exits != [] {
      SortByPriorityCorrect(exits[1..], d);
      InsertByPriorityCorrect(exits[0], SortByPriority(exits[1..], d), d);
      assert exits == [exits[0]] + exits[1..];
    }
  }

  // ----- the best exit -----

  /** What `pickBestExit` returns once the exits are sorted for `d`: the first exit, if it leads that way. */
  function PickFromSorted<L>(sorted: seq<Exit<L>>, d: AutomapDirection): Option<Exit<L>> {
    if sorted == [] then None
    else if Matches(sorted[0], d) then Some(sorted[0])
    else None
  }

  /** `b` leads in direction `d` and no exit has a higher priority for `d`. */
  ghost predicate IsBestExit<L>(exits: seq<Exit<L>>, d: AutomapDirection, b: Exit<L>) {
    && b in exits
    && b.primaryDirection == d
    && forall e :: e in exits ==> GetPriority(e, d) <= GetPriority(b, d)
  }

  /**
   * Picking from a sorted list finds an exit exactly when some exit's primary
   * direction is `d`, and what it finds is a best exit for `d`.
   */
  lemma SortedPickIsBest<L>(sorted: seq<Exit<L>>, d: AutomapDirection)
    requires forall e :: e in sorted ==> WellFormed(e)
    requires SortedByPriority(sorted, d)
    ensures PickFromSorted(sorted, d).Some? <==> exists e :: e in sorted && e.primaryDirection == d
    ensures PickFromSorted(sorted, d).Some? ==> IsBestExit(sorted, d, PickFromSorted(sorted, d).value)
  {
    if e :| e in sorted && e.primaryDirection == d {
      var i :| 0 <= i < |sorted| && sorted[i] == e;
      WellFormedPriority(e, d);
      WellFormedPriority(sorted[0], d);
      assert i == 0 || InPriorityOrder(sorted, d, 0, i);
    }
    if sorted != [] && Matches(sorted[0], d) {
      WellFormedPriority(sorted[0], d);
      forall x | x in sorted ensures GetPriority(x, d) <= GetPriority(sorted[0], d) {
        var i :| 0 <= i < |sorted| && sorted[i] == x;
        assert i == 0 || InPriorityOrder(sorted, d, 0, i);
      }
    }
  }

  /**
   * An unlabelled exit docked exactly at a canonical point outranks every exit
   * docked at a neighbouring half-wind: the best exit in its direction is docked
   * at that same point (an exit at N beats one at NNE or NNW).
   */
  lemma ExactDockingWins<L>(exits: seq<Exit<L>>, d: AutomapDirection, best: Exit<L>, exact: Exit<L>)
    requires forall e :: e in exits ==> WellFormed(e)
    requires IsBestExit(exits, d, best)
    requires exact in exits && exact.primaryDirection == d && exact.secondaryDirection.None?
    requires IsCanonicalPoint(exact.visualCompassPoint)
    ensures best.secondaryDirection.None? && best.visualCompassPoint == exact.visualCompassPoint
  {
    WellFormedPriority(exact, d);
    WellFormedPriority(best, d);
    assert GetPriority(exact, d) == 4;
  }
}
