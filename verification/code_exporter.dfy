/**
 * The language-independent half of a code exporter: content preparation, which
 * gives every room and every object a unique export name, files each
 * connection's exits under the room they lead from, picks the best exit in each
 * direction, and turns each room's objects text into a containment hierarchy.
 */
module CodeExporter {
  import opened Wrappers
  import opened Automap
  import opened Text
  import opened Elements
  import opened NameAllocator
  import opened Exits
  import opened Containment
  import opened Seqs

  /** What a concrete exporter language supplies. */
  datatype Backend = Backend(
    reservedWords: seq<string>,
    roomName: (Element, Option<nat>) -> string,   // GetExportName(room, suffix)
    objectName: (string, Option<nat>) -> string)  // GetExportNameForObject(displayName, suffix)

  /** The backend's suffixed names for one room, or for one object, never clash with each other. */
  ghost predicate SuffixesKeepNamesApart(b: Backend, fold: string -> string) {
    && (forall room, i, j :: 2 <= i < j ==> fold(b.roomName(room, Some(i))) != fold(b.roomName(room, Some(j))))
    && (forall s, i, j :: 2 <= i < j ==> fold(b.objectName(s, Some(i))) != fold(b.objectName(s, Some(j))))
  }

  /** A room's unsuffixed candidate name; an empty one becomes "object". */
  function FirstRoomName(b: Backend, room: Element): (name: string)
    ensures name != ""
  {
    var n := b.roomName(room, None);
    if n == "" then "object" else n
  }

  /** The export names of some locations, in order. */
  function NamesOf(locations: seq<Location>): (names: seq<string>)
    ensures |names| == |locations|
    ensures forall i :: 0 <= i < |locations| ==> names[i] == locations[i].exportName
    decreases |locations|
  {
    if locations == [] then []
    else NamesOf(locations[..|locations| - 1]) + [locations[|locations| - 1].exportName]
  }

  /** The export names of some things, in order. */
  function ExportNamesOf(things: seq<Thing>): (names: seq<string>)
    ensures |names| == |things|
    ensures forall i :: 0 <= i < |things| ==> names[i] == things[i].exportName
    decreases |things|
  {
    if things == [] then [] else ExportNamesOf(things[..|things| - 1]) + [things[|things| - 1].exportName]
  }

  /** A room of the export, with its exits and things. */
  class Location {
    const room: Element
    const exportName: string
    var exits: seq<Exit<Location>>
    var bestExits: map<AutomapDirection, Exit<Location>>
    var things: seq<Thing>

    constructor(room: Element, exportName: string)
      ensures this.room == room && this.exportName == exportName
      ensures exits == [] && bestExits == map[] && things == []
    {
      this.room := room;
      this.exportName := exportName;
      exits := [];
      bestExits := map[];
      things := [];
    }

    method AddExit(exit: Exit<Location>)
      modifies this`exits
      ensures exits == old(exits) + [exit]
    {
      exits := exits + [exit];
    }

    /**
     * `pickBestExit`: reorders the exits by priority for `d` (an unstable sort,
     * so exits of equal priority may come in any order) and returns the first
     * one if it leads that way.
     */
    method PickBestExit(d: AutomapDirection) returns (best: Option<Exit<Location>>)
      modifies this`exits
      ensures multiset(exits) == multiset(old(exits))
      ensures SortedByPriority(exits, d)
      ensures best == PickFromSorted(exits, d)
    {
      SortByPriorityCorrect(exits, d);
      var sorted :| multiset(sorted) == multiset(exits) && SortedByPriority(sorted, d);
      exits := sorted;
      if |exits| <= 0 {
        return None;
      }
      var exit := exits[0];
      if exit.primaryDirection == d || exit.secondaryDirection == Some(d) {
        return Some(exit);
      }
      return None;
    }

    /**
     * Each direction some exit's primary direction is has a best exit, and
     * no other direction has one.
     */
    ghost predicate BestExitsChosen()
      reads this`exits, this`bestExits
    {
      forall d ::
        && (d in bestExits <==> exists e :: e in exits && e.primaryDirection == d)
        && (d in bestExits ==> IsBestExit(exits, d, bestExits[d]))
    }

    /** Chooses the best exit in every direction, visiting the directions in order. */
    method PickBestExits()
      requires forall e :: e in exits ==> WellFormed(e)
      modifies this`exits, this`bestExits
      ensures multiset(exits) == multiset(old(exits))
      ensures BestExitsChosen()
    {
      bestExits := map[];
      for k := 0 to |AllDirections|
        invariant multiset(exits) == multiset(old(exits))
        invariant forall e :: e in exits ==> WellFormed(e)
        invariant forall d :: d in bestExits <==>
          d in AllDirections[..k] && exists e :: e in exits && e.primaryDirection == d
        invariant forall d :: d in bestExits ==> IsBestExit(exits, d, bestExits[d])
      {
        PickDirection(k);
      }
      assert AllDirections[..|AllDirections|] == AllDirections;
      forall d ensures d in AllDirections {
        AllDirectionsListsEachDirectionOnce(d);
      }
    }

    /** One turn of the loop over the directions: the best exit for the `k`-th one, if any, is recorded. */
    method PickDirection(k: nat)
      requires k < |AllDirections|
      requires forall e :: e in exits ==> WellFormed(e)
      requires forall d :: d in bestExits <==>
        d in AllDirections[..k] && exists e :: e in exits && e.primaryDirection == d
      requires forall d :: d in bestExits ==> IsBestExit(exits, d, bestExits[d])
      modifies this`exits, this`bestExits
      ensures multiset(exits) == multiset(old(exits))
      ensures forall e :: e in exits ==> WellFormed(e)
      ensures forall d :: d in bestExits <==>
        d in AllDirections[..k + 1] && exists e :: e in exits && e.primaryDirection == d
      ensures forall d :: d in bestExits ==> IsBestExit(exits, d, bestExits[d])
    {
      var d := AllDirections[k];
      ghost var before := exits;
      var exit := PickBestExit(d);
      SameMembers(exits, before);
      SortedPickIsBest(exits, d);
      AllDirectionsListsEachDirectionOnce(d);
      assert d !in bestExits;
      if exit.Some? {
        bestExits := bestExits[d := exit.value];
      }
      assert AllDirections[..k + 1] == AllDirections[..k] + [d];
    }

    /** The best exit in a direction, if there is one. */
    function GetBestExit(d: AutomapDirection): (r: Option<Exit<Location>>)
      reads this
      ensures r.Some? <==> d in bestExits
    {
      if d in bestExits then Some(bestExits[d]) else None
    }

    /** The backwards scan for the container of a thing with the given indent. */
    method FindContainer(indent: nat) returns (container: Option<nat>)
      ensures container == NearestSmaller(things, indent)
      ensures container.Some? ==> container.value < |things| && things[container.value].indent < indent
    {
      var thingIndex := |things| - 1;
      while thingIndex >= 0
        invariant -1 <= thingIndex < |things|
        invariant NearestSmaller(things, indent) == NearestSmaller(things[..thingIndex + 1], indent)
      {
        assert things[..thingIndex + 1][..thingIndex] == things[..thingIndex];
        if indent > things[thingIndex].indent {
          return Some(thingIndex);
        }
        thingIndex := thingIndex - 1;
      }
      return None;
    }

    /** The thing constructor recording the thing in its container's contents, then `Things.Add`. */
    method AddThing(thing: Thing)
      requires thing.container.Some? ==> thing.container.value < |things|
      modifies this`things
      ensures things == Attach(old(things), thing)
    {
      if thing.container.Some? {
        var c := thing.container.value;
        things := things[c := things[c].(contents := things[c].contents + [|things|])];
      }
      things := things + [thing];
    }
  }

  /**
   * Once a location has chosen its best exits, `GetBestExit(d)` finds one
   * exactly when some exit's primary direction is `d`, and what it finds is a
   * best exit for `d`.
   */
  lemma BestExitFound(location: Location, d: AutomapDirection)
    requires location.BestExitsChosen()
    ensures location.GetBestExit(d).Some? <==> exists e :: e in location.exits && e.primaryDirection == d
    ensures location.GetBestExit(d).Some? ==> IsBestExit(location.exits, d, location.GetBestExit(d).value)
  {
  }

  /**
   * `IsReciprocated`: the target's best exit in the opposite direction leads
   * back to the source. `opposite` is `CompassPointHelper.GetOpposite`.
   */
  function IsReciprocated(source: Location, d: AutomapDirection, target: Location?,
                          opposite: AutomapDirection -> AutomapDirection): (r: bool)
    reads target
    ensures r ==> target != null && target.GetBestExit(opposite(d)).Some?
    ensures target == null ==> !r
  {
    if target != null then
      match target.GetBestExit(opposite(d))
      case Some(reciprocal) => reciprocal.target == source
      case None => false
    else false
  }

  /**
   * With the target's best exits chosen, an exit is reciprocated exactly when
   * some exit of the target has the opposite primary direction and the best
   * one among them leads back to the source; a reciprocal exit then leads the
   * opposite way (the `Debug.Assert` of the source).
   */
  lemma ReciprocatedExitBack(source: Location, d: AutomapDirection, target: Location,
                             opposite: AutomapDirection -> AutomapDirection)
    requires target.BestExitsChosen()
    ensures IsReciprocated(source, d, target, opposite) <==>
      exists b :: IsBestExit(target.exits, opposite(d), b) && b == target.bestExits[opposite(d)] && b.target == source
    ensures IsReciprocated(source, d, target, opposite) ==>
      exists e :: e in target.exits && e.target == source && e.primaryDirection == opposite(d)
    ensures (forall e :: e in target.exits ==> e.primaryDirection != opposite(d)) ==>
      !IsReciprocated(source, d, target, opposite)
  {
    BestExitFound(target, opposite(d));
    if IsReciprocated(source, d, target, opposite) {
      var b := target.bestExits[opposite(d)];
      assert IsBestExit(target.exits, opposite(d), b);
    }
  }

  /** Counts the leading spaces of an object line. */
  method CountIndent(line: string) returns (indent: nat)
    ensures indent == LeadingSpaces(line)
    ensures indent <= |line| && forall i :: 0 <= i < indent ==> line[i] == ' '
  {
    indent := 0;
    while indent < |line| && line[indent] == ' '
      invariant indent <= |line|
      invariant LeadingSpaces(line) == indent + LeadingSpaces(line[indent..])
    {
      assert line[indent..] == [line[indent]] + line[indent + 1..];
      indent := indent + 1;
    }
  }

  // ----- the exits of the map -----

  /**
   * The connection is skipped: an end is undocked, both ends are the same
   * point of the same room (a stub), or an end's room has no location.
   */
  predicate Skipped(c: Element, roomToLocation: map<Ref, Location>)
    requires c.ConnectionElement?
  {
    || c.source.None? || c.target.None?
    || c.source.value == c.target.value
    || c.source.value.room !in roomToLocation || c.target.value.room !in roomToLocation
  }

  /**
   * The exits one connection contributes: from its source, and for a two-way
   * connection also back from its target.
   */
  function ConnectionExits(c: Element, roomToLocation: map<Ref, Location>, labels: Labels)
    : (r: Result<seq<Exit<Location>>, ExportError>)
    requires c.ConnectionElement?
    ensures r.Success? && Skipped(c, roomToLocation) ==> r.value == []
    ensures r.Success? && !Skipped(c, roomToLocation) ==> |r.value| == (if c.flow.TwoWay? then 2 else 1)
    ensures r.Success? && !Skipped(c, roomToLocation) ==>
      && r.value[0].source == roomToLocation[c.source.value.room]
      && r.value[0].target == roomToLocation[c.target.value.room]
      && r.value[0].visualCompassPoint == c.source.value.point
    ensures r.Success? && !Skipped(c, roomToLocation) && c.flow.TwoWay? ==>
      && r.value[1].source == r.value[0].target && r.value[1].target == r.value[0].source
      && r.value[1].visualCompassPoint == c.target.value.point
    ensures r.Success? ==> forall e :: e in r.value ==>
      WellFormed(e) && e.source in roomToLocation.Values && e.target in roomToLocation.Values
    ensures r.Success? && !Skipped(c, roomToLocation) ==>
      NewExit(roomToLocation[c.source.value.room], roomToLocation[c.target.value.room],
              c.source.value.point, c.startText, c.style == Dashed, labels) == Success(r.value[0])
    ensures r.Success? && !Skipped(c, roomToLocation) && c.flow.TwoWay? ==>
      NewExit(roomToLocation[c.target.value.room], roomToLocation[c.source.value.room],
              c.target.value.point, c.endText, c.style == Dashed, labels) == Success(r.value[1])
    ensures r.Failure? <==> (
      && !Skipped(c, roomToLocation)
      && (|| NewExit(roomToLocation[c.source.value.room], roomToLocation[c.target.value.room],
                     c.source.value.point, c.startText, c.style == Dashed, labels).Failure?
          || (&& c.flow.TwoWay?
              && NewExit(roomToLocation[c.target.value.room], roomToLocation[c.source.value.room],
                         c.target.value.point, c.endText, c.style == Dashed, labels).Failure?)))
  {
    if Skipped(c, roomToLocation) then Success([])
    else
      var source := roomToLocation[c.source.value.room];
      var target := roomToLocation[c.target.value.room];
      match NewExit(source, target, c.source.value.point, c.startText, c.style == Dashed, labels)
      case Failure(error) => Failure(error)
      case Success(forward) =>
        if c.flow.OneWay? then Success([forward])
        else
          match NewExit(target, source, c.target.value.point, c.endText, c.style == Dashed, labels)
          case Failure(error) => Failure(error)
          case Success(back) => Success([forward, back])
  }

  /** All exits of the map's connections, in element order; the first failing exit aborts. */
  function AllExits(elements: seq<Element>, roomToLocation: map<Ref, Location>, labels: Labels)
    : (r: Result<seq<Exit<Location>>, ExportError>)
    ensures r.Success? ==> forall e :: e in r.value ==>
      WellFormed(e) && e.source in roomToLocation.Values && e.target in roomToLocation.Values
    decreases |elements|
  {
    if elements == [] then Success([])
    else
      var n := |elements| - 1;
      match AllExits(elements[..n], roomToLocation, labels)
      case Failure(error) => Failure(error)
      case Success(prior) =>
        if !elements[n].ConnectionElement? then Success(prior)
        else
          match ConnectionExits(elements[n], roomToLocation, labels)
          case Failure(error) => Failure(error)
          case Success(more) => Success(prior + more)
  }
  /** The `i`-th element is a connection whose exits cannot be built. */
  predicate FailsAt(elements: seq<Element>, i: int, roomToLocation: map<Ref, Location>, labels: Labels) {
    0 <= i < |elements| && elements[i].ConnectionElement? &&
    ConnectionExits(elements[i], roomToLocation, labels).Failure?
  }

  /**
   * The pass fails exactly when some connection's exits cannot be built, and
   * then with the error of the first such connection.
   */
  lemma {:induction false} AllExitsFailure(elements: seq<Element>, roomToLocation: map<Ref, Location>, labels: Labels)
    ensures AllExits(elements, roomToLocation, labels).Failure? <==>
      exists i :: FailsAt(elements, i, roomToLocation, labels)
    ensures AllExits(elements, roomToLocation, labels).Failure? ==>
      exists i :: && FailsAt(elements, i, roomToLocation, labels)
                  && (forall j :: 0 <= j < i ==> !FailsAt(elements, j, roomToLocation, labels))
                  && AllExits(elements, roomToLocation, labels).error
                     == ConnectionExits(elements[i], roomToLocation, labels).error
    decreases |elements|
  {
    if elements != [] {
      var n := |elements| - 1;
      var init := elements[..n];
      AllExitsFailure(init, roomToLocation, labels);
      assert forall j :: 0 <= j < n ==> (FailsAt(elements, j, roomToLocation, labels) <==>
                                         FailsAt(init, j, roomToLocation, labels)) by {
        forall j | 0 <= j < n ensures elements[j] == init[j] {}
      }
      if AllExits(init, roomToLocation, labels).Failure? {
        var i :| && FailsAt(init, i, roomToLocation, labels)
                 && (forall j :: 0 <= j < i ==> !FailsAt(init, j, roomToLocation, labels))
                 && AllExits(init, roomToLocation, labels).error == ConnectionExits(init[i], roomToLocation, labels).error;
        assert FailsAt(elements, i, roomToLocation, labels);
      } else if FailsAt(elements, n, roomToLocation, labels) {
        assert forall j :: 0 <= j < n ==> !FailsAt(elements, j, roomToLocation, labels);
      }
    }
  }

  /** A successful pass holds exactly the exits of the connections, each built by `ConnectionExits`. */
  lemma {:induction false} AllExitsMembers(elements: seq<Element>, roomToLocation: map<Ref, Location>, labels: Labels,
                                           e: Exit<Location>)
    requires AllExits(elements, roomToLocation, labels).Success?
    ensures e in AllExits(elements, roomToLocation, labels).value <==>
      exists i :: && 0 <= i < |elements| && elements[i].ConnectionElement?
                  && ConnectionExits(elements[i], roomToLocation, labels).Success?
                  && e in ConnectionExits(elements[i], roomToLocation, labels).value
    decreases |elements|
  {
    if elements != [] {
      var n := |elements| - 1;
      var init := elements[..n];
      AllExitsMembers(init, roomToLocation, labels, e);
      forall j | 0 <= j < n ensures elements[j] == init[j] {}
    }
  }


  /** The exits leading from a location, in order. */
  function ExitsFrom(exits: seq<Exit<Location>>, location: Location): (r: seq<Exit<Location>>)
    ensures forall e :: e in r ==> e in exits && e.source == location
    ensures forall i :: 0 <= i < |exits| && exits[i].source == location ==> exits[i] in r
    decreases |exits|
  {
    if exits == [] then []
    else
      var n := |exits| - 1;
      ExitsFrom(exits[..n], location) + (if exits[n].source == location then [exits[n]] else [])
  }

  lemma ExitsFromAppend(exits: seq<Exit<Location>>, more: seq<Exit<Location>>, location: Location)
    ensures ExitsFrom(exits + more, location) == ExitsFrom(exits, location) + ExitsFrom(more, location)
    decreases |more|
  {
    if more != [] {
      var n := |more| - 1;
      assert (exits + more)[..|exits| + n] == exits + more[..n];
      ExitsFromAppend(exits, more[..n], location);
    } else {
      assert exits + more == exits;
    }
  }

  /** Once the exits of a prefix of the elements fail, the exits of all of them fail the same way. */
  lemma {:induction false} AllExitsFailureStays(elements: seq<Element>, k: nat, roomToLocation: map<Ref, Location>, labels: Labels)
    requires k <= |elements|
    requires AllExits(elements[..k], roomToLocation, labels).Failure?
    ensures AllExits(elements, roomToLocation, labels) == AllExits(elements[..k], roomToLocation, labels)
    decreases |elements| - k
  {
    if k < |elements| {
      var n := |elements| - 1;
      assert elements[..n][..k] == elements[..k];
      AllExitsFailureStays(elements[..n], k, roomToLocation, labels);
    } else {
      assert elements[..k] == elements;
    }
  }

  lemma ExitsFromSingle(e: Exit<Location>, location: Location)
    ensures ExitsFrom([e], location) == if e.source == location then [e] else []
  {
    assert [e][..0] == [];
  }

  // ----- the exporter -----

  /** The room-name candidates of the backend. */
  function RoomFirst(b: Backend): Element -> string {
    room => FirstRoomName(b, room)
  }

  function RoomSuffixed(b: Backend): Element -> nat -> string {
    room => (i: nat) => b.roomName(room, Some(i))
  }

  /** The object-name candidates of the backend. */
  function ObjectFirst(b: Backend): string -> string {
    s => b.objectName(s, None)
  }

  function ObjectSuffixed(b: Backend): string -> nat -> string {
    s => (i: nat) => b.objectName(s, Some(i))
  }

  /** The handles of some rooms. */
  function HandlesOf(rooms: seq<Element>): set<Ref> {
    set r | r in rooms :: r.handle
  }

  lemma HandlesOfAppend(rooms: seq<Element>, room: Element)
    ensures HandlesOf(rooms + [room]) == HandlesOf(rooms) + {room.handle}
  {
    assert forall r :: r in rooms + [room] <==> r in rooms || r == room;
  }

  lemma NamesOfAppend(locations: seq<Location>, location: Location)
    ensures NamesOf(locations + [location]) == NamesOf(locations) + [location.exportName]
  {
    assert (locations + [location])[..|locations|] == locations;
  }

  lemma RoomsAppend(elements: seq<Element>, i: nat)
    requires i < |elements|
    ensures elements[i].RoomElement? ==> Rooms(elements[..i + 1]) == Rooms(elements[..i]) + [elements[i]]
    ensures !elements[i].RoomElement? ==> Rooms(elements[..i + 1]) == Rooms(elements[..i])
  {
    assert elements[..i + 1][..i] == elements[..i];
  }

  /** No location is listed twice. */
  ghost predicate Distinct(locations: seq<Location>) {
    forall i, j :: 0 <= i < j < |locations| ==> Apart(locations, i, j)
  }

  /** The name table holds, folded, the reserved words and the names given so far. */
  ghost predicate Tabled(taken: set<string>, backend: Backend, fold: string -> string, locations: seq<Location>) {
    taken == FoldAll(backend.reservedWords + NamesOf(locations), fold)
  }

  /** The locations at two positions differ. */
  ghost predicate Apart(locations: seq<Location>, i: int, j: int) {
    0 <= i < |locations| && 0 <= j < |locations| && locations[i] != locations[j]
  }

  /** The room map points each room at a listed location of that room. */
  ghost predicate MapSound(locations: seq<Location>, roomToLocation: map<Ref, Location>) {
    forall h :: h in roomToLocation ==> roomToLocation[h] in locations && roomToLocation[h].room.handle == h
  }

  /**
   * One location per room in order, named by the retry loop in that order,
   * and every room mapped to a location of it.
   */
  ghost predicate Located(backend: Backend, fold: string -> string, locations: seq<Location>,
                          roomToLocation: map<Ref, Location>, rooms: seq<Element>)
  {
    && |locations| == |rooms|
    && (forall i :: 0 <= i < |locations| ==> locations[i].room == rooms[i])
    && Distinct(locations)
    && AllocatedInOrder(rooms, NamesOf(locations), RoomFirst(backend), RoomSuffixed(backend),
                        backend.reservedWords, fold)
    && roomToLocation.Keys == HandlesOf(rooms)
    && MapSound(locations, roomToLocation)
  }

  /** Locating one more room under its first free name keeps the rooms located in order. */
  lemma LocateStep(backend: Backend, fold: string -> string, locations: seq<Location>,
                   roomToLocation: map<Ref, Location>, rooms: seq<Element>, location: Location)
    requires Located(backend, fold, locations, roomToLocation, rooms)
    requires location !in locations
    requires IsFirstFree(location.exportName, RoomFirst(backend)(location.room), RoomSuffixed(backend)(location.room),
                         FoldAll(backend.reservedWords + NamesOf(locations), fold), fold)
    ensures Located(backend, fold, locations + [location], roomToLocation[location.room.handle := location],
                    rooms + [location.room])
  {
    NamesOfAppend(locations, location);
    HandlesOfAppend(rooms, location.room);
    AllocatedInOrderAppend(rooms, NamesOf(locations), RoomFirst(backend), RoomSuffixed(backend),
                           backend.reservedWords, fold, location.room, location.exportName);
    DistinctAppend(locations, location);
    MapSoundAppend(locations, roomToLocation, location);
  }

  lemma DistinctAppend(locations: seq<Location>, location: Location)
    requires Distinct(locations) && location !in locations
    ensures Distinct(locations + [location])
  {
    var all := locations + [location];
    forall i, j | 0 <= i < j < |all| ensures Apart(all, i, j) {
      if j < |locations| {
        assert Apart(locations, i, j);
      } else {
        assert all[i] == locations[i] && all[i] in locations;
      }
    }
  }

  /** In a list without repeats, no other position holds the location at `k`. */
  lemma DistinctAt(locations: seq<Location>, k: int)
    requires Distinct(locations) && 0 <= k < |locations|
    ensures forall j :: 0 <= j < |locations| && j != k ==> locations[j] != locations[k]
  {
    forall j | 0 <= j < |locations| && j != k ensures locations[j] != locations[k] {
      if j < k {
        assert Apart(locations, j, k);
      } else {
        assert Apart(locations, k, j);
      }
    }
  }

  lemma MapSoundAppend(locations: seq<Location>, roomToLocation: map<Ref, Location>, location: Location)
    requires MapSound(locations, roomToLocation)
    ensures MapSound(locations + [location], roomToLocation[location.room.handle := location])
  {
  }

  /** The object lines of some locations' rooms' display names, location by location. */
  function ObjectDisplays(locations: seq<Location>): (names: seq<string>)
    requires forall l :: l in locations ==> l.room.RoomElement?
    decreases |locations|
  {
    if locations == [] then []
    else
      var n := |locations| - 1;
      ObjectDisplays(locations[..n]) + DisplaysOf(ObjectLines(locations[n].room.objects))
  }

  /** The export names of the things of some locations, location by location. */
  function ThingNames(locations: seq<Location>): seq<string>
    reads locations
    decreases |locations|
  {
    if locations == [] then []
    else
      var n := |locations| - 1;
      ThingNames(locations[..n]) + ExportNamesOf(locations[n].things)
  }

  /** The export names of some lists of things, list by list. */
  function FlatNames(built: seq<seq<Thing>>): seq<string>
    decreases |built|
  {
    if built == [] then [] else FlatNames(built[..|built| - 1]) + ExportNamesOf(built[|built| - 1])
  }

  lemma FlatNamesSnoc(built: seq<seq<Thing>>, things: seq<Thing>)
    ensures FlatNames(built + [things]) == FlatNames(built) + ExportNamesOf(things)
  {
    assert (built + [things])[..|built|] == built;
  }

  /** The names of the locations' things, read from lists that hold them. */
  lemma {:induction false} ThingNamesAreFlatNames(locations: seq<Location>, built: seq<seq<Thing>>)
    requires |built| == |locations|
    requires forall j :: 0 <= j < |locations| ==> locations[j].things == built[j]
    ensures ThingNames(locations) == FlatNames(built)
    decreases |locations|
  {
    if locations != [] {
      var n := |locations| - 1;
      ThingNamesAreFlatNames(locations[..n], built[..n]);
    }
  }

  lemma ObjectDisplaysSnoc(locations: seq<Location>, location: Location)
    requires forall l :: l in locations ==> l.room.RoomElement?
    requires location.room.RoomElement?
    ensures ObjectDisplays(locations + [location]) == ObjectDisplays(locations) + DisplaysOf(ObjectLines(location.room.objects))
  {
    assert (locations + [location])[..|locations|] == locations;
  }

  /** Things built from a room's object lines under their own export names. */
  ghost predicate BuiltFrom(room: Element, things: seq<Thing>) {
    && room.RoomElement?
    && |things| == |ObjectLines(room.objects)|
    && things == Build(ObjectLines(room.objects), ExportNamesOf(things))
  }

  /** Each location's list in `built` was built from its room's object lines. */
  ghost predicate AllBuilt(locations: seq<Location>, built: seq<seq<Thing>>)
    decreases |locations|
  {
    && |built| == |locations|
    && (locations != [] ==>
          var n := |locations| - 1;
          AllBuilt(locations[..n], built[..n]) && BuiltFrom(locations[n].room, built[n]))
  }

  lemma AllBuiltSnoc(locations: seq<Location>, built: seq<seq<Thing>>, location: Location, things: seq<Thing>)
    requires AllBuilt(locations, built) && BuiltFrom(location.room, things)
    ensures AllBuilt(locations + [location], built + [things])
  {
    assert (locations + [location])[..|locations|] == locations;
    assert (built + [things])[..|built|] == built;
  }

  lemma {:induction false} AllBuiltAt(locations: seq<Location>, built: seq<seq<Thing>>, j: nat)
    requires AllBuilt(locations, built) && j < |locations|
    ensures BuiltFrom(locations[j].room, built[j])
    decreases |locations|
  {
    var n := |locations| - 1;
    if j < n {
      AllBuiltAt(locations[..n], built[..n], j);
    }
  }

  /** A location whose things were built from its room's object lines. */
  ghost predicate ThingsBuilt(l: Location)
    reads l
  {
    BuiltFrom(l.room, l.things)
  }

  /**
   * The state of the scan over a location's pieces: `lines` are the object
   * lines of the pieces seen, `things` were built from them under the names
   * `placed`, allocated in order after every name handed out before.
   */
  ghost predicate Placing(backend: Backend, fold: string -> string, words: seq<string>, displays: seq<string>,
                          names: seq<string>, pieces: seq<string>, things: seq<Thing>,
                          lines: seq<ObjectLine>, placed: seq<string>, taken: set<string>)
  {
    && lines == ParsePieces(pieces)
    && |placed| == |lines|
    && things == Build(lines, placed)
    && taken == FoldAll(words + (names + placed), fold)
    && AllocatedInOrder(displays + DisplaysOf(lines), names + placed, ObjectFirst(backend), ObjectSuffixed(backend),
                        words, fold)
  }

  /** One more piece, skipped when blank and otherwise placed under its first free name, keeps the scan's state. */
  lemma PlacingSnoc(backend: Backend, fold: string -> string, words: seq<string>, displays: seq<string>,
                    names: seq<string>, pieces: seq<string>, things: seq<Thing>,
                    lines: seq<ObjectLine>, placed: seq<string>, taken: set<string>,
                    piece: string, exportName: Option<string>, things': seq<Thing>)
    returns (lines': seq<ObjectLine>, placed': seq<string>)
    requires Placing(backend, fold, words, displays, names, pieces, things, lines, placed, taken)
    requires exportName.None? <==> Trim(piece) == ""
    requires exportName.None? ==> things' == things
    requires exportName.Some? ==>
      && IsFirstFree(exportName.value, ObjectFirst(backend)(Trim(piece)), ObjectSuffixed(backend)(Trim(piece)), taken, fold)
      && things' == Attach(things, Thing(Trim(piece), exportName.value, LeadingSpaces(piece),
                                         NearestSmaller(things, LeadingSpaces(piece)), []))
    ensures Placing(backend, fold, words, displays, names, pieces + [piece], things', lines', placed',
                    if exportName.Some? then taken + {fold(exportName.value)} else taken)
  {
    ParsePiecesSnoc(pieces, piece);
    if exportName.None? {
      assert lines + [] == lines;
      return lines, placed;
    }
    var name := exportName.value;
    var line := ObjectLine(Trim(piece), LeadingSpaces(piece));
    AllocatedInOrderAppend(displays + DisplaysOf(lines), names + placed, ObjectFirst(backend), ObjectSuffixed(backend),
                           words, fold, line.displayName, name);
    FoldAllSnoc(words + (names + placed), name, fold);
    DisplaysOfSnoc(lines, line);
    BuildSnoc(lines, placed, line, name);
    AppendAssoc(displays, DisplaysOf(lines), [line.displayName]);
    AppendAssoc(names, placed, [name]);
    AppendAssoc(words, names + placed, [name]);
    lines', placed' := lines + [line], placed + [name];
  }

  /** `PlacingSnoc` for the piece at index `pi`. */
  lemma PlacingStep(backend: Backend, fold: string -> string, words: seq<string>, displays: seq<string>,
                    names: seq<string>, pieces: seq<string>, things: seq<Thing>,
                    lines: seq<ObjectLine>, placed: seq<string>, taken: set<string>,
                    pi: nat, exportName: Option<string>, things': seq<Thing>)
    returns (lines': seq<ObjectLine>, placed': seq<string>)
    requires pi < |pieces|
    requires Placing(backend, fold, words, displays, names, pieces[..pi], things, lines, placed, taken)
    requires exportName.None? <==> Trim(pieces[pi]) == ""
    requires exportName.None? ==> things' == things
    requires exportName.Some? ==>
      && IsFirstFree(exportName.value, ObjectFirst(backend)(Trim(pieces[pi])), ObjectSuffixed(backend)(Trim(pieces[pi])),
                     taken, fold)
      && things' == Attach(things, Thing(Trim(pieces[pi]), exportName.value, LeadingSpaces(pieces[pi]),
                                         NearestSmaller(things, LeadingSpaces(pieces[pi])), []))
    ensures Placing(backend, fold, words, displays, names, pieces[..pi + 1], things', lines', placed',
                    if exportName.Some? then taken + {fold(exportName.value)} else taken)
  {
    TakeSnoc(pieces, pi);
    lines', placed' := PlacingSnoc(backend, fold, words, displays, names, pieces[..pi], things, lines, placed, taken,
                                   pieces[pi], exportName, things');
  }

  /** Before any piece is scanned: nothing built, nothing placed. */
  lemma PlacingStart(backend: Backend, fold: string -> string, words: seq<string>, displays: seq<string>,
                     names: seq<string>, taken: set<string>)
    requires taken == FoldAll(words + names, fold)
    requires AllocatedInOrder(displays, names, ObjectFirst(backend), ObjectSuffixed(backend), words, fold)
    ensures Placing(backend, fold, words, displays, names, [], [], [], [], taken)
  {
    assert displays + DisplaysOf([]) == displays && names + [] == names;
  }

  /** Once all pieces are scanned, the things are those built from the object lines under their export names. */
  lemma PlacingDone(backend: Backend, fold: string -> string, words: seq<string>, displays: seq<string>,
                    names: seq<string>, pieces: seq<string>, things: seq<Thing>,
                    lines: seq<ObjectLine>, placed: seq<string>, taken: set<string>)
    requires Placing(backend, fold, words, displays, names, pieces, things, lines, placed, taken)
    ensures |things| == |lines|
    ensures things == Build(lines, ExportNamesOf(things))
    ensures taken == FoldAll(words + (names + ExportNamesOf(things)), fold)
    ensures AllocatedInOrder(displays + DisplaysOf(lines), names + ExportNamesOf(things),
                             ObjectFirst(backend), ObjectSuffixed(backend), words, fold)
  {
    ExportNamesOfBuild(lines, placed);
  }

  lemma DisplaysOfSnoc(lines: seq<ObjectLine>, line: ObjectLine)
    ensures DisplaysOf(lines + [line]) == DisplaysOf(lines) + [line.displayName]
  {
  }

  /** The export names of built things are the names they were built with. */
  lemma ExportNamesOfBuild(lines: seq<ObjectLine>, names: seq<string>)
    requires |names| == |lines|
    ensures ExportNamesOf(Build(lines, names)) == names
  {
    BuildNames(lines, names);
  }

  class CodeExporter {
    const backend: Backend
    const fold: string -> string
    const labels: Labels
    var locations: seq<Location>
    var roomToLocation: map<Ref, Location>

    constructor(backend: Backend, fold: string -> string, labels: Labels)
      ensures this.backend == backend && this.fold == fold && this.labels == labels
      ensures locations == [] && roomToLocation == map[]
    {
      this.backend := backend;
      this.fold := fold;
      this.labels := labels;
      locations := [];
      roomToLocation := map[];
    }

    /** No location is listed twice. */
    ghost predicate LocationsDistinct()
      reads this
    {
      Distinct(locations)
    }

    /** The room map points each room at a location of that room. */
    ghost predicate RoomMapSound()
      reads this
    {
      MapSound(locations, roomToLocation)
    }

    /** No location has exits, best exits or things yet. */
    ghost predicate Blank()
      reads this, locations
    {
      forall l :: l in locations ==> l.exits == [] && l.bestExits == map[] && l.things == []
    }

    /** After `findRooms`: the rooms of the map are located in element order. */
    ghost predicate RoomsFound(elements: seq<Element>)
      reads this
    {
      Located(backend, fold, locations, roomToLocation, Rooms(elements))
    }

    /** Creates a room's location and registers it (`LocationsInExportOrder.Add`, `mMapRoomToLocation[room] = location`). */
    method AddLocation(room: Element, exportName: string) returns (location: Location)
      requires Blank()
      modifies this
      ensures fresh(location) && location.room == room && location.exportName == exportName
      ensures location.exits == [] && location.bestExits == map[] && location.things == []
      ensures locations == old(locations) + [location]
      ensures roomToLocation == old(roomToLocation)[room.handle := location]
      ensures Blank()
    {
      location := new Location(room, exportName);
      locations := locations + [location];
      roomToLocation := roomToLocation[room.handle := location];
    }

    /**
     * A room's export name: its backend name ("object" when that is empty), or
     * failing that the first suffixed name that is free.
     */
    method RoomExportName(room: Element, taken: set<string>) returns (exportName: string)
      requires SuffixesKeepNamesApart(backend, fold)
      ensures IsFirstFree(exportName, RoomFirst(backend)(room), RoomSuffixed(backend)(room), taken, fold)
    {
      exportName := backend.roomName(room, None);
      if exportName == "" {
        exportName := "object";
      }
      var suffix;
      exportName, suffix := Allocate(exportName, RoomSuffixed(backend)(room), taken, fold);
    }

    /** The loop body of `findRooms` for one room: allocate its name, then create and register its location. */
    method LocateRoom(room: Element, taken: set<string>, ghost rooms: seq<Element>)
      returns (taken': set<string>, location: Location)
      requires SuffixesKeepNamesApart(backend, fold)
      requires taken == FoldAll(backend.reservedWords + NamesOf(locations), fold)
      requires Located(backend, fold, locations, roomToLocation, rooms)
      requires Blank()
      modifies this
      ensures Located(backend, fold, locations, roomToLocation, rooms + [room])
      ensures taken' == FoldAll(backend.reservedWords + NamesOf(locations), fold)
      ensures locations == old(locations) + [location] && fresh(location)
      ensures Blank()
    {
      var exportName := RoomExportName(room, taken);
      ghost var before, beforeMap := locations, roomToLocation;
      location := AddLocation(room, exportName);
      LocateStep(backend, fold, before, beforeMap, rooms, location);
      NamesOfAppend(before, location);
      ghost var words := backend.reservedWords + NamesOf(before);
      assert backend.reservedWords + NamesOf(locations) == words + [exportName];
      FoldAllSnoc(words, exportName, fold);
      taken' := taken + {fold(exportName)};
    }

    /** Each location holds, in order, those of the given exits that lead from it. */
    ghost predicate ExitsFiled(exits: seq<Exit<Location>>)
      reads this, locations
    {
      forall l :: l in locations ==> l.exits == ExitsFrom(exits, l)
    }

    /** Files one more exit under the location it leads from. */
    method FileExit(exit: Exit<Location>, ghost filed: seq<Exit<Location>>)
      requires exit.source in locations
      requires ExitsFiled(filed)
      modifies locations`exits
      ensures ExitsFiled(filed + [exit])
    {
      exit.source.AddExit(exit);
      forall l | l in locations ensures l.exits == ExitsFrom(filed + [exit], l) {
        ExitsFromAppend(filed, [exit], l);
        ExitsFromSingle(exit, l);
      }
    }

    /** The loop body of `findExits` for one connection. */
    method FileConnection(c: Element, ghost filed: seq<Exit<Location>>) returns (outcome: Outcome<ExportError>)
      requires c.ConnectionElement?
      requires RoomMapSound() && ExitsFiled(filed)
      modifies locations`exits
      ensures outcome.Pass? <==> ConnectionExits(c, roomToLocation, labels).Success?
      ensures outcome.Fail? ==> outcome.error == ConnectionExits(c, roomToLocation, labels).error
      ensures outcome.Pass? ==> ExitsFiled(filed + ConnectionExits(c, roomToLocation, labels).value)
    {
      if c.source.None? || c.target.None? {
        assert filed + [] == filed;
        return Pass;
      }
      var sourceDock, targetDock := c.source.value, c.target.value;
      if sourceDock.room == targetDock.room && sourceDock.point == targetDock.point {
        assert filed + [] == filed;
        return Pass;
      }
      if sourceDock.room !in roomToLocation || targetDock.room !in roomToLocation {
        assert filed + [] == filed;
        return Pass;
      }
      outcome := FileDocked(c, filed);
    }

    /** The exits of a connection docked at both ends to located rooms. */
    method FileDocked(c: Element, ghost filed: seq<Exit<Location>>) returns (outcome: Outcome<ExportError>)
      requires c.ConnectionElement? && !Skipped(c, roomToLocation)
      requires RoomMapSound() && ExitsFiled(filed)
      modifies locations`exits
      ensures outcome.Pass? <==> ConnectionExits(c, roomToLocation, labels).Success?
      ensures outcome.Fail? ==> outcome.error == ConnectionExits(c, roomToLocation, labels).error
      ensures outcome.Pass? ==> ExitsFiled(filed + ConnectionExits(c, roomToLocation, labels).value)
    {
      var sourceDock, targetDock := c.source.value, c.target.value;
      var sourceLocation, targetLocation := roomToLocation[sourceDock.room], roomToLocation[targetDock.room];
      var forward := NewExit(sourceLocation, targetLocation, sourceDock.point, c.startText, c.style == Dashed, labels);
      if forward.Failure? {
        return Fail(forward.error);
      }
      FileExit(forward.value, filed);
      if c.flow == TwoWay {
        outcome := FileBack(c, forward.value, filed);
      } else {
        outcome := Pass;
      }
    }

    /** The second half of a two-way connection: the exit back from its target. */
    method FileBack(c: Element, there: Exit<Location>, ghost filed: seq<Exit<Location>>)
      returns (outcome: Outcome<ExportError>)
      requires c.ConnectionElement? && !Skipped(c, roomToLocation)
      requires RoomMapSound() && ExitsFiled(filed + [there])
      modifies locations`exits
      ensures var back := NewExit(roomToLocation[c.target.value.room], roomToLocation[c.source.value.room],
                                  c.target.value.point, c.endText, c.style == Dashed, labels);
              && (outcome.Pass? <==> back.Success?)
              && (outcome.Fail? ==> outcome.error == back.error)
              && (outcome.Pass? ==> ExitsFiled(filed + [there, back.value]))
    {
      var sourceLocation, targetLocation := roomToLocation[c.source.value.room], roomToLocation[c.target.value.room];
      var back := NewExit(targetLocation, sourceLocation, c.target.value.point, c.endText, c.style == Dashed, labels);
      if back.Failure? {
        return Fail(back.error);
      }
      FileExit(back.value, filed + [there]);
      AppendAssoc(filed, [there], [back.value]);
      assert [there] + [back.value] == [there, back.value];
      return Pass;
    }

    /**
     * `findExits`: for each connection, in element order, the exit from its
     * source and, when it is two-way, the exit back from its target, each filed
     * under the location it leads from.
     */
    method FindExits(elements: seq<Element>) returns (outcome: Outcome<ExportError>)
      requires RoomMapSound()
      requires forall l :: l in locations ==> l.exits == []
      modifies locations`exits
      ensures outcome.Pass? <==> AllExits(elements, roomToLocation, labels).Success?
      ensures outcome.Fail? ==> outcome.error == AllExits(elements, roomToLocation, labels).error
      ensures outcome.Pass? ==> ExitsFiled(AllExits(elements, roomToLocation, labels).value)
    {
      ghost var filed: seq<Exit<Location>> := [];
      forall l | l in locations ensures l.exits == ExitsFrom(filed, l) {}
      for i := 0 to |elements|
        invariant AllExits(elements[..i], roomToLocation, labels) == Success(filed)
        invariant ExitsFiled(filed)
      {
        assert elements[..i + 1][..i] == elements[..i];
        var c := elements[i];
        if !c.ConnectionElement? {
          continue;
        }
        outcome := FileConnection(c, filed);
        if outcome.Fail? {
          AllExitsFailureStays(elements, i + 1, roomToLocation, labels);
          return;
        }
        filed := filed + ConnectionExits(c, roomToLocation, labels).value;
      }
      assert elements[..|elements|] == elements;
      return Pass;
    }

    /** One turn of the `findRooms` loop: a room is named and located, any other element is passed over. */
    method VisitElement(elements: seq<Element>, i: nat, taken: set<string>) returns (taken': set<string>)
      requires i < |elements|
      requires SuffixesKeepNamesApart(backend, fold)
      requires Tabled(taken, backend, fold, locations)
      requires Located(backend, fold, locations, roomToLocation, Rooms(elements[..i]))
      requires Blank()
      modifies this
      ensures Tabled(taken', backend, fold, locations)
      ensures Located(backend, fold, locations, roomToLocation, Rooms(elements[..i + 1]))
      ensures Blank()
      ensures |locations| >= |old(locations)|
      ensures forall k :: 0 <= k < |locations| ==> (k < |old(locations)| && locations[k] == old(locations)[k]) || fresh(locations[k])
    {
      RoomsAppend(elements, i);
      var element := elements[i];
      if !element.RoomElement? {
        return taken;
      }
      var location;
      taken', location := LocateRoom(element, taken, Rooms(elements[..i]));
    }

    /** `findRooms`: seeds the reserved words, then names and locates each room in element order. */
    method FindRooms(elements: seq<Element>) returns (outcome: Outcome<ExportError>)
      requires locations == [] && roomToLocation == map[]
      requires SuffixesKeepNamesApart(backend, fold)
      modifies this
      ensures outcome.Pass? <==> PairwiseDistinct(backend.reservedWords, fold)
      ensures outcome.Fail? ==> outcome.error.DuplicateKey?
      ensures outcome.Fail? ==>
        exists i :: FirstClash(backend.reservedWords, {}, fold, i) && backend.reservedWords[i] == outcome.error.name
      ensures outcome.Pass? ==> RoomsFound(elements)
      ensures forall k :: 0 <= k < |locations| ==> fresh(locations[k])
      ensures Blank()
    {
      var seeded := Seed({}, backend.reservedWords, fold);
      if seeded.Failure? {
        return Fail(DuplicateKey(seeded.error));
      }
      LocateRooms(elements, seeded.value);
      return Pass;
    }

    /** The loop of `findRooms` over the map's elements, once the reserved words are in the name table. */
    method LocateRooms(elements: seq<Element>, taken: set<string>)
      requires locations == [] && roomToLocation == map[]
      requires SuffixesKeepNamesApart(backend, fold)
      requires taken == FoldAll(backend.reservedWords, fold)
      modifies this
      ensures RoomsFound(elements)
      ensures forall k :: 0 <= k < |locations| ==> fresh(locations[k])
      ensures Blank()
    {
      var taken := taken;
      assert backend.reservedWords + NamesOf(locations) == backend.reservedWords;
      for i := 0 to |elements|
        invariant forall k :: 0 <= k < |locations| ==> fresh(locations[k])
        invariant Tabled(taken, backend, fold, locations)
        invariant Located(backend, fold, locations, roomToLocation, Rooms(elements[..i]))
        invariant Blank()
      {
        taken := VisitElement(elements, i, taken);
      }
      assert elements[..|elements|] == elements;
    }

    /**
     * Each location holds the exits of `exits` that lead from it, in some
     * order, and has chosen its best exit in every direction.
     */
    ghost predicate ExitsPicked(exits: seq<Exit<Location>>)
      reads this, locations`exits, locations`bestExits
    {
      forall l :: l in locations ==> multiset(l.exits) == multiset(ExitsFrom(exits, l)) && l.BestExitsChosen()
    }

    /** `pickBestExits`: every location chooses its best exit in each direction. */
    method PickBestExits(ghost filed: seq<Exit<Location>>)
      requires LocationsDistinct()
      requires ExitsFiled(filed) && forall e :: e in filed ==> WellFormed(e)
      modifies locations`exits, locations`bestExits
      ensures ExitsPicked(filed)
    {
      var locs := locations;
      for k := 0 to |locs|
        invariant forall j :: 0 <= j < k ==>
          multiset(locs[j].exits) == multiset(ExitsFrom(filed, locs[j])) && locs[j].BestExitsChosen()
        invariant forall j :: k <= j < |locs| ==> locs[j].exits == ExitsFrom(filed, locs[j])
      {
        var location := locs[k];
        DistinctAt(locs, k);
        location.PickBestExits();
      }
    }

    /** An object's export name: its backend name or, failing that, the first suffixed name that is free. */
    method ObjectExportName(displayName: string, taken: set<string>) returns (exportName: string)
      requires SuffixesKeepNamesApart(backend, fold)
      ensures IsFirstFree(exportName, ObjectFirst(backend)(displayName), ObjectSuffixed(backend)(displayName), taken, fold)
    {
      var suffix;
      exportName, suffix := Allocate(backend.objectName(displayName, None), ObjectSuffixed(backend)(displayName), taken, fold);
    }

    /**
     * The inner loop body of `findThings` for one piece of a room's objects
     * text: a blank piece is skipped; otherwise the trimmed piece is named,
     * its indent counted, its container found, and the thing added.
     */
    method PlaceObject(location: Location, piece: string, taken: set<string>) returns (exportName: Option<string>)
      requires SuffixesKeepNamesApart(backend, fold)
      modifies location`things
      ensures exportName.None? <==> Trim(piece) == ""
      ensures exportName.None? ==> location.things == old(location.things)
      ensures exportName.Some? ==>
        && IsFirstFree(exportName.value, ObjectFirst(backend)(Trim(piece)), ObjectSuffixed(backend)(Trim(piece)), taken, fold)
        && location.things == Attach(old(location.things),
             Thing(Trim(piece), exportName.value, LeadingSpaces(piece),
                   NearestSmaller(old(location.things), LeadingSpaces(piece)), []))
    {
      var displayName := Trim(piece);
      if displayName == "" {
        return None;
      }
      var name := ObjectExportName(displayName, taken);
      var indent := CountIndent(piece);
      var container := location.FindContainer(indent);
      location.AddThing(Thing(displayName, name, indent, container, []));
      return Some(name);
    }

    /** The scan over the pieces of one location's objects text. */
    method PlacePieces(location: Location, pieces: seq<string>, taken: set<string>, ghost words: seq<string>,
                       ghost displays: seq<string>, ghost names: seq<string>)
      returns (taken': set<string>, ghost lines: seq<ObjectLine>, ghost placed: seq<string>)
      requires SuffixesKeepNamesApart(backend, fold)
      requires Placing(backend, fold, words, displays, names, [], location.things, [], [], taken)
      modifies location`things
      ensures Placing(backend, fold, words, displays, names, pieces, location.things, lines, placed, taken')
    {
      lines, placed := [], [];
      taken' := taken;
      for pi := 0 to |pieces|
        invariant Placing(backend, fold, words, displays, names, pieces[..pi], location.things, lines, placed, taken')
      {
        ghost var before := location.things;
        var exportName := PlaceObject(location, pieces[pi], taken');
        lines, placed := PlacingStep(backend, fold, words, displays, names, pieces, before, lines, placed, taken',
                                     pi, exportName, location.things);
        if exportName.Some? {
          taken' := taken' + {fold(exportName.value)};
        }
      }
      assert pieces[..|pieces|] == pieces;
    }

    /**
     * The outer loop body of `findThings` for one location: its objects text,
     * piece by piece, becomes its things, each named after those handed out so far.
     */
    method PlaceObjects(location: Location, taken: set<string>, ghost words: seq<string>,
                        ghost displays: seq<string>, ghost names: seq<string>) returns (taken': set<string>)
      requires SuffixesKeepNamesApart(backend, fold)
      requires location.room.RoomElement? && location.things == []
      requires taken == FoldAll(words + names, fold)
      requires AllocatedInOrder(displays, names, ObjectFirst(backend), ObjectSuffixed(backend), words, fold)
      modifies location`things
      ensures |location.things| == |ObjectLines(location.room.objects)|
      ensures location.things == Build(ObjectLines(location.room.objects), ExportNamesOf(location.things))
      ensures taken' == FoldAll(words + (names + ExportNamesOf(location.things)), fold)
      ensures AllocatedInOrder(displays + DisplaysOf(ObjectLines(location.room.objects)),
                               names + ExportNamesOf(location.things),
                               ObjectFirst(backend), ObjectSuffixed(backend), words, fold)
    {
      PlacingStart(backend, fold, words, displays, names, taken);
      var objects := location.room.objects;
      ghost var lines: seq<ObjectLine> := [];
      ghost var placed: seq<string> := [];
      var pieces: seq<string> := [];
      taken' := taken;
      if objects != "" {
        pieces := RemoveEmpty(Split(Replace(objects, "\r", ""), '\n'));
        assert pieces == Pieces(objects);
        taken', lines, placed := PlacePieces(location, pieces, taken, words, displays, names);
      }
      PlacingDone(backend, fold, words, displays, names, pieces, location.things, lines, placed, taken');
    }


    /**
     * After `findThings`: every location's things were built from its room's
     * object lines, and their names were handed out in order after the
     * reserved words and the rooms' export names.
     */
    ghost predicate ThingsFound()
      reads this, locations
    {
      && (forall l :: l in locations ==> ThingsBuilt(l))
      && AllocatedInOrder(ObjectDisplays(locations), ThingNames(locations), ObjectFirst(backend), ObjectSuffixed(backend),
                          backend.reservedWords + NamesOf(locations), fold)
    }

    /** Seeds a fresh name table with the reserved words, then the rooms' export names. */
    method SeedThingNames() returns (r: Result<set<string>, string>)
      ensures r.Success? <==> PairwiseDistinct(backend.reservedWords + NamesOf(locations), fold)
      ensures r.Success? ==> r.value == FoldAll(backend.reservedWords + NamesOf(locations), fold)
      ensures r.Failure? ==> exists i :: FirstClash(backend.reservedWords + NamesOf(locations), {}, fold, i) &&
                                         (backend.reservedWords + NamesOf(locations))[i] == r.error
    {
      var words, names := backend.reservedWords, NamesOf(locations);
      PairwiseDistinctAppend(words, names, fold);
      r := Seed({}, words, fold);
      if r.Failure? {
        ghost var i :| FirstClash(words, {}, fold, i) && words[i] == r.error;
        FirstClashExtend(words, names, fold, i);
        assert (words + names)[i] == words[i];
        return;
      }
      assert {} + FoldAll(words, fold) == FoldAll(words, fold);
      r := Seed(r.value, names, fold);
      FoldAllAppend(words, names, fold);
      if r.Failure? {
        ghost var i :| FirstClash(names, FoldAll(words, fold), fold, i) && names[i] == r.error;
        FirstClashAfter(words, names, fold, i);
        assert (words + names)[|words| + i] == names[i];
      }
    }

    /**
     * The state of `findThings` after the first `li` locations of `locs`: their
     * things are `built` from their object lines under names handed out in
     * order after `words`, and no later location has things yet.
     */
    ghost predicate ThingsPlaced(locs: seq<Location>, li: nat, built: seq<seq<Thing>>, taken: set<string>,
                                 words: seq<string>)
      reads locs
    {
      && li <= |locs|
      && (forall l :: l in locs ==> l.room.RoomElement?)
      && taken == FoldAll(words + FlatNames(built), fold)
      && AllocatedInOrder(ObjectDisplays(locs[..li]), FlatNames(built), ObjectFirst(backend), ObjectSuffixed(backend),
                          words, fold)
      && AllBuilt(locs[..li], built)
      && (forall j :: 0 <= j < li ==> locs[j].things == built[j])
      && (forall j :: li <= j < |locs| ==> locs[j].things == [])
    }

    /** The outer loop body of `findThings` for the location at index `li`. */
    method FindThingsAt(location: Location, locs: seq<Location>, li: nat, taken: set<string>, ghost words: seq<string>,
                        ghost built: seq<seq<Thing>>) returns (taken': set<string>, ghost built': seq<seq<Thing>>)
      requires SuffixesKeepNamesApart(backend, fold)
      requires li < |locs| && location == locs[li] && Distinct(locs)
      requires ThingsPlaced(locs, li, built, taken, words)
      modifies location`things
      ensures ThingsPlaced(locs, li + 1, built', taken', words)
    {
      ghost var prefix := locs[..li];
      TakeSnoc(locs, li);
      DistinctAt(locs, li);
      taken' := PlaceObjects(location, taken, words, ObjectDisplays(prefix), FlatNames(built));
      FlatNamesSnoc(built, location.things);
      ObjectDisplaysSnoc(prefix, location);
      AllBuiltSnoc(prefix, built, location, location.things);
      built' := built + [location.things];
      forall j | 0 <= j < li + 1 ensures locs[j].things == built'[j] {
        if j < li {
          assert locs[j] != location && built'[j] == built[j];
        }
      }
    }

    /** The outer loop of `findThings`, once the name table is seeded with `words`. */
    method PlaceAllObjects(taken: set<string>, ghost words: seq<string>)
      requires SuffixesKeepNamesApart(backend, fold)
      requires LocationsDistinct()
      requires forall l :: l in locations ==> l.room.RoomElement? && l.things == []
      requires taken == FoldAll(words, fold)
      modifies locations`things
      ensures forall l :: l in locations ==> ThingsBuilt(l)
      ensures AllocatedInOrder(ObjectDisplays(locations), ThingNames(locations), ObjectFirst(backend), ObjectSuffixed(backend),
                               words, fold)
    {
      var locs := locations;
      var taken := taken;
      assert words + [] == words;
      ghost var built: seq<seq<Thing>> := [];
      for li := 0 to |locs|
        invariant ThingsPlaced(locs, li, built, taken, words)
      {
        taken, built := FindThingsAt(locs[li], locs, li, taken, words, built);
      }
      ThingsPlacedDone(locs, built, taken, words);
    }

    /** Once every location is placed, every location's things are built and their names allocated in order. */
    lemma ThingsPlacedDone(locs: seq<Location>, built: seq<seq<Thing>>, taken: set<string>, words: seq<string>)
      requires ThingsPlaced(locs, |locs|, built, taken, words)
      ensures forall l :: l in locs ==> ThingsBuilt(l)
      ensures AllocatedInOrder(ObjectDisplays(locs), ThingNames(locs), ObjectFirst(backend), ObjectSuffixed(backend),
                               words, fold)
    {
      assert locs[..|locs|] == locs;
      ThingNamesAreFlatNames(locs, built);
      forall l | l in locs ensures ThingsBuilt(l) {
        var j :| 0 <= j < |locs| && locs[j] == l;
        AllBuiltAt(locs, built, j);
      }
    }

    /**
     * `findThings`: seeds the reserved words and the rooms' export names, then
     * turns each location's objects text into its things.
     */
    method FindThings() returns (outcome: Outcome<ExportError>)
      requires SuffixesKeepNamesApart(backend, fold)
      requires LocationsDistinct()
      requires forall l :: l in locations ==> l.room.RoomElement? && l.things == []
      modifies locations`things
      ensures outcome.Pass? <==> PairwiseDistinct(backend.reservedWords + NamesOf(locations), fold)
      ensures outcome.Fail? ==>
        outcome.error.DuplicateKey? &&
        exists i :: FirstClash(backend.reservedWords + NamesOf(locations), {}, fold, i) &&
                    (backend.reservedWords + NamesOf(locations))[i] == outcome.error.name
      ensures outcome.Fail? ==> forall l :: l in locations ==> l.things == []
      ensures outcome.Pass? ==> ThingsFound()
    {
      var seeded := SeedThingNames();
      if seeded.Failure? {
        return Fail(DuplicateKey(seeded.error));
      }
      PlaceAllObjects(seeded.value, backend.reservedWords + NamesOf(locations));
      return Pass;
    }


    /** What a successful `findRooms` gives the later passes. */
    lemma RoomsFoundFacts(elements: seq<Element>)
      requires PairwiseDistinct(backend.reservedWords, fold)
      requires RoomsFound(elements)
      ensures LocationsDistinct() && RoomMapSound()
      ensures forall l :: l in locations ==> l.room.RoomElement?
      ensures PairwiseDistinct(backend.reservedWords + NamesOf(locations), fold)
    {
      AllocatedInOrderDistinct(Rooms(elements), NamesOf(locations), RoomFirst(backend), RoomSuffixed(backend),
                               backend.reservedWords, fold);
      forall l | l in locations ensures l.room.RoomElement? {
        var i :| 0 <= i < |locations| && locations[i] == l;
        assert l.room in Rooms(elements);
      }
    }

    /**
     * Every export name differs from every other once folded: the reserved
     * words, the rooms' names and the things' names together.
     */
    lemma ExportNamesUnique(elements: seq<Element>)
      requires PairwiseDistinct(backend.reservedWords, fold)
      requires RoomsFound(elements) && ThingsFound()
      ensures PairwiseDistinct(backend.reservedWords + NamesOf(locations) + ThingNames(locations), fold)
    {
      RoomsFoundFacts(elements);
      AllocatedInOrderDistinct(ObjectDisplays(locations), ThingNames(locations), ObjectFirst(backend),
                               ObjectSuffixed(backend), backend.reservedWords + NamesOf(locations), fold);
    }

    /**
     * After `prepareContent`: the rooms are located; each location holds the
     * exits leading from it, reordered while its best exit in every direction
     * was chosen; and every location's things are built.
     */
    ghost predicate ContentPrepared(elements: seq<Element>)
      reads this, locations
    {
      && AllExits(elements, roomToLocation, labels).Success?
      && RoomsFound(elements)
      && ExitsPicked(AllExits(elements, roomToLocation, labels).value)
      && ThingsFound()
    }

    /** `prepareContent`: rooms, then exits, then the best exits, then things. */
    method PrepareContent(elements: seq<Element>) returns (outcome: Outcome<ExportError>)
      requires locations == [] && roomToLocation == map[]
      requires SuffixesKeepNamesApart(backend, fold)
      modifies this
      ensures outcome.Pass? <==>
        PairwiseDistinct(backend.reservedWords, fold) && AllExits(elements, roomToLocation, labels).Success?
      ensures !PairwiseDistinct(backend.reservedWords, fold) ==>
        outcome.Fail? && outcome.error.DuplicateKey? &&
        (exists i :: FirstClash(backend.reservedWords, {}, fold, i) && backend.reservedWords[i] == outcome.error.name)
      ensures PairwiseDistinct(backend.reservedWords, fold) && AllExits(elements, roomToLocation, labels).Failure? ==>
        outcome == Fail(AllExits(elements, roomToLocation, labels).error)
      ensures outcome.Pass? ==> ContentPrepared(elements)
    {
      outcome := FindRooms(elements);
      if outcome.Fail? {
        return;
      }
      RoomsFoundFacts(elements);
      outcome := PrepareLocated(elements);
    }

    /** The passes of `prepareContent` after `findRooms` has succeeded. */
    method PrepareLocated(elements: seq<Element>) returns (outcome: Outcome<ExportError>)
      requires SuffixesKeepNamesApart(backend, fold)
      requires LocationsDistinct() && RoomMapSound()
      requires PairwiseDistinct(backend.reservedWords + NamesOf(locations), fold)
      requires forall l :: l in locations ==> l.room.RoomElement? && l.exits == [] && l.bestExits == map[] && l.things == []
      modifies locations
      ensures outcome.Pass? <==> AllExits(elements, roomToLocation, labels).Success?
      ensures outcome.Fail? ==> outcome == Fail(AllExits(elements, roomToLocation, labels).error)
      ensures outcome.Pass? ==> ExitsPicked(AllExits(elements, roomToLocation, labels).value) && ThingsFound()
    {
      outcome := FindExits(elements);
      if outcome.Fail? {
        return;
      }
      outcome := PickAndPlace(AllExits(elements, roomToLocation, labels).value);
    }

    /** The passes of `prepareContent` after `findExits` has succeeded. */
    method PickAndPlace(ghost exits: seq<Exit<Location>>) returns (outcome: Outcome<ExportError>)
      requires SuffixesKeepNamesApart(backend, fold)
      requires LocationsDistinct()
      requires PairwiseDistinct(backend.reservedWords + NamesOf(locations), fold)
      requires ExitsFiled(exits) && forall e :: e in exits ==> WellFormed(e)
      requires forall l :: l in locations ==> l.room.RoomElement? && l.things == []
      modifies locations`exits, locations`bestExits, locations`things
      ensures outcome == Pass && ExitsPicked(exits) && ThingsFound()
    {
      PickBestExits(exits);
      label picked:
      outcome := FindThings();
      forall l | l in locations
        ensures multiset(l.exits) == multiset(ExitsFrom(exits, l)) && l.BestExitsChosen()
      {
        assert l.exits == old@picked(l.exits) && l.bestExits == old@picked(l.bestExits);
      }
    }
  }
}
