/**
 * Counting queries over a map's element list: rooms, floating rooms, rooms
 * with objects, objects, connections, dangling and looping connections, and
 * regions.
 */
module MapStatistics {
  import opened Wrappers
  import opened Elements
  import opened Rooms

  /** How many of the elements satisfy `p` (`Count(p)`). */
  function CountWhere(elements: seq<Element>, p: Element -> bool): (n: nat)
    ensures n <= |elements|
    decreases |elements|
  {
    if elements == [] then 0
    else CountWhere(elements[..|elements| - 1], p) + (if p(elements[|elements| - 1]) then 1 else 0)
  }

  /** Counting a weaker condition never gives less. */
  lemma {:induction false} CountWhereMonotone(elements: seq<Element>, p: Element -> bool, q: Element -> bool)
    requires forall e :: e in elements && p(e) ==> q(e)
    ensures CountWhere(elements, p) <= CountWhere(elements, q)
    decreases |elements|
  {
    if elements != [] {
      var init := elements[..|elements| - 1];
      assert forall e :: e in init ==> e in elements;
      CountWhereMonotone(init, p, q);
    }
  }

  /** Two conditions no element meets at once, both implying a third, add up to at most the count of the third. */
  lemma {:induction false} CountWhereDisjoint(elements: seq<Element>, p: Element -> bool, q: Element -> bool,
                                              r: Element -> bool)
    requires forall e :: e in elements && p(e) ==> !q(e) && r(e)
    requires forall e :: e in elements && q(e) ==> r(e)
    ensures CountWhere(elements, p) + CountWhere(elements, q) <= CountWhere(elements, r)
    decreases |elements|
  {
    if elements != [] {
      var init := elements[..|elements| - 1];
      assert forall e :: e in init ==> e in elements;
      CountWhereDisjoint(init, p, q, r);
    }
  }

  function IsRoom(e: Element): bool { e.RoomElement? }
  function IsConnection(e: Element): bool { e.ConnectionElement? }

  /** `NumberOfRooms`. */
  function NumberOfRooms(elements: seq<Element>): nat {
    CountWhere(elements, IsRoom)
  }

  /** The number of rooms is the length of the room list the exporter walks. */
  lemma {:induction false} NumberOfRoomsIsRoomList(elements: seq<Element>)
    ensures NumberOfRooms(elements) == |Elements.Rooms(elements)|
    decreases |elements|
  {
    if elements != [] {
      NumberOfRoomsIsRoomList(elements[..|elements| - 1]);
    }
  }

  /** A room no connection is docked to (`GetConnections().Count == 0`). */
  function Floating(elements: seq<Element>): Element -> bool {
    (e: Element) => e.RoomElement? && |ConnectionsAt(elements, e.handle, None)| == 0
  }

  /** `NumberOfFloatingRooms`. */
  function NumberOfFloatingRooms(elements: seq<Element>): (n: nat)
    ensures n <= NumberOfRooms(elements)
  {
    CountWhereMonotone(elements, Floating(elements), IsRoom);
    CountWhere(elements, Floating(elements))
  }

  /** A room whose objects text lists at least one object. */
  function HasObjects(e: Element): bool {
    e.RoomElement? && |ListOfObjects(e.objects)| > 0
  }

  /** `NumberOfRoomsWithObjects`. */
  function NumberOfRoomsWithObjects(elements: seq<Element>): (n: nat)
    ensures n <= NumberOfRooms(elements)
  {
    CountWhereMonotone(elements, HasObjects, IsRoom);
    CountWhere(elements, HasObjects)
  }

  /** `NumberOfTotalObjectsInRooms`: the objects listed by all rooms together. */
  function NumberOfTotalObjectsInRooms(elements: seq<Element>): nat
    decreases |elements|
  {
    if elements == [] then 0
    else
      var last := elements[|elements| - 1];
      NumberOfTotalObjectsInRooms(elements[..|elements| - 1]) + (if last.RoomElement? then |ListOfObjects(last.objects)| else 0)
  }

  /** Every room with objects lists at least one, so there are at least as many objects as such rooms. */
  lemma {:induction false} RoomsWithObjectsAtMostObjects(elements: seq<Element>)
    ensures NumberOfRoomsWithObjects(elements) <= NumberOfTotalObjectsInRooms(elements)
    decreases |elements|
  {
    if elements != [] {
      RoomsWithObjectsAtMostObjects(elements[..|elements| - 1]);
    }
  }

  /** `NumberOfConnections`. */
  function NumberOfConnections(elements: seq<Element>): nat {
    CountWhere(elements, IsConnection)
  }

  /** A connection with an end that is not docked to a room. */
  function Dangling(e: Element): bool {
    e.ConnectionElement? && (e.source.None? || e.target.None?)
  }

  /** A connection whose two ends are docked to the same room. */
  function Looping(e: Element): bool {
    e.ConnectionElement? && e.source.Some? && e.target.Some? && e.source.value.room == e.target.value.room
  }

  /** `NumberOfDanglingConnections`. */
  function NumberOfDanglingConnections(elements: seq<Element>): nat {
    CountWhere(elements, Dangling)
  }

  /** `NumberOfLoopingConnections`. */
  function NumberOfLoopingConnections(elements: seq<Element>): nat {
    CountWhere(elements, Looping)
  }

  /** No connection is both dangling and looping, so together they are at most all the connections. */
  lemma DanglingAndLoopingApart(elements: seq<Element>)
    ensures NumberOfDanglingConnections(elements) + NumberOfLoopingConnections(elements) <= NumberOfConnections(elements)
  {
    CountWhereDisjoint(elements, Dangling, Looping, IsConnection);
  }

  /** `NumberOfRegions`: the regions of the settings other than the default one. */
  function NumberOfRegions(regionNames: seq<string>, defaultRegion: string): (n: nat)
    ensures n <= |regionNames|
    ensures defaultRegion in regionNames ==> n < |regionNames|
    decreases |regionNames|
  {
    if regionNames == [] then 0
    else
      var init := regionNames[..|regionNames| - 1];
      assert defaultRegion in regionNames ==> defaultRegion in init || regionNames[|regionNames| - 1] == defaultRegion;
      NumberOfRegions(init, defaultRegion) + (if regionNames[|regionNames| - 1] != defaultRegion then 1 else 0)
  }

  /** A room in the given region, compared exactly. */
  function InRegion(region: string): Element -> bool {
    (e: Element) => e.RoomElement? && e.region == region
  }

  /** `NumberOfRoomsInRegion`. */
  function NumberOfRoomsInRegion(elements: seq<Element>, region: string): (n: nat)
    ensures n <= NumberOfRooms(elements)
  {
    CountWhereMonotone(elements, InRegion(region), IsRoom);
    CountWhere(elements, InRegion(region))
  }

  /** Rooms in two different regions are counted apart. */
  lemma RegionsCountedApart(elements: seq<Element>, a: string, b: string)
    requires a != b
    ensures NumberOfRoomsInRegion(elements, a) + NumberOfRoomsInRegion(elements, b) <= NumberOfRooms(elements)
  {
    CountWhereDisjoint(elements, InRegion(a), InRegion(b), IsRoom);
  }
}
