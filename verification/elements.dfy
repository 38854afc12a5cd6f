/**
 * A value snapshot of a map's elements, as the exporter, the statistics and the
 * removal cascade read them. Object identity, which the C# code compares with
 * `==` on references, is the element's `handle`.
 */
module Elements {
  import opened Wrappers
  import opened Compass

  /** Identity of an object (two elements are the same object exactly when their handles are equal). */
  type Ref = nat

  /** A point on the canvas. */
  datatype Vector = Vector(x: real, y: real)

  const Zero: Vector := Vector(0.0, 0.0)

  /** A port a vertex can attach to; a room's ports are compass ports. */
  datatype Port =
    | CompassPort(owner: Ref, point: CompassPoint)
    | OtherPort(owner: Ref, key: nat)

  /** Where one end of a connection is docked: the room and the compass point. */
  datatype Dock = Dock(room: Ref, point: CompassPoint)

  datatype ConnectionFlow = OneWay | TwoWay

  datatype ConnectionStyle = Solid | Dashed

  /**
   * An element of a map. For a connection, `vertexPorts` holds the port of each
   * vertex (None when the vertex is not attached), and `source`/`target` are
   * what `GetSourceRoom`/`GetTargetRoom` report (None when that end is undocked).
   */
  datatype Element =
    | RoomElement(handle: Ref, id: int, name: string, objects: string, region: string)
    | ConnectionElement(handle: Ref, id: int, vertexPorts: seq<Option<Port>>,
                        source: Option<Dock>, target: Option<Dock>,
                        flow: ConnectionFlow, style: ConnectionStyle,
                        startText: string, endText: string)
    | OtherElement(handle: Ref, id: int)

  /** The rooms among the elements, in element order (`Elements.OfType<Room>()`). */
  function Rooms(elements: seq<Element>): (rooms: seq<Element>)
    ensures forall r :: r in rooms <==> r in elements && r.RoomElement?
    ensures |rooms| <= |elements|
    decreases |elements|
  {
    if elements == [] then []
    else
      var last := elements[|elements| - 1];
      assert elements == elements[..|elements| - 1] + [last];
      Rooms(elements[..|elements| - 1]) + (if last.RoomElement? then [last] else [])
  }

  /**
   * Filtering keeps the order: the rooms of two lists joined are the rooms of
   * the first followed by the rooms of the second.
   */
  lemma {:induction false} RoomsConcat(a: seq<Element>, b: seq<Element>)
    ensures Rooms(a + b) == Rooms(a) + Rooms(b)
    decreases |b|
  {
    if b == [] {
      assert a + b == a;
    } else {
      var n := |b| - 1;
      assert (a + b)[..|a + b| - 1] == a + b[..n];
      var tail := if b[n].RoomElement? then [b[n]] else [];
      assert (a + b)[|a + b| - 1] == b[n];
      assert Rooms(a + b) == Rooms(a + b[..n]) + tail;
      assert Rooms(b) == Rooms(b[..n]) + tail;
      RoomsConcat(a, b[..n]);
      assert Rooms(a) + (Rooms(b[..n]) + tail) == (Rooms(a) + Rooms(b[..n])) + tail;
    }
  }

  /** Each room occurs among the rooms exactly as often as among the elements; nothing else occurs. */
  lemma {:induction false} RoomsCount(elements: seq<Element>, e: Element)
    ensures multiset(Rooms(elements))[e] == if e.RoomElement? then multiset(elements)[e] else 0
    decreases |elements|
  {
    if elements != [] {
      var n := |elements| - 1;
      assert elements == elements[..n] + [elements[n]];
      RoomsCount(elements[..n], e);
    }
  }

  /** No object occurs twice in an element list. */
  predicate UniqueHandles(elements: seq<Element>) {
    forall i, j :: 0 <= i < j < |elements| ==> elements[i].handle != elements[j].handle
  }
}
