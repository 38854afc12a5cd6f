/**
 * A vertex of a connection: fixed either to a point on the canvas or to a
 * port. Setting one detaches the other, and every change that takes effect
 * raises `Changed` once.
 */
module Vertices {
  import opened Wrappers
  import opened Elements

  class Vertex {
    var port: Option<Port>   // `mPort`
    var position: Vector     // `mPosition`
    var changes: nat         // how many `Changed` events were raised

    /** A vertex attached to a port keeps the zero vector as its stored position. */
    ghost predicate Valid()
      reads this
    {
      port.Some? ==> position == Zero
    }

    /**
     * The position the vertex reports: its port's position when it is attached
     * (`portPosition` is `Port.Position`), otherwise the stored one.
     */
    function Position(portPosition: Port -> Vector): (p: Vector)
      reads this
      ensures port.Some? ==> p == portPosition(port.value)
      ensures port.None? ==> p == position
    {
      match port
      case Some(q) => portPosition(q)
      case None => position
    }

    /** `Vertex()`: neither attached nor moved. */
    constructor()
      ensures port.None? && position == Zero && changes == 0
      ensures Valid()
    {
      port := None;
      position := Zero;
      changes := 0;
    }

    /**
     * `Vertex(port)`: the `Port` setter applied to a fresh vertex. The event it
     * raises reaches no handler yet, so no change is counted.
     */
    constructor AtPort(p: Option<Port>)
      ensures port == p && position == Zero
      ensures changes == 0
      ensures Valid()
    {
      port := None;
      position := Zero;
      changes := 0;
      new;
      SetPort(p);
      changes := 0;
    }

    /**
     * `Vertex(position)`: the `Position` setter applied to a fresh vertex. The
     * event it raises reaches no handler yet, so no change is counted.
     */
    constructor AtPosition(v: Vector)
      ensures port.None? && position == v
      ensures changes == 0
      ensures Valid()
    {
      port := None;
      position := Zero;
      changes := 0;
      new;
      SetPosition(v);
      changes := 0;
    }

    /**
     * The `Position` setter: a value equal to the stored position is ignored
     * (even while a port is attached, so assigning zero then keeps the port);
     * any other is stored, detaches the port and raises `Changed`.
     */
    method SetPosition(v: Vector)
      modifies this
      ensures old(position) == v ==> port == old(port) && position == old(position) && changes == old(changes)
      ensures old(position) != v ==> port.None? && position == v && changes == old(changes) + 1
      ensures old(Valid()) ==> Valid()
      ensures old(Valid()) && old(port).Some? && v == Zero ==> port == old(port) && changes == old(changes)
    {
      if position == v {
        return;
      }
      position := v;
      port := None;
      changes := changes + 1;
    }

    /**
     * The `Port` setter: the current port is ignored; any other is attached,
     * resets the stored position to zero and raises `Changed`.
     */
    method SetPort(p: Option<Port>)
      modifies this
      ensures old(port) == p ==> port == old(port) && position == old(position) && changes == old(changes)
      ensures old(port) != p ==> port == p && position == Zero && changes == old(changes) + 1
      ensures old(Valid()) ==> Valid()
    {
      if port == p {
        return;
      }
      position := Zero;
      port := p;
      changes := changes + 1;
    }
  }
}
