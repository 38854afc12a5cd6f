/**
 * A map's element list and the handler that runs when an element is removed
 * from it: every connection with a vertex on the removed element is removed
 * too.
 */
module Maps {
  import opened Wrappers
  import opened Elements
  import opened Seqs

  /** How many of a connection's vertices are attached to a port of `item`. */
  function VerticesOn(ports: seq<Option<Port>>, item: Ref): (n: nat)
    ensures n <= |ports|
    ensures n > 0 <==> exists k :: 0 <= k < |ports| && ports[k].Some? && ports[k].value.owner == item
    decreases |ports|
  {
    if ports == [] then 0
    else
      var init := ports[..|ports| - 1];
      assert forall k :: 0 <= k < |init| ==> init[k] == ports[k];
      VerticesOn(init, item) + (if ports[|ports| - 1].Some? && ports[|ports| - 1].value.owner == item then 1 else 0)
  }

  /** A connection with some vertex attached to `item`. */
  predicate AttachedTo(e: Element, item: Ref) {
    e.ConnectionElement? && VerticesOn(e.vertexPorts, item) > 0
  }

  /** The `doomed` list: each connection, in element order, once per vertex attached to `item`. */
  function Doomed(elements: seq<Element>, item: Ref): (doomed: seq<Element>)
    decreases |elements|
  {
    if elements == [] then []
    else
      var last := elements[|elements| - 1];
      Doomed(elements[..|elements| - 1], item)
      + (if last.ConnectionElement? then Repeat(last, VerticesOn(last.vertexPorts, item)) else [])
  }

  /** `List.Remove`: drops the first occurrence, if any. */
  function RemoveFirst(s: seq<Element>, x: Element): (r: seq<Element>)
    ensures multiset(r) == multiset(s) - multiset{x}
    decreases |s|
  {
    if s == [] then []
    else if s[0] == x then (assert s == [s[0]] + s[1..]; s[1..])
    else (assert s == [s[0]] + s[1..]; [s[0]] + RemoveFirst(s[1..], x))
  }

  lemma VerticesOnSnoc(ports: seq<Option<Port>>, j: nat, item: Ref)
    requires j < |ports|
    ensures VerticesOn(ports[..j + 1], item)
         == VerticesOn(ports[..j], item) + (if ports[j].Some? && ports[j].value.owner == item then 1 else 0)
  {
    assert ports[..j + 1][..j] == ports[..j];
  }

  lemma DoomedSnoc(elements: seq<Element>, i: nat, item: Ref)
    requires i < |elements|
    ensures Doomed(elements[..i + 1], item)
         == Doomed(elements[..i], item)
            + (if elements[i].ConnectionElement? then Repeat(elements[i], VerticesOn(elements[i].vertexPorts, item)) else [])
  {
    assert elements[..i + 1][..i] == elements[..i];
  }

  /** Removing each of `doomed` in turn. */
  function RemoveAll(s: seq<Element>, doomed: seq<Element>): (r: seq<Element>)
    ensures multiset(r) == multiset(s) - multiset(doomed)
    decreases |doomed|
  {
    if doomed == [] then s
    else
      var init := doomed[..|doomed| - 1];
      var x := doomed[|doomed| - 1];
      assert doomed == init + [x];
      RemoveFirst(RemoveAll(s, init), x)
  }

  /**
   * Nothing but a connection attached to `item` is doomed, and such a
   * connection is doomed at least as often as it occurs in the map (once per
   * occurrence and per vertex on `item`).
   */
  lemma {:induction false} DoomedCount(elements: seq<Element>, item: Ref, e: Element)
    ensures !AttachedTo(e, item) ==> multiset(Doomed(elements, item))[e] == 0
    ensures AttachedTo(e, item) ==> multiset(Doomed(elements, item))[e] >= multiset(elements)[e]
    decreases |elements|
  {
    if elements != [] {
      var init := elements[..|elements| - 1];
      var last := elements[|elements| - 1];
      assert elements == init + [last];
      DoomedCount(init, item, e);
      var tail := if last.ConnectionElement? then Repeat(last, VerticesOn(last.vertexPorts, item)) else [];
      assert Doomed(elements, item) == Doomed(init, item) + tail;
      if last.ConnectionElement? {
        RepeatCount(last, VerticesOn(last.vertexPorts, item), e);
      }
      assert multiset(elements)[e] == multiset(init)[e] + (if last == e then 1 else 0);
    }
  }

  /**
   * What the removal handler leaves: no connection attached to the removed
   * item, every other element exactly as often as before, and nothing but
   * connections removed.
   */
  lemma RemovalCascade(elements: seq<Element>, item: Ref)
    ensures var r := RemoveAll(elements, Doomed(elements, item));
      && (forall e :: e in r ==> !AttachedTo(e, item))
      && (forall e :: !AttachedTo(e, item) ==> multiset(r)[e] == multiset(elements)[e])
      && (forall e :: e in elements && e !in r ==> e.ConnectionElement?)
  {
    RemovalDropsAttached(elements, item);
    RemovalKeepsOthers(elements, item);
    RemovalDropsOnlyConnections(elements, item);
  }

  lemma RemovalDropsAttached(elements: seq<Element>, item: Ref)
    ensures forall e :: e in RemoveAll(elements, Doomed(elements, item)) ==> !AttachedTo(e, item)
  {
    var r := RemoveAll(elements, Doomed(elements, item));
    forall e | AttachedTo(e, item) ensures e !in r {
      DoomedCount(elements, item, e);
      assert multiset(r)[e] == 0;
    }
  }

  lemma RemovalKeepsOthers(elements: seq<Element>, item: Ref)
    ensures forall e :: !AttachedTo(e, item) ==>
      multiset(RemoveAll(elements, Doomed(elements, item)))[e] == multiset(elements)[e]
  {
    forall e | !AttachedTo(e, item)
      ensures multiset(RemoveAll(elements, Doomed(elements, item)))[e] == multiset(elements)[e]
    {
      DoomedCount(elements, item, e);
    }
  }

  lemma RemovalDropsOnlyConnections(elements: seq<Element>, item: Ref)
    ensures forall e :: e in elements && e !in RemoveAll(elements, Doomed(elements, item)) ==> e.ConnectionElement?
  {
    var r := RemoveAll(elements, Doomed(elements, item));
    forall e | e in elements && e !in r ensures e.ConnectionElement? {
      DoomedCount(elements, item, e);
      assert multiset(r)[e] == 0;
    }
  }

  lemma RemoveAllSnoc(s: seq<Element>, doomed: seq<Element>, x: Element)
    ensures RemoveAll(s, doomed + [x]) == RemoveFirst(RemoveAll(s, doomed), x)
  {
    assert (doomed + [x])[..|doomed|] == doomed;
  }

  /** A map's element list (`Elements`). */
  class Map {
    var elements: seq<Element>

    constructor()
      ensures elements == []
    {
      elements := [];
    }

    /**
     * `onElementRemoved`: first collects every connection with a vertex on the
     * removed item (once per such vertex), then removes each collected one.
     */
    method OnElementRemoved(item: Ref)
      modifies this
      ensures elements == RemoveAll(old(elements), Doomed(old(elements), item))
    {
      var doomed := CollectDoomed(item);
      for k := 0 to |doomed|
        invariant elements == RemoveAll(old(elements), doomed[..k])
      {
        TakeSnoc(doomed, k);
        RemoveAllSnoc(old(elements), doomed[..k], doomed[k]);
        elements := RemoveFirst(elements, doomed[k]);
      }
      assert doomed[..|doomed|] == doomed;
    }

    /** The first loop of `onElementRemoved`: the scan, which removes nothing. */
    method CollectDoomed(item: Ref) returns (doomed: seq<Element>)
      ensures doomed == Doomed(elements, item)
    {
      doomed := [];
      for i := 0 to |elements|
        invariant doomed == Doomed(elements[..i], item)
      {
        DoomedSnoc(elements, i, item);
        var element := elements[i];
        if !element.ConnectionElement? {
          continue;
        }
        ghost var before := doomed;
        var vertexPorts := element.vertexPorts;
        for j := 0 to |vertexPorts|
          invariant doomed == before + Repeat(element, VerticesOn(vertexPorts[..j], item))
        {
          VerticesOnSnoc(vertexPorts, j, item);
          var port := vertexPorts[j];
          if port.Some? && port.value.owner == item {
            RepeatSnoc(element, VerticesOn(vertexPorts[..j], item));
            AppendAssoc(before, Repeat(element, VerticesOn(vertexPorts[..j], item)), [element]);
            doomed := doomed + [element];
          }
        }
        assert vertexPorts[..|vertexPorts|] == vertexPorts;
      }
      assert elements[..|elements|] == elements;
    }
  }
}
