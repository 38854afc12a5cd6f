/**
 * A room of the map: its description list, its sixteen compass ports, the
 * objects text and how it is split and saved, and the connections docked to
 * it. The description list, the setters and the connection search change or
 * build state step by step and live in the class `Room`; the rest are
 * functions of the values they read.
 */
module Rooms {
  import opened Wrappers
  import opened Compass
  import opened Text
  import opened Elements
  import opened Seqs

  // ----- descriptions -----

  /** No description is empty and none is stored twice. */
  predicate DescriptionsValid(descriptions: seq<string>) {
    && (forall i :: 0 <= i < |descriptions| ==> descriptions[i] != "")
    && (forall i, j :: 0 <= i < j < |descriptions| ==> descriptions[i] != descriptions[j])
  }

  /**
   * The description list after `AddDescription(d)`: a null or empty
   * description, or one already stored, changes nothing; any other is appended.
   */
  function AddedDescription(descriptions: seq<string>, d: Option<string>): (r: seq<string>)
    ensures descriptions <= r && |r| <= |descriptions| + 1
    ensures forall x :: x in r <==> x in descriptions || (!IsNullOrEmpty(d) && x == d.value)
    ensures DescriptionsValid(descriptions) ==> DescriptionsValid(r)
  {
    if IsNullOrEmpty(d) || d.value in descriptions then descriptions else descriptions + [d.value]
  }

  /** `PrimaryDescription`: the first stored description, or null. */
  function PrimaryDescription(descriptions: seq<string>): (r: Option<string>)
    ensures r.Some? <==> HasDescription(descriptions)
    ensures r.Some? ==> r.value in descriptions
  {
    if |descriptions| > 0 then Some(descriptions[0]) else None
  }

  /** `HasDescription`. */
  predicate HasDescription(descriptions: seq<string>) {
    |descriptions| > 0
  }

  /**
   * `MatchDescription`: a null or empty description matches a room without
   * descriptions; any other matches when it is stored.
   */
  predicate MatchDescription(descriptions: seq<string>, d: Option<string>) {
    if IsNullOrEmpty(d) then |descriptions| == 0 else d.value in descriptions
  }

  /**
   * Adding a description never changes the primary one; the first description
   * ever added becomes primary.
   */
  lemma PrimaryDescriptionStays(descriptions: seq<string>, d: Option<string>)
    ensures PrimaryDescription(AddedDescription(descriptions, d)) ==
      if HasDescription(descriptions) || IsNullOrEmpty(d) then PrimaryDescription(descriptions) else d
  {
    var r := AddedDescription(descriptions, d);
    if HasDescription(descriptions) {
      assert r[0] == descriptions[0];
    }
  }

  /** A description just added is matched; a null or empty one matches exactly when nothing is stored. */
  lemma AddedDescriptionMatches(descriptions: seq<string>, d: Option<string>)
    ensures !IsNullOrEmpty(d) ==> MatchDescription(AddedDescription(descriptions, d), d)
    ensures IsNullOrEmpty(d) ==>
      (MatchDescription(AddedDescription(descriptions, d), d) <==> !HasDescription(descriptions))
  {
  }

  // ----- objects text -----

  /**
   * The objects text as `Save` writes it, and as `ListOfObjects` prepares it
   * for splitting: carriage returns dropped, `|` escaped as `\|`, and each line
   * break turned into `|`.
   */
  function EncodeObjects(objects: string): string {
    Replace(Replace(Replace(objects, "\r", ""), "|", "\\|"), "\n", "|")
  }

  /** The objects text as `Load` reads it back: `|` becomes a line break, and `\` before a line break becomes `|`. */
  function DecodeObjects(saved: string): string {
    Replace(Replace(saved, "|", "\r\n"), "\\\r\n", "|")
  }

  /** `ListOfObjects`: the encoded text split at `|`, without the empty pieces. */
  function ListOfObjects(objects: string): (names: seq<string>)
    ensures forall n :: n in names ==> n != "" && '|' !in n && '\r' !in n && '\n' !in n
  {
    var encoded := EncodeObjects(objects);
    EncodedIsClean(objects);
    SplitPieces(encoded, '|');
    RemoveEmpty(Split(encoded, '|'))
  }

  /** The encoded text has no carriage return and no line break. */
  lemma EncodedIsClean(objects: string)
    ensures '\r' !in EncodeObjects(objects) && '\n' !in EncodeObjects(objects)
  {
    var s1 := Replace(objects, "\r", "");
    var s2 := Replace(s1, "|", "\\|");
    ReplaceRemovesChar(objects, '\r', "");
    ReplaceKeepsOut(s1, "|", "\\|", '\r');
    ReplaceKeepsOut(s2, "\n", "|", '\r');
    ReplaceRemovesChar(s2, '\n', "|");
  }

  /** What one character of the objects text becomes when encoded. */
  function EncodeChar(c: char): string {
    if c == '\r' then "" else if c == '|' then "\\|" else if c == '\n' then "|" else [c]
  }

  lemma EncodeCons(c: char, t: string)
    ensures EncodeObjects([c] + t) == EncodeChar(c) + EncodeObjects(t)
  {
    var s1 := Replace(t, "\r", "");
    var s2 := Replace(s1, "|", "\\|");
    ReplaceCons(c, t, '\r', "");
    var h1 := if c == '\r' then "" else [c];
    ReplaceCharAppend(h1, s1, '|', "\\|");
    var h2 := Replace(h1, "|", "\\|");
    ReplaceCharAppend(h2, s2, '\n', "|");
    if c != '\r' {
      ReplaceCons(c, [], '|', "\\|");
      if c != '|' {
        ReplaceCons(c, [], '\n', "|");
      } else {
        ReplaceCons('\\', "|", '\n', "|");
        ReplaceCons('|', [], '\n', "|");
      }
    }
  }

  /** Decoding the encoding of one more character, in front of the encoding of the rest. */
  lemma DecodeEncodeCons(c: char, t: string)
    requires c != '\\'
    ensures DecodeObjects(EncodeObjects([c] + t)) ==
      (if c == '\r' then "" else if c == '\n' then "\r\n" else [c]) + DecodeObjects(EncodeObjects(t))
  {
    EncodeCons(c, t);
    ReplaceCharAppend(EncodeChar(c), EncodeObjects(t), '|', "\r\n");
    var rest := Replace(EncodeObjects(t), "|", "\r\n");
    assert DecodeObjects(EncodeObjects([c] + t)) == Replace(Replace(EncodeChar(c), "|", "\r\n") + rest, "\\\r\n", "|");
    if c == '|' {
      DecodeEscapedBar(rest);
    } else if c == '\n' {
      DecodeLineBreak(rest);
    } else if c != '\r' {
      DecodePlain(c, rest);
    } else {
      assert Replace("", "|", "\r\n") + rest == rest;
    }
  }

  /** An escaped bar, `\|`, is read back as `|`. */
  lemma DecodeEscapedBar(rest: string)
    ensures Replace(Replace(EncodeChar('|'), "|", "\r\n") + rest, "\\\r\n", "|") == "|" + Replace(rest, "\\\r\n", "|")
  {
    ReplaceCons('\\', "|", '|', "\r\n");
    ReplaceCons('|', [], '|', "\r\n");
    assert Replace(EncodeChar('|'), "|", "\r\n") == "\\\r\n";
    ReplacePrefix(rest, "\\\r\n", "|");
  }

  /** A line break, saved as `|`, is read back as CR LF. */
  lemma DecodeLineBreak(rest: string)
    ensures Replace(Replace(EncodeChar('\n'), "|", "\r\n") + rest, "\\\r\n", "|") == "\r\n" + Replace(rest, "\\\r\n", "|")
  {
    ReplaceCons('|', [], '|', "\r\n");
    assert Replace(EncodeChar('\n'), "|", "\r\n") + rest == ['\r'] + (['\n'] + rest);
    ReplaceHead('\r', ['\n'] + rest, "\\\r\n", "|");
    ReplaceHead('\n', rest, "\\\r\n", "|");
  }

  /** Any other character but a backslash is saved and read back as itself. */
  lemma DecodePlain(c: char, rest: string)
    requires c != '\\' && c != '|' && c != '\n' && c != '\r'
    ensures Replace(Replace(EncodeChar(c), "|", "\r\n") + rest, "\\\r\n", "|") == [c] + Replace(rest, "\\\r\n", "|")
  {
    ReplaceCons(c, [], '|', "\r\n");
    assert Replace(EncodeChar(c), "|", "\r\n") == [c];
    ReplaceHead(c, rest, "\\\r\n", "|");
  }

  /**
   * Saving and loading the objects text of a room gives it back with its line
   * breaks as CR LF, provided it holds no backslash (a backslash at the end of
   * a line would be read back as `|`).
   */
  lemma {:induction false} ObjectsRoundTrip(objects: string)
    requires '\\' !in objects
    ensures DecodeObjects(EncodeObjects(objects)) == Replace(Replace(objects, "\r", ""), "\n", "\r\n")
    decreases |objects|
  {
    if objects != [] {
      var c, t := objects[0], objects[1..];
      assert objects == [c] + t;
      ObjectsRoundTrip(t);
      DecodeEncodeCons(c, t);
      ReplaceCons(c, t, '\r', "");
      var h := if c == '\r' then "" else [c];
      ReplaceCharAppend(h, Replace(t, "\r", ""), '\n', "\r\n");
      if c != '\r' {
        ReplaceCons(c, [], '\n', "\r\n");
      }
    }
  }

  /** Splitting after turning one separator into another gives the same pieces. */
  lemma {:induction false} SplitAfterReplace(s: string, a: char, b: char)
    requires b !in s
    ensures Split(Replace(s, [a], [b]), b) == Split(s, a)
    decreases |s|
  {
    if s != [] {
      var t := s[1..];
      assert s == [s[0]] + t;
      ReplaceCons(s[0], t, a, [b]);
      SplitAfterReplace(t, a, b);
      var r := Replace(t, [a], [b]);
      var head := if s[0] == a then b else s[0];
      assert Replace(s, [a], [b]) == [head] + r;
      assert ([head] + r)[1..] == r;
    }
  }

  /**
   * Objects text without `|` lists its non-empty lines, the same pieces the
   * exporter turns into things before trimming them.
   */
  lemma ListOfObjectsAreLines(objects: string)
    requires '|' !in objects
    ensures ListOfObjects(objects) == RemoveEmpty(Split(Replace(objects, "\r", ""), '\n'))
  {
    var s1 := Replace(objects, "\r", "");
    ReplaceKeepsOut(objects, "\r", "", '|');
    ReplaceAbsentChar(s1, '|', "\\|");
    SplitAfterReplace(s1, '\n', '|');
  }

  /**
   * The escape does not protect `|`: the split that follows it still breaks
   * an object name at the bar and keeps the backslash.
   */
  lemma BarSplitsObjectNames()
    ensures ListOfObjects("a|b") == ["a\\", "b"]
  {
    EncodedBar();
    SplitEscapedBar();
    assert RemoveEmpty(["a\\", "b"]) == ["a\\", "b"];
  }

  lemma EncodedBar()
    ensures EncodeObjects("a|b") == "a\\|b"
  {
    EncodedBarB();
    EncodeCons('a', "|b");
    assert "a|b" == ['a'] + "|b";
    assert EncodeChar('a') == "a";
  }

  lemma EncodedBarB()
    ensures EncodeObjects("|b") == "\\|b"
  {
    EncodedB();
    EncodeCons('|', "b");
    assert "|b" == ['|'] + "b";
    assert EncodeChar('|') == "\\|";
  }

  lemma EncodedB()
    ensures EncodeObjects("b") == "b"
  {
    EncodeCons('b', "");
    assert "b" == ['b'] + "";
    assert EncodeChar('b') == "b";
  }

  lemma SplitEscapedBar()
    ensures Split("a\\|b", '|') == ["a\\", "b"]
  {
    assert "b"[1..] == "" && "|b"[1..] == "b" && "\\|b"[1..] == "|b" && "a\\|b"[1..] == "\\|b";
    assert Split("", '|') == [""];
    assert ['b'] + "" == "b" && [""][1..] == [];
    assert Split("b", '|') == ["b"];
    assert Split("|b", '|') == ["", "b"];
    assert ['\\'] + "" == "\\" && ["", "b"][1..] == ["b"];
    assert Split("\\|b", '|') == ["\\", "b"];
    assert ['a'] + "\\" == "a\\" && ["\\", "b"][1..] == ["b"];
  }

  // ----- ports and connections -----

  /** The room's compass ports, in the order the constructors add them. */
  function CompassPorts(room: Ref): (ports: seq<Port>)
    ensures |ports| == 16
    ensures forall i :: 0 <= i < 16 ==> ports[i] == CompassPort(room, SixteenPoints[i])
  {
    seq(16, i requires 0 <= i < 16 => CompassPort(room, SixteenPoints[i]))
  }

  /** `PortAt`: the first compass port at the given point (`FirstOrDefault`). */
  function PortAt(ports: seq<Port>, point: CompassPoint): (r: Option<Port>)
    requires forall p :: p in ports ==> p.CompassPort?
    ensures r.Some? ==> r.value in ports && r.value.point == point
    ensures r.None? ==> forall p :: p in ports ==> p.point != point
    decreases |ports|
  {
    if ports == [] then None
    else if ports[0].point == point then Some(ports[0])
    else PortAt(ports[1..], point)
  }

  /** A room's ports hold one port for each of the sixteen points and no other. */
  lemma PortAtEveryPoint(room: Ref, point: CompassPoint)
    ensures point.Undefined? ==> PortAt(CompassPorts(room), point).None?
    ensures !point.Undefined? ==> PortAt(CompassPorts(room), point) == Some(CompassPort(room, point))
    ensures forall i, j :: 0 <= i < j < 16 ==> CompassPorts(room)[i] != CompassPorts(room)[j]
  {
    SixteenPointsAreTheNamedPoints(point);
    var ports := CompassPorts(room);
    if point.Undefined? {
      assert forall p :: p in ports ==> p.point != point;
    }
  }

  /** A vertex's port is one of this room's compass ports, at the given point when there is one. */
  predicate DockedHere(port: Option<Port>, room: Ref, point: Option<CompassPoint>) {
    port.Some? && port.value.CompassPort? && port.value.owner == room && (point.None? || port.value.point == point.value)
  }

  /** How many of a connection's vertices are docked here. */
  function DockedCount(ports: seq<Option<Port>>, room: Ref, point: Option<CompassPoint>): (n: nat)
    ensures n <= |ports|
    ensures n > 0 <==> exists k :: 0 <= k < |ports| && DockedHere(ports[k], room, point)
    decreases |ports|
  {
    if ports == [] then 0
    else
      var init := ports[..|ports| - 1];
      assert forall k :: 0 <= k < |init| ==> init[k] == ports[k];
      DockedCount(init, room, point) + (if DockedHere(ports[|ports| - 1], room, point) then 1 else 0)
  }

  /**
   * What `GetConnections` returns: every connection of the map, in element
   * order, once per vertex docked to this room.
   */
  function ConnectionsAt(elements: seq<Element>, room: Ref, point: Option<CompassPoint>): (r: seq<Element>)
    decreases |elements|
  {
    if elements == [] then []
    else
      var last := elements[|elements| - 1];
      ConnectionsAt(elements[..|elements| - 1], room, point)
      + (if last.ConnectionElement? then Repeat(last, DockedCount(last.vertexPorts, room, point)) else [])
  }

  /** The connections found are exactly the map's connections with a vertex docked here. */
  lemma {:induction false} ConnectionsAtMembers(elements: seq<Element>, room: Ref, point: Option<CompassPoint>)
    ensures forall c :: c in ConnectionsAt(elements, room, point) <==>
      c in elements && c.ConnectionElement? && DockedCount(c.vertexPorts, room, point) > 0
    decreases |elements|
  {
    if elements != [] {
      var init := elements[..|elements| - 1];
      ConnectionsAtMembers(init, room, point);
      assert elements == init + [elements[|elements| - 1]];
    }
  }

  /**
   * A connection occurs in the result once per vertex docked here, so one with
   * both ends on the room is listed twice.
   */
  lemma {:induction false} ConnectionsAtCount(elements: seq<Element>, room: Ref, point: Option<CompassPoint>, c: Element)
    requires UniqueHandles(elements) && c in elements && c.ConnectionElement?
    ensures multiset(ConnectionsAt(elements, room, point))[c] == DockedCount(c.vertexPorts, room, point)
    decreases |elements|
  {
    var init := elements[..|elements| - 1];
    var last := elements[|elements| - 1];
    assert elements == init + [last];
    var tail := if last.ConnectionElement? then Repeat(last, DockedCount(last.vertexPorts, room, point)) else [];
    var prior := ConnectionsAt(init, room, point);
    assert ConnectionsAt(elements, room, point) == prior + tail;
    assert multiset(prior + tail)[c] == multiset(prior)[c] + multiset(tail)[c];
    UniqueHandlesInit(elements);
    if last == c {
      ConnectionsAtMembers(init, room, point);
      assert c !in prior;
      RepeatCount(c, DockedCount(c.vertexPorts, room, point), c);
    } else {
      assert c in init;
      ConnectionsAtCount(init, room, point, c);
      assert multiset(tail)[c] == 0 by {
        if last.ConnectionElement? {
          RepeatCount(last, |tail|, c);
        }
      }
    }
  }

  /** Without the last element the handles stay distinct, and the last element occurs nowhere before. */
  lemma UniqueHandlesInit(elements: seq<Element>)
    requires UniqueHandles(elements) && elements != []
    ensures UniqueHandles(elements[..|elements| - 1])
    ensures elements[|elements| - 1] !in elements[..|elements| - 1]
  {
    var init := elements[..|elements| - 1];
    forall i, j | 0 <= i < j < |init| ensures init[i].handle != init[j].handle {
      assert init[i] == elements[i] && init[j] == elements[j];
    }
    forall i | 0 <= i < |init| ensures init[i] != elements[|elements| - 1] {
      assert init[i].handle == elements[i].handle != elements[|elements| - 1].handle;
    }
  }

  /** One more connection adds a copy of it for each of its vertices docked here. */
  lemma ConnectionsAtSnoc(elements: seq<Element>, i: nat, room: Ref, point: Option<CompassPoint>)
    requires i < |elements|
    ensures ConnectionsAt(elements[..i + 1], room, point)
         == ConnectionsAt(elements[..i], room, point)
            + (if elements[i].ConnectionElement? then Repeat(elements[i], DockedCount(elements[i].vertexPorts, room, point)) else [])
  {
    assert elements[..i + 1][..i] == elements[..i];
  }

  lemma DockedCountSnoc(ports: seq<Option<Port>>, j: nat, room: Ref, point: Option<CompassPoint>)
    requires j < |ports|
    ensures DockedCount(ports[..j + 1], room, point)
         == DockedCount(ports[..j], room, point) + (if DockedHere(ports[j], room, point) then 1 else 0)
  {
    assert ports[..j + 1][..j] == ports[..j];
  }

  /** Filtering by a point only drops entries: the filtered list is a sub-multiset of the unfiltered one. */
  lemma {:induction false} ConnectionsAtFiltered(elements: seq<Element>, room: Ref, point: CompassPoint)
    ensures multiset(ConnectionsAt(elements, room, Some(point))) <= multiset(ConnectionsAt(elements, room, None))
    decreases |elements|
  {
    if elements != [] {
      var last := elements[|elements| - 1];
      ConnectionsAtFiltered(elements[..|elements| - 1], room, point);
      if last.ConnectionElement? {
        DockedCountFiltered(last.vertexPorts, room, point);
        RepeatPrefix(last, DockedCount(last.vertexPorts, room, Some(point)), DockedCount(last.vertexPorts, room, None));
      }
    }
  }

  lemma {:induction false} DockedCountFiltered(ports: seq<Option<Port>>, room: Ref, point: CompassPoint)
    ensures DockedCount(ports, room, Some(point)) <= DockedCount(ports, room, None)
    decreases |ports|
  {
    if ports != [] {
      DockedCountFiltered(ports[..|ports| - 1], room, point);
    }
  }

  // ----- the room -----

  /** A room whose description list, name, objects text and region change in place. */
  class Room {
    const handle: Ref
    const id: int
    const ports: seq<Port>           // `PortList`
    var name: string
    var objects: string
    var region: string
    var descriptions: seq<string>    // `mDescriptions`
    var changes: nat                 // how many `Changed` events were raised

    /** A new room: "Cave" in the default region, with its sixteen compass ports. */
    constructor(handle: Ref, id: int, defaultRegion: string)
      ensures this.handle == handle && this.id == id
      ensures ports == CompassPorts(handle)
      ensures name == "Cave" && objects == "" && region == defaultRegion && descriptions == [] && changes == 0
    {
      this.handle := handle;
      this.id := id;
      ports := CompassPorts(handle);
      name := "Cave";
      objects := "";
      region := defaultRegion;
      descriptions := [];
      changes := 0;
    }

    /** The room as the map's element list shows it to the exporter and the statistics. */
    function Snapshot(): (e: Element)
      reads this
      ensures e.RoomElement? && e.handle == handle && e.objects == objects && e.region == region
    {
      RoomElement(handle, id, name, objects, region)
    }

    /** `AddDescription`. */
    method AddDescription(d: Option<string>)
      modifies this`descriptions, this`changes
      ensures descriptions == AddedDescription(old(descriptions), d)
      ensures changes == old(changes) + (if descriptions == old(descriptions) then 0 else 1)
    {
      if IsNullOrEmpty(d) {
        return;
      }
      if d.value in descriptions {
        return;
      }
      descriptions := descriptions + [d.value];
      changes := changes + 1;
    }

    /** `ClearDescriptions`: raises `Changed` only when there was something to clear. */
    method ClearDescriptions()
      modifies this`descriptions, this`changes
      ensures descriptions == []
      ensures changes == old(changes) + (if old(descriptions) == [] then 0 else 1)
    {
      if |descriptions| > 0 {
        descriptions := [];
        changes := changes + 1;
      }
    }

    /** The `Name` setter: null becomes empty; only a different name is stored and announced. */
    method SetName(value: Option<string>)
      modifies this`name, this`changes
      ensures name == (if value.None? then "" else value.value)
      ensures changes == old(changes) + (if name == old(name) then 0 else 1)
    {
      var v := if value.None? then "" else value.value;
      if name != v {
        name := v;
        changes := changes + 1;
      }
    }

    /** The `Objects` setter: null becomes empty; only different text is stored and announced. */
    method SetObjects(value: Option<string>)
      modifies this`objects, this`changes
      ensures objects == (if value.None? then "" else value.value)
      ensures changes == old(changes) + (if objects == old(objects) then 0 else 1)
    {
      var v := if value.None? then "" else value.value;
      if objects != v {
        objects := v;
        changes := changes + 1;
      }
    }

    /** The `Region` setter: only a different region is stored and announced. */
    method SetRegion(value: string)
      modifies this`region, this`changes
      ensures region == value
      ensures changes == old(changes) + (if region == old(region) then 0 else 1)
    {
      if region != value {
        region := value;
        changes := changes + 1;
      }
    }

    /**
     * `GetConnections`: scans the map's connections and, for each vertex docked
     * to one of this room's compass ports (at `point`, when one is given), adds
     * the connection.
     */
    method GetConnections(elements: seq<Element>, point: Option<CompassPoint>) returns (connections: seq<Element>)
      ensures connections == ConnectionsAt(elements, handle, point)
    {
      connections := [];
      for i := 0 to |elements|
        invariant connections == ConnectionsAt(elements[..i], handle, point)
      {
        ConnectionsAtSnoc(elements, i, handle, point);
        var element := elements[i];
        if !element.ConnectionElement? {
          continue;
        }
        connections := AddDocked(connections, element, point);
      }
      assert elements[..|elements|] == elements;
    }

    /** The inner loop of `GetConnections`: the connection is added once per vertex docked here. */
    method AddDocked(connections: seq<Element>, element: Element, point: Option<CompassPoint>)
      returns (connections': seq<Element>)
      requires element.ConnectionElement?
      ensures connections' == connections + Repeat(element, DockedCount(element.vertexPorts, handle, point))
    {
      connections' := connections;
      var vertexPorts := element.vertexPorts;
      for j := 0 to |vertexPorts|
        invariant connections' == connections + Repeat(element, DockedCount(vertexPorts[..j], handle, point))
      {
        DockedCountSnoc(vertexPorts, j, handle, point);
        var port := vertexPorts[j];
        if !DockedHere(port, handle, point) {
          continue;
        }
        RepeatSnoc(element, DockedCount(vertexPorts[..j], handle, point));
        AppendAssoc(connections, Repeat(element, DockedCount(vertexPorts[..j], handle, point)), [element]);
        connections' := connections' + [element];
      }
      assert vertexPorts[..|vertexPorts|] == vertexPorts;
    }
  }
}
