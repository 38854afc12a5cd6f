/**
 * How a room's objects text becomes things: one thing per non-blank line, its
 * indentation (leading spaces) deciding which earlier thing contains it.
 * Things refer to one another by their index in the room's list of things.
 */
module Containment {
  import opened Wrappers
  import opened Text

  /** A non-blank line of a room's objects text: its trimmed text and its leading spaces. */
  datatype ObjectLine = ObjectLine(displayName: string, indent: nat)

  /**
   * A thing of a room: `container` is the index of the thing that holds it and
   * `contents` the indices of the things it holds, in order.
   */
  datatype Thing = Thing(displayName: string, exportName: string, indent: nat,
                         container: Option<nat>, contents: seq<nat>)

  /** The pieces of an objects text: carriage returns removed, split on line feeds, empty pieces dropped. */
  function Pieces(objects: string): (pieces: seq<string>)
    ensures forall p :: p in pieces ==> p != "" && '\n' !in p && '\r' !in p
  {
    var text := Replace(objects, "\r", "");
    ReplaceRemovesChar(objects, '\r', "");
    SplitPieces(text, '\n');
    RemoveEmpty(Split(text, '\n'))
  }

  /** The object lines of some pieces, in order; a piece that trims to nothing is skipped. */
  function ParsePieces(pieces: seq<string>): (lines: seq<ObjectLine>)
    ensures |lines| <= |pieces|
    ensures forall l :: l in lines ==> l.displayName != ""
    decreases |pieces|
  {
    if pieces == [] then []
    else
      var prior := ParsePieces(pieces[..|pieces| - 1]);
      var piece := pieces[|pieces| - 1];
      var displayName := Trim(piece);
      if displayName == "" then prior
      else prior + [ObjectLine(displayName, LeadingSpaces(piece))]
  }

  /** Parsing one more piece adds its line, unless it trims to nothing. */
  lemma ParsePiecesSnoc(pieces: seq<string>, piece: string)
    ensures ParsePieces(pieces + [piece]) ==
      ParsePieces(pieces) + (if Trim(piece) == "" then [] else [ObjectLine(Trim(piece), LeadingSpaces(piece))])
  {
    assert (pieces + [piece])[..|pieces|] == pieces;
  }

  /** The display names of some object lines, in order. */
  function DisplaysOf(lines: seq<ObjectLine>): (names: seq<string>)
    ensures |names| == |lines|
    ensures forall i :: 0 <= i < |lines| ==> names[i] == lines[i].displayName
    decreases |lines|
  {
    if lines == [] then [] else DisplaysOf(lines[..|lines| - 1]) + [lines[|lines| - 1].displayName]
  }

  /** The object lines of a room's objects text (none for an empty text). */
  function ObjectLines(objects: string): seq<ObjectLine> {
    if objects == "" then [] else ParsePieces(Pieces(objects))
  }

  /**
   * The backwards scan for a container: the last thing whose indent is smaller
   * than `indent`, if any.
   */
  function NearestSmaller(things: seq<Thing>, indent: nat): (c: Option<nat>)
    ensures c.Some? ==> c.value < |things| && things[c.value].indent < indent
    ensures c.Some? ==> forall j :: c.value < j < |things| ==> things[j].indent >= indent
    ensures c.None? ==> forall j :: 0 <= j < |things| ==> things[j].indent >= indent
    decreases |things|
  {
    if things == [] then None
    else if indent > things[|things| - 1].indent then Some(|things| - 1)
    else NearestSmaller(things[..|things| - 1], indent)
  }

  /** Appends a thing and records it in its container's contents. */
  function Attach(things: seq<Thing>, thing: Thing): (r: seq<Thing>)
    requires thing.container.Some? ==> thing.container.value < |things|
    ensures |r| == |things| + 1 && r[|things|] == thing
    ensures forall i :: 0 <= i < |things| ==>
      r[i] == if thing.container == Some(i) then things[i].(contents := things[i].contents + [|things|]) else things[i]
  {
    var recorded :=
      match thing.container
      case None => things
      case Some(c) => things[c := things[c].(contents := things[c].contents + [|things|])];
    recorded + [thing]
  }

  /** The things built from object lines with the given export names, one per line. */
  function Build(lines: seq<ObjectLine>, names: seq<string>): (things: seq<Thing>)
    requires |names| == |lines|
    ensures |things| == |lines|
    decreases |lines|
  {
    if lines == [] then []
    else
      var n := |lines| - 1;
      var prior := Build(lines[..n], names[..n]);
      var line := lines[n];
      Attach(prior, Thing(line.displayName, names[n], line.indent, NearestSmaller(prior, line.indent), []))
  }

  /** Building one more line attaches its thing to what was built before. */
  lemma BuildSnoc(lines: seq<ObjectLine>, names: seq<string>, line: ObjectLine, name: string)
    requires |names| == |lines|
    ensures Build(lines + [line], names + [name]) ==
      Attach(Build(lines, names), Thing(line.displayName, name, line.indent, NearestSmaller(Build(lines, names), line.indent), []))
  {
    assert (lines + [line])[..|lines|] == lines;
    assert (names + [name])[..|names|] == names;
  }

  /**
   * `c` is the container that line `i` is given: the nearest earlier line with
   * a smaller indent, or none when no earlier line has one.
   */
  ghost predicate IsContainerOf(lines: seq<ObjectLine>, i: nat, c: Option<nat>)
    requires i < |lines|
  {
    match c
    case None => forall k :: 0 <= k < i ==> lines[k].indent >= lines[i].indent
    case Some(j) =>
      && j < i && lines[j].indent < lines[i].indent
      && forall k :: j < k < i ==> lines[k].indent >= lines[i].indent
  }

  /** Thing `i` carries line `i`'s name and indent and the `i`-th export name. */
  lemma {:induction false} BuildNameAt(lines: seq<ObjectLine>, names: seq<string>, i: nat)
    requires |names| == |lines| && i < |lines|
    ensures Build(lines, names)[i].displayName == lines[i].displayName
    ensures Build(lines, names)[i].exportName == names[i]
    ensures Build(lines, names)[i].indent == lines[i].indent
    decreases |lines|
  {
    var n := |lines| - 1;
    if i < n {
      BuildNameAt(lines[..n], names[..n], i);
      assert lines[..n][i] == lines[i] && names[..n][i] == names[i];
    }
  }

  /** Each thing carries its line's name and indent and its export name. */
  lemma BuildNames(lines: seq<ObjectLine>, names: seq<string>)
    requires |names| == |lines|
    ensures forall i :: 0 <= i < |lines| ==>
      && Build(lines, names)[i].displayName == lines[i].displayName
      && Build(lines, names)[i].exportName == names[i]
      && Build(lines, names)[i].indent == lines[i].indent
  {
    forall i | 0 <= i < |lines|
      ensures Build(lines, names)[i].displayName == lines[i].displayName
      ensures Build(lines, names)[i].exportName == names[i]
      ensures Build(lines, names)[i].indent == lines[i].indent
    {
      BuildNameAt(lines, names, i);
    }
  }

  /** A container relation between lines of a prefix holds in the whole list. */
  lemma ContainerOfPrefix(lines: seq<ObjectLine>, n: nat, i: nat, c: Option<nat>)
    requires i < n <= |lines| && IsContainerOf(lines[..n], i, c)
    ensures IsContainerOf(lines, i, c)
  {
    assert forall k :: 0 <= k <= i ==> lines[..n][k] == lines[k];
  }

  /** The backwards scan over things with the lines' indents finds the last line's container. */
  lemma NearestSmallerIsContainer(lines: seq<ObjectLine>, things: seq<Thing>)
    requires |lines| == |things| + 1
    requires forall k :: 0 <= k < |things| ==> things[k].indent == lines[k].indent
    ensures IsContainerOf(lines, |things|, NearestSmaller(things, lines[|things|].indent))
  {
  }

  /** Thing `i`'s container is the one line `i`'s indentation gives it. */
  lemma {:induction false} BuildContainerAt(lines: seq<ObjectLine>, names: seq<string>, i: nat)
    requires |names| == |lines| && i < |lines|
    ensures IsContainerOf(lines, i, Build(lines, names)[i].container)
    decreases |lines|
  {
    var n := |lines| - 1;
    var prior := Build(lines[..n], names[..n]);
    var thing := Thing(lines[n].displayName, names[n], lines[n].indent, NearestSmaller(prior, lines[n].indent), []);
    assert Build(lines, names) == Attach(prior, thing);
    if i < n {
      assert Build(lines, names)[i].container == prior[i].container;
      BuildContainerAt(lines[..n], names[..n], i);
      ContainerOfPrefix(lines, n, i, prior[i].container);
    } else {
      assert Build(lines, names)[i] == thing;
      forall k | 0 <= k < n ensures prior[k].indent == lines[k].indent {
        BuildNameAt(lines[..n], names[..n], k);
      }
      NearestSmallerIsContainer(lines, prior);
    }
  }

  /** Each thing's container is the one its indentation gives it. */
  lemma BuildContainers(lines: seq<ObjectLine>, names: seq<string>)
    requires |names| == |lines|
    ensures forall i :: 0 <= i < |lines| ==> IsContainerOf(lines, i, Build(lines, names)[i].container)
  {
    forall i | 0 <= i < |lines| ensures IsContainerOf(lines, i, Build(lines, names)[i].container) {
      BuildContainerAt(lines, names, i);
    }
  }

  /** Every container precedes what it holds. */
  ghost predicate ContainersPrecede(things: seq<Thing>) {
    forall i :: 0 <= i < |things| && things[i].container.Some? ==> things[i].container.value < i
  }

  /** The indices among the first `k` things that name thing `j` as their container, in order. */
  function ChildrenBelow(things: seq<Thing>, j: nat, k: nat): (children: seq<nat>)
    requires k <= |things|
    ensures forall x :: x in children <==> 0 <= x < k && things[x].container == Some(j)
  {
    if k == 0 then []
    else ChildrenBelow(things, j, k - 1) + (if things[k - 1].container == Some(j) then [k - 1] else [])
  }

  /** Children are listed in increasing index order. */
  lemma {:induction false} ChildrenBelowInOrder(things: seq<Thing>, j: nat, k: nat)
    requires k <= |things|
    ensures forall a, b :: 0 <= a < b < |ChildrenBelow(things, j, k)| ==>
      ChildrenBelow(things, j, k)[a] < ChildrenBelow(things, j, k)[b]
  {
    if k > 0 {
      ChildrenBelowInOrder(things, j, k - 1);
      var prior := ChildrenBelow(things, j, k - 1);
      forall a | 0 <= a < |prior| ensures prior[a] < k - 1 {
        assert prior[a] in prior;
      }
    }
  }

  /** The indices of the things that name thing `j` as their container, in order. */
  function Children(things: seq<Thing>, j: nat): seq<nat> {
    ChildrenBelow(things, j, |things|)
  }

  /** Each thing's contents are its children. */
  ghost predicate ContentsAreChildren(things: seq<Thing>) {
    forall j :: 0 <= j < |things| ==> things[j].contents == Children(things, j)
  }

  /** Children among a prefix depend only on the containers in that prefix. */
  lemma {:induction false} ChildrenBelowSameContainers(a: seq<Thing>, b: seq<Thing>, j: nat, k: nat)
    requires k <= |a| && k <= |b|
    requires forall i :: 0 <= i < k ==> a[i].container == b[i].container
    ensures ChildrenBelow(a, j, k) == ChildrenBelow(b, j, k)
  {
    if k > 0 {
      ChildrenBelowSameContainers(a, b, j, k - 1);
    }
  }

  /** A thing none of the first `k` things names as container has no children among them. */
  lemma {:induction false} NoChildrenBelow(things: seq<Thing>, j: nat, k: nat)
    requires k <= |things|
    requires forall i :: 0 <= i < k ==> things[i].container != Some(j)
    ensures ChildrenBelow(things, j, k) == []
  {
    if k > 0 {
      NoChildrenBelow(things, j, k - 1);
    }
  }

  lemma AttachKeepsPrecedence(things: seq<Thing>, thing: Thing)
    requires thing.container.Some? ==> thing.container.value < |things|
    requires ContainersPrecede(things)
    ensures ContainersPrecede(Attach(things, thing))
  {
  }

  /** After attaching, thing `j`'s contents are still its children. */
  lemma AttachChildrenAt(things: seq<Thing>, thing: Thing, j: nat)
    requires thing.container.Some? ==> thing.container.value < |things|
    requires thing.contents == []
    requires ContainersPrecede(things) && ContentsAreChildren(things)
    requires j <= |things|
    ensures Attach(things, thing)[j].contents == Children(Attach(things, thing), j)
  {
    var n := |things|;
    var r := Attach(things, thing);
    var tail := if thing.container == Some(j) then [n] else [];
    assert r[n] == thing;
    assert Children(r, j) == ChildrenBelow(r, j, n) + tail;
    ChildrenBelowSameContainers(r, things, j, n);
    if j == n {
      forall i | 0 <= i < n ensures things[i].container != Some(j) {
      }
      NoChildrenBelow(things, j, n);
    } else {
      assert r[j].contents == things[j].contents + tail;
    }
  }

  lemma AttachKeepsChildren(things: seq<Thing>, thing: Thing)
    requires thing.container.Some? ==> thing.container.value < |things|
    requires thing.contents == []
    requires ContainersPrecede(things) && ContentsAreChildren(things)
    ensures ContentsAreChildren(Attach(things, thing))
  {
    forall j | 0 <= j < |Attach(things, thing)|
      ensures Attach(things, thing)[j].contents == Children(Attach(things, thing), j)
    {
      AttachChildrenAt(things, thing, j);
    }
  }

  /** In built things every container precedes what it holds, and each thing's contents are its children, in line order. */
  lemma {:induction false} BuildContents(lines: seq<ObjectLine>, names: seq<string>)
    requires |names| == |lines|
    ensures ContainersPrecede(Build(lines, names))
    ensures ContentsAreChildren(Build(lines, names))
    decreases |lines|
  {
    if lines != [] {
      var n := |lines| - 1;
      var prior := Build(lines[..n], names[..n]);
      BuildContents(lines[..n], names[..n]);
      var line := lines[n];
      var thing := Thing(line.displayName, names[n], line.indent, NearestSmaller(prior, line.indent), []);
      AttachKeepsPrecedence(prior, thing);
      AttachKeepsChildren(prior, thing);
    }
  }

  /** The first line's thing is never contained. */
  lemma FirstThingIsTopLevel(lines: seq<ObjectLine>, names: seq<string>)
    requires |names| == |lines| && lines != []
    ensures Build(lines, names)[0].container.None?
  {
    BuildContainerAt(lines, names, 0);
  }

  /**
   * "lamp", " oil", "  wick", "box", " key": the oil is in the lamp, the wick in
   * the oil, the key in the box; the lamp and the box are top-level.
   */
  lemma LampExample(lines: seq<ObjectLine>, names: seq<string>)
    requires lines == [ObjectLine("lamp", 0), ObjectLine("oil", 1), ObjectLine("wick", 2),
                       ObjectLine("box", 0), ObjectLine("key", 1)]
    requires names == ["lamp", "oil", "wick", "box", "key"]
    ensures var things := Build(lines, names);
      && things[0].container == None && things[1].container == Some(0) && things[2].container == Some(1)
      && things[3].container == None && things[4].container == Some(3)
      && (forall x :: x in things[0].contents <==> x == 1)
      && (forall x :: x in things[1].contents <==> x == 2)
      && (forall x :: x in things[3].contents <==> x == 4)
      && things[2].contents == [] && things[4].contents == []
  {
    var things := Build(lines, names);
    LampContainers(lines, names);
    BuildContents(lines, names);
    NoChildrenBelow(things, 2, 5);
    NoChildrenBelow(things, 4, 5);
  }

  lemma LampContainers(lines: seq<ObjectLine>, names: seq<string>)
    requires lines == [ObjectLine("lamp", 0), ObjectLine("oil", 1), ObjectLine("wick", 2),
                       ObjectLine("box", 0), ObjectLine("key", 1)]
    requires |names| == |lines|
    ensures var things := Build(lines, names);
      && |things| == 5
      && things[0].container == None && things[1].container == Some(0) && things[2].container == Some(1)
      && things[3].container == None && things[4].container == Some(3)
  {
    var things := Build(lines, names);
    BuildContainerAt(lines, names, 0);
    BuildContainerAt(lines, names, 1);
    BuildContainerAt(lines, names, 2);
    BuildContainerAt(lines, names, 3);
    BuildContainerAt(lines, names, 4);
  }
}
