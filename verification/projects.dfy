/**
 * A project: its maps, its file name, the element search by identifier, and
 * the static state shared by all projects (the current project and the file
 * format version).
 */
module Projects {
  import opened Wrappers
  import opened Text
  import opened Elements

  /** The first element with the given identifier, in map order and then in element order. */
  function FindInMap(elements: seq<Element>, id: int): (r: Option<Element>)
    ensures r.Some? ==> r.value in elements && r.value.id == id
    ensures r.None? <==> forall e :: e in elements ==> e.id != id
    ensures r.Some? ==> exists k :: 0 <= k < |elements| && elements[k] == r.value &&
                                    (forall j :: 0 <= j < k ==> elements[j].id != id)
    decreases |elements|
  {
    if elements == [] then None
    else if elements[0].id == id then Some(elements[0])
    else
      var r := FindInMap(elements[1..], id);
      assert forall e :: e in elements[1..] ==> e in elements;
      if r.Some? then
        var k :| 0 <= k < |elements[1..]| && elements[1..][k] == r.value &&
                 (forall j :: 0 <= j < k ==> elements[1..][j].id != id);
        assert elements[k + 1] == r.value;
        r
      else r
  }

  /** `FindElement`: the first element with the identifier across the maps, or null. */
  function FindElement(maps: seq<seq<Element>>, id: int): (r: Option<Element>)
    ensures r.Some? <==> exists m, e :: m in maps && e in m && e.id == id
    ensures r.Some? ==> r.value.id == id
    decreases |maps|
  {
    if maps == [] then None
    else
      match FindInMap(maps[0], id)
      case Some(e) => Some(e)
      case None =>
        var r := FindElement(maps[1..], id);
        assert forall m :: m in maps[1..] ==> m in maps;
        r
  }

  /** `IsElementIDInUse`: whether `FindElement` succeeds. */
  function IsElementIDInUse(maps: seq<seq<Element>>, id: int): (inUse: bool)
    ensures inUse <==> exists m, e :: m in maps && e in m && e.id == id
  {
    FindElement(maps, id).Some?
  }

  /**
   * A match in an earlier map wins: what `FindElement` returns comes from the
   * first map that holds the identifier, and is the first match in that map.
   */
  lemma {:induction false} FindElementFirstMap(maps: seq<seq<Element>>, id: int)
    requires FindElement(maps, id).Some?
    ensures exists i :: 0 <= i < |maps| && FindInMap(maps[i], id) == FindElement(maps, id) &&
                        (forall j :: 0 <= j < i ==> FindInMap(maps[j], id).None?)
    decreases |maps|
  {
    if FindInMap(maps[0], id).None? {
      var rest := maps[1..];
      assert FindElement(maps, id) == FindElement(rest, id);
      FindElementFirstMap(rest, id);
      var i :| 0 <= i < |rest| && FindInMap(rest[i], id) == FindElement(rest, id) &&
               (forall j :: 0 <= j < i ==> FindInMap(rest[j], id).None?);
      assert maps[i + 1] == rest[i];
      forall j | 0 <= j < i + 1 ensures FindInMap(maps[j], id).None? {
        if j > 0 {
          assert maps[j] == rest[j - 1];
        }
      }
    } else {
      assert FindInMap(maps[0], id) == FindElement(maps, id);
    }
  }

  /** The version a project file declares (`System.Version`). */
  datatype Version = Version(major: nat, minor: nat, build: nat, revision: nat)

  /** A project. */
  class Project {
    var fileName: Option<string>   // `mFileName`, starting out empty
    var maps: seq<seq<Element>>    // the element lists of `Maps`

    constructor()
      ensures fileName == Some("") && maps == []
    {
      fileName := Some("");
      maps := [];
    }

    /** The `FileName` setter: ignored once the file name is null, and for the current value. */
    method SetFileName(value: Option<string>)
      modifies this`fileName
      ensures old(fileName).None? || old(fileName) == value ==> fileName == old(fileName)
      ensures old(fileName).Some? ==> fileName == value
    {
      if fileName.None? || fileName == value {
        return;
      }
      fileName := value;
    }

    /** `HasFileName`. */
    predicate HasFileName()
      reads this
    {
      !IsNullOrEmpty(fileName)
    }

    /**
     * `Name`: "Untitled" without a file name, otherwise the file name without
     * its extension (`stem` is `Path.GetFileNameWithoutExtension`).
     */
    function Name(stem: string -> string): (name: string)
      reads this
      ensures !HasFileName() ==> name == "Untitled"
      ensures HasFileName() ==> name == stem(fileName.value)
    {
      if !HasFileName() then "Untitled" else stem(fileName.value)
    }
  }

  /** The static members of `Project`: the current project, the file format version and the change events. */
  class ProjectState {
    var current: Project
    var version: Option<Version>   // null until a project file is loaded
    var changes: seq<(Project, Project)>   // (old, new) of each `ProjectChanged` event raised

    constructor(initial: Project)
      ensures current == initial && version.None? && changes == []
    {
      current := initial;
      version := None;
      changes := [];
    }

    /** The `Current` setter: only a different project is stored and announced. */
    method SetCurrent(value: Project)
      modifies this`current, this`changes
      ensures current == value
      ensures changes == old(changes) + (if old(current) == value then [] else [(old(current), value)])
    {
      if current != value {
        var oldProject := current;
        current := value;
        changes := changes + [(oldProject, current)];
      }
    }

    /** `setVersion`: `parse` is `Version.Parse`, which fails on a malformed number; a failure gives 0.0.0.0. */
    method SetVersion(versionNumber: string, parse: string -> Option<Version>)
      modifies this`version
      ensures parse(versionNumber).Some? ==> version == parse(versionNumber)
      ensures parse(versionNumber).None? ==> version == Some(Version(0, 0, 0, 0))
    {
      match parse(versionNumber)
      case Some(v) => version := Some(v);
      case None => version := Some(Version(0, 0, 0, 0));
    }
  }
}
