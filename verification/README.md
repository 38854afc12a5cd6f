# Trizbort map core, in Dafny

Trizbort is a map editor for interactive fiction. A map is a list of
elements: rooms and connections. Each connection is a chain of vertices, and a
vertex is either pinned to a point on the canvas or attached to a room's
compass port. The code exporter turns such a map into source code for an
interactive-fiction language. That language-independent preparation step is
the main subject of this model. It:

- gives every room and every object a unique, case-insensitive export name,
  avoiding the language's reserved words and retrying with suffixes 2, 3, …;
- files each connection's exits under the room they lead from;
- picks the best exit from each room in every direction;
- parses each room's objects text into a containment hierarchy.

Around it, the model covers these smaller stateful parts:

- a room's description list, compass ports, connections and objects text;
- a vertex's point-or-port attachment;
- the map's cascade that removes connections attached to a removed element;
- the project's element lookup, file name, current project and version;
- the map statistics.

Modules:

- `Wrappers`: `Option` stands for a C# null reference. `Outcome` and `Result`
  stand for an exception that aborts an operation.
- `Compass`: the sixteen docking points plus `Undefined`, an out-of-range enum
  value. `Automap`: the twelve export directions.
- `Text`: the .NET string operations the code relies on (`Replace`, `Split`,
  `Trim`, counting leading spaces).
- `Elements`: a value snapshot of a map's elements. Object identity is the
  abstract type `Ref`.
- `NameAllocator`: the name table and the retry loop.
- `Exits`: the `Exit` constructor, priorities and the best-exit choice.
- `Containment`: objects text to things with containers.
- `CodeExporter`: the `Location` and exporter classes, and `prepareContent`
  with its four passes.
- `ExportHeader`: the title and author fallback.
- `Rooms`, `Vertices`, `Maps`, `Projects`, `MapStatistics`: one module per
  remaining source file.
- `Seqs`: sequence helpers shared by several modules: the `Repeat` function, and
  lemmas on prefixes, associativity, shared members and repeated counts.

Conventions:

- An exporter backend is the `Backend` datatype: its reserved words and its two
  naming functions.
- Case-insensitive comparison is an abstract `fold` function.
- `GetOpposite`, `Port.Position`, `Path.GetFileNameWithoutExtension` and
  `Version.Parse` are function parameters.

## Model

| member | source | states |
|---|---|---|
| `Compass.SixteenPointsAreTheNamedPoints` | Room.cs:70-85 | The sixteen points a room creates ports for are exactly the named compass points, each once. |
| `Automap.AllDirectionsListsEachDirectionOnce` | Export/CodeExporter.cs:53 | The direction list visits every automap direction, each exactly once. |
| `Elements.Rooms` | Export/CodeExporter.cs:153-157 | An element is among the rooms iff it is a room element of the list, and there are no more rooms than elements. |
| `Elements.RoomsConcat` | Export/CodeExporter.cs:153-157 | The rooms keep element order: the rooms of two joined lists are the rooms of the first followed by those of the second. |
| `Elements.RoomsCount` | Export/CodeExporter.cs:153-157 | Each room element occurs among the rooms exactly as often as in the element list, and nothing else occurs there. |
| `NameAllocator.Seed` | Export/CodeExporter.cs:147-151 | Adding reserved words to the name table succeeds iff no two clash and none is already taken; otherwise it fails on the first word that clashes with a name already taken or with an earlier word, as `Dictionary.Add` throws. On success the table gains exactly their folded forms. |
| `NameAllocator.Allocate` | Export/CodeExporter.cs:160-167 | The retry loop ends with a free name. It keeps the unsuffixed candidate iff that one is free. Otherwise it uses a suffix of at least 2, and every smaller suffix is taken, so the name is the first free candidate in the order unsuffixed, 2, 3, …. It terminates because distinct suffixes give distinct names, so at most one more candidate is tried than there are taken names. |
| `NameAllocator.AllocatedInOrderAppend` | Export/CodeExporter.cs:169 | Registering each newly allocated name keeps the whole sequence allocated in order. |
| `NameAllocator.AllocatedInOrderDistinct` | Export/CodeExporter.cs:145-172 | Names handed out one by one after pairwise distinct reserved words are pairwise distinct (case-insensitively) from each other and from every reserved word. |
| `NameAllocator.PairwiseDistinctAppend` | Export/CodeExporter.cs:215-223 | Reserved words followed by room names are clash-free iff each list is clash-free and they share no folded name. |
| `Exits.AssignSecondaryDirection` | Export/CodeExporter.cs:486-506 | A label gives up, down, in or out exactly when it equals that connection label and none checked before it, in the order up, down, in, out. Any other text gives no direction. |
| `Exits.AssignPrimaryDirection` | Export/CodeExporter.cs:445-484 | A point has a primary direction iff it is one of the sixteen, and that direction is one of the eight canonical ones. |
| `Exits.AssignPrimaryPriority` | Export/CodeExporter.cs:508-541 | The priority is positive iff the exit is unlabelled, and 4 iff it is unlabelled and docked at a canonical point. |
| `Exits.GetPriority` | Export/CodeExporter.cs:432-443 | For a constructed exit, the priority exceeds 1 exactly in its primary direction. A direction that is neither primary nor secondary has priority -1. |
| `Exits.PrimaryDirectionIsNearest` | Export/CodeExporter.cs:445-484 | A docking point has a primary direction iff it is one of the sixteen. That direction is the canonical direction nearest to the point around the compass; half-winds go to the cardinal. |
| `Exits.NewExit` | Export/CodeExporter.cs:373-386 | The constructor fails exactly for an unlabelled exit at an unnamed point (the thrown exception). Otherwise it keeps source, target and point, sets conditional iff dashed, and takes a labelled exit's primary direction from its label. Its priority is always 4 or 3, because it is computed before the label is read. |
| `Exits.WellFormedPriority` | Export/CodeExporter.cs:432-443 | For a constructed exit, a direction matches iff it is the primary one. The priority there is 3 or more, and -1 in every other direction. |
| `Exits.InsertByPriorityCorrect` | Export/CodeExporter.cs:327-332 | Inserting into a list sorted by descending priority keeps it sorted and adds exactly that exit. |
| `Exits.SortByPriorityCorrect` | Export/CodeExporter.cs:327-332 | A sort by descending priority exists for every exit list: it is sorted and a permutation of the input. |
| `Exits.SortedPickIsBest` | Export/CodeExporter.cs:334-344 | Taking the head of the sorted list finds an exit iff some exit's primary direction is d. What it finds has the highest priority for d. |
| `Exits.ExactDockingWins` | Export/CodeExporter.cs:508-541 | An unlabelled exit docked exactly at a canonical point cannot be beaten in its direction. The best exit is unlabelled and docked at that same point. |
| `Containment.Pieces` | Export/CodeExporter.cs:233 | Splitting the objects text gives non-empty lines without line breaks. |
| `Containment.ParsePiecesSnoc` | Export/CodeExporter.cs:234-257 | A blank line adds no object. Any other line adds one, named by its trimmed text, with its count of leading spaces as indent. |
| `Containment.NearestSmaller` | Export/CodeExporter.cs:260-270 | The container is the last earlier thing with a smaller indent. Every later thing has an indent at least as large. None means no earlier thing has a smaller indent. |
| `Containment.Attach` | Export/CodeExporter.cs:565-575 | Creating a thing appends it, and appends its index to its container's contents. No other thing changes. |
| `Containment.BuildSnoc` | Export/CodeExporter.cs:260-274 | Building one more line attaches a thing whose container is found by the backward scan over the things built so far. |
| `Containment.BuildNames` | Export/CodeExporter.cs:237-257 | Each built thing carries its line's display name, its allocated export name and its line's indent. |
| `Containment.BuildContainers` | Export/CodeExporter.cs:260-270 | Each built thing's container is the nearest earlier line with a smaller indent, or none. |
| `Containment.ChildrenBelowInOrder` | Export/CodeExporter.cs:572 | A thing's children are listed in line order. |
| `Containment.AttachKeepsChildren` | Export/CodeExporter.cs:572 | Attaching a new thing keeps every thing's contents equal to the list of things naming it as container. |
| `Containment.BuildContents` | Export/CodeExporter.cs:260-274 | In the built things every container comes before its contents, and each thing's contents are exactly its children, in order. |
| `Containment.FirstThingIsTopLevel` | Export/CodeExporter.cs:261-270 | The first thing of a room has no container. |
| `Containment.LampExample` | Export/CodeExporter.cs:252-274 | A worked five-line example: a lamp holding oil, which holds a wick, followed by a box holding a key. |
| `Text.JoinSplit` | Room.cs:924 | Splitting at a separator and joining back gives the original text. |
| `Text.TrimEmptyIffWhiteSpace` | Export/CodeExporter.cs:237-242 | A line is skipped as blank exactly when it is white space only. |
| `Text.LeadingSpaces` | Export/CodeExporter.cs:254-258 | The indent counts exactly the spaces at the start of the line. |
| `CodeExporter.FirstRoomName` | Export/CodeExporter.cs:160-162 | A room's unsuffixed candidate is never empty: the empty name becomes "object". |
| `CodeExporter.Location.constructor` | Export/CodeExporter.cs:294-304 | A new location has its room and export name, and no exits, best exits or things. |
| `CodeExporter.Location.AddExit` | Export/CodeExporter.cs:306-309 | The exit list gains the exit at its end. |
| `CodeExporter.Location.PickBestExit` | Export/CodeExporter.cs:324-345 | The in-place sort leaves a permutation of the exits sorted by descending priority for d. The result is the head when it leads in d, otherwise none. |
| `CodeExporter.Location.PickBestExits` | Export/CodeExporter.cs:311-322 | Afterwards the exits are a permutation of before. A best exit is stored for a direction iff some exit's primary direction is that direction, and each stored exit has the highest priority there. |
| `CodeExporter.Location.PickDirection` | Export/CodeExporter.cs:315-320 | One direction's turn keeps the exits a permutation of before. It records the best exit for that direction exactly when some exit leads that way, and leaves the other directions as they were. |
| `CodeExporter.Location.GetBestExit` | Export/CodeExporter.cs:347-355 | An exit is returned iff one is stored for the direction; otherwise null. |
| `CodeExporter.BestExitFound` | Export/CodeExporter.cs:347-355 | After the pick, the lookup finds an exit in d iff some exit leads primarily in d, and the found one is a best exit. |
| `CodeExporter.Location.FindContainer` | Export/CodeExporter.cs:260-270 | The backward loop finds the nearest earlier thing with a smaller indent. |
| `CodeExporter.Location.AddThing` | Export/CodeExporter.cs:272-274 | The thing is recorded in its container's contents and appended to the location's things. |
| `CodeExporter.IsReciprocated` | Export/CodeExporter.cs:547-560 | A null target is never reciprocated. A reciprocated exit needs a best exit from the target in the opposite direction. |
| `CodeExporter.ReciprocatedExitBack` | Export/CodeExporter.cs:549-557 | Reciprocated iff the target's best exit in the opposite direction leads back to the source. Then the target has an exit back in that direction; without one it is never reciprocated. |
| `CodeExporter.CountIndent` | Export/CodeExporter.cs:254-258 | The loop counts the leading spaces of the line. |
| `CodeExporter.Skipped` | Export/CodeExporter.cs:187-200 | A connection is skipped when an end is undocked, both ends are the same point of the same room, or an end's room has no location. |
| `CodeExporter.ConnectionExits` | Export/CodeExporter.cs:184-206 | A connection with an undocked end, a stub at one point of one room, or an unlocated room yields no exit. Otherwise it yields the exit from source to target, built from the source point and the start text, plus, iff it is two-way, the reverse exit built from the target point and the end text. Both are conditional iff the style is dashed. It fails exactly when one of those exits cannot be built. |
| `CodeExporter.AllExits` | Export/CodeExporter.cs:182-207 | Every exit from the connections is well formed and runs between located rooms. |
| `CodeExporter.AllExitsFailure` | Export/CodeExporter.cs:182-207 | The pass fails iff some connection's exits cannot be built, and then with the error of the first such connection in element order. |
| `CodeExporter.AllExitsMembers` | Export/CodeExporter.cs:182-207 | On success the pass holds exactly the exits built for the connections. |
| `CodeExporter.ExitsFromAppend` | Export/CodeExporter.cs:201-205 | Filing exits by origin distributes over appending more exits. |
| `CodeExporter.LocateStep` | Export/CodeExporter.cs:160-172 | Locating a room under its first free name keeps one location per room, in order, with its name allocated in order and the room map pointing at it. |
| `CodeExporter.CodeExporter.constructor` | Export/CodeExporter.cs:41-44 | A new exporter has no locations and an empty room map. |
| `CodeExporter.CodeExporter.AddLocation` | Export/CodeExporter.cs:170-172 | A fresh, empty location is appended to the export order and registered for its room. |
| `CodeExporter.CodeExporter.RoomExportName` | Export/CodeExporter.cs:160-167 | A room's export name is the first free candidate after the empty-name fallback. |
| `CodeExporter.CodeExporter.LocateRoom` | Export/CodeExporter.cs:157-172 | One room's loop body appends exactly one fresh location. Rooms stay located in order, and the table is the reserved words plus every room name. |
| `CodeExporter.CodeExporter.VisitElement` | Export/CodeExporter.cs:153-173 | One element's turn locates it when it is a room and passes over anything else. Rooms stay located in element order, and the name table stays the reserved words plus every room name. Earlier locations are kept and any new one is freshly made. |
| `CodeExporter.CodeExporter.FindRooms` | Export/CodeExporter.cs:143-174 | The pass fails iff two reserved words clash, naming the first word that clashes with an earlier one. Otherwise there is exactly one location per room element, in element order, named in order by the retry loop, with the room map sound. |
| `CodeExporter.CodeExporter.LocateRooms` | Export/CodeExporter.cs:153-173 | Starting from the reserved words, the loop leaves exactly one freshly made, blank location per room element, in element order. Each is named by the retry loop and recorded in the room map. |
| `CodeExporter.CodeExporter.FileExit` | Export/CodeExporter.cs:201 | Filing an exit under its origin keeps each location holding exactly the exits filed from it, in order. |
| `CodeExporter.CodeExporter.FileConnection` | Export/CodeExporter.cs:182-206 | One connection's exits are filed under their origins. Its failure is the constructor's exception. |
| `CodeExporter.CodeExporter.FileDocked` | Export/CodeExporter.cs:198-204 | A connection docked at both ends to located rooms files its forward exit and, when two-way, the exit back. The pass fails exactly when building one of those exits fails. |
| `CodeExporter.CodeExporter.FileBack` | Export/CodeExporter.cs:203-206 | The exit back from the target, built from the end text, is filed after the forward one. The step fails exactly when that exit cannot be built. |
| `CodeExporter.CodeExporter.FindExits` | Export/CodeExporter.cs:176-208 | The pass succeeds iff every exit can be constructed, and fails with the first exit's exception. On success each location holds, in element order, exactly the exits leading from it. |
| `CodeExporter.CodeExporter.PickBestExits` | Export/CodeExporter.cs:279-287 | Every location keeps a permutation of its filed exits and has chosen its best exit in every direction. |
| `CodeExporter.CodeExporter.ObjectExportName` | Export/CodeExporter.cs:245-250 | An object's export name is the first free candidate for its display name. |
| `CodeExporter.CodeExporter.PlaceObject` | Export/CodeExporter.cs:237-274 | A blank line adds nothing. Any other line attaches a thing with the trimmed name, the first free export name, its indent and the nearest container. |
| `CodeExporter.CodeExporter.PlacePieces` | Export/CodeExporter.cs:234-275 | The loop over a room's lines keeps its things built from the lines seen, with names allocated in order. |
| `CodeExporter.CodeExporter.PlaceObjects` | Export/CodeExporter.cs:227-275 | A room's things are built from its object lines, one per non-blank line. Their names are allocated in order after all names handed out before, and the table gains exactly those names. |
| `CodeExporter.CodeExporter.SeedThingNames` | Export/CodeExporter.cs:212-223 | Seeding the thing table with the reserved words and the room names succeeds iff none of them clash. Otherwise it fails on the first name that clashes with an earlier one. |
| `CodeExporter.CodeExporter.FindThingsAt` | Export/CodeExporter.cs:225-276 | One outer iteration places the next location's things and keeps the earlier ones. |
| `CodeExporter.CodeExporter.PlaceAllObjects` | Export/CodeExporter.cs:225-276 | Every location's things are built from its objects text, and the thing names of all rooms are allocated in order. |
| `CodeExporter.CodeExporter.FindThings` | Export/CodeExporter.cs:210-277 | The pass fails iff the reserved words and room names clash, and then no location has things. Otherwise every location's things are built and named in order. |
| `CodeExporter.CodeExporter.RoomsFoundFacts` | Export/CodeExporter.cs:153-172 | After the room pass the locations are distinct rooms. The reserved words and room names together are clash-free. |
| `CodeExporter.CodeExporter.ExportNamesUnique` | Export/CodeExporter.cs:212-250 | After both naming passes no two export names clash: reserved words, room names and thing names together. |
| `CodeExporter.CodeExporter.PrepareContent` | Export/CodeExporter.cs:135-141 | Preparation fails iff two reserved words clash, naming one, or some exit cannot be constructed. On success the rooms are located, exits filed and picked, and things built. |
| `CodeExporter.CodeExporter.PrepareLocated` | Export/CodeExporter.cs:137-140 | After the room pass, the exit pass decides success. The best-exit and thing passes then hold. |
| `CodeExporter.CodeExporter.PickAndPlace` | Export/CodeExporter.cs:139-140 | The thing pass leaves the chosen best exits in place and never fails once rooms are named. |
| `ExportHeader.HeaderOf` | Export/CodeExporter.cs:74-89 | The title is the project title, else the file name's stem, else "A Trizbort Map". The author is the project author, else "A Trizbort User". A null description is empty, and title and author are never empty. |
| `ExportHeader.HeaderIsFixedPoint` | Export/CodeExporter.cs:104-119 | Feeding a computed header back in changes nothing. |
| `ExportHeader.DefaultTitleOnlyWhenNothingElse` | Export/CodeExporter.cs:74-82 | The default title appears iff both title and file name are null or empty. |
| `Rooms.AddedDescription` | Room.cs:937-952 | Adding a description only appends: it adds the text iff it is non-empty and new. It keeps the list free of empty entries and duplicates. |
| `Rooms.HasDescription` | Room.cs:270 | A room has a description iff its list is not empty. |
| `Rooms.MatchDescription` | Room.cs:955-966 | A null or empty text matches iff the room has no description; any other matches iff it is stored. |
| `Rooms.PrimaryDescription` | Room.cs:258-268 | The primary description exists iff the room has one, and it is a stored description. |
| `Rooms.PrimaryDescriptionStays` | Room.cs:258-270 | Adding a description never changes an existing primary. The first one added becomes primary. |
| `Rooms.AddedDescriptionMatches` | Room.cs:955-966 | After adding a non-empty description it matches. An empty one matches iff the room has no description. |
| `Rooms.Room.AddDescription` | Room.cs:937-952 | The list becomes the added list, and a change is raised iff it grew. |
| `Rooms.Room.ClearDescriptions` | Room.cs:928-935 | The list becomes empty, and a change is raised iff it was not empty before. |
| `Rooms.ListOfObjects` | Room.cs:921-926 | No listed object is empty or contains a bar, a carriage return or a line feed. |
| `Rooms.EncodeObjects` | Room.cs:844 | Saving drops carriage returns, escapes each bar as a backslash and a bar, and writes each line feed as a bar. |
| `Rooms.DecodeObjects` | Room.cs:883 | Loading turns each bar into CR LF, then each backslash before CR LF back into a bar. |
| `Rooms.EncodedIsClean` | Room.cs:844 | The saved objects text has no line breaks. |
| `Rooms.ObjectsRoundTrip` | Room.cs:883 | Loading the text saved at Room.cs:844 gives back the original without carriage returns and with every line feed as CR LF, provided it has no backslash. |
| `Rooms.ListOfObjectsAreLines` | Room.cs:921-926 | Without a bar in the text, the listed objects are its non-empty lines. |
| `Rooms.BarSplitsObjectNames` | Room.cs:923-924 | The bar escape is not undone before splitting, so the text `a`, a bar, `b` lists the two names `a\` and `b`. |
| `Rooms.CompassPorts` | Room.cs:70-85 | A room has sixteen compass ports, one for each named point, in clockwise order from north. |
| `Rooms.PortAt` | Room.cs:475-478 | The lookup returns one of the ports at the given point, or null when none is there. |
| `Rooms.PortAtEveryPoint` | Room.cs:475-478 | Every named point has the room's port and the sixteen ports are distinct. An undefined point has none. |
| `Rooms.ConnectionsAt` | Room.cs:892-918 | The connections docked at a room (at the point, when one is given), in element order and once per docked vertex. |
| `Rooms.DockedCount` | Room.cs:899-915 | A connection's vertices docked at this room (at the point, when given) are counted, and the count is positive iff one exists. |
| `Rooms.ConnectionsAtMembers` | Room.cs:892-918 | A connection is listed iff some vertex of it is docked at this room (at that point). |
| `Rooms.ConnectionsAtCount` | Room.cs:899-915 | A connection is listed once per docked vertex. |
| `Rooms.ConnectionsAtFiltered` | Room.cs:908-914 | Filtering by a point lists a sub-multiset of the unfiltered list. |
| `Rooms.Room.constructor` | Room.cs:62-86 | A new room is named "Cave", is in the default region, has no objects or descriptions, and has its sixteen ports. |
| `Rooms.Room.SetName` | Room.cs:119-131 | Null is stored as empty, and a change is raised iff the name differs. |
| `Rooms.Room.SetObjects` | Room.cs:169-181 | Null is stored as empty, and a change is raised iff the text differs. |
| `Rooms.Room.SetRegion` | Room.cs:213-224 | The region is stored, and a change is raised iff it differs. |
| `Rooms.Room.GetConnections` | Room.cs:892-918 | The nested loops list the connections docked at this room, once per docked vertex, in element order. |
| `Rooms.Room.AddDocked` | Room.cs:901-914 | One connection's vertices add it once per vertex docked at this room (at the given compass point, if any), appended after what was already listed. |
| `Vertices.Vertex.Position` | Vertex.cs:58-63 | The reported position is the attached port's position, else the stored one. |
| `Vertices.Vertex.constructor` | Vertex.cs:42-44 | A new vertex has no port, the zero position and raised no change. |
| `Vertices.Vertex.AtPort` | Vertex.cs:46-49 | Constructing at a port attaches it with a zero stored position. The setter's event reaches no handler, so no change is counted. |
| `Vertices.Vertex.AtPosition` | Vertex.cs:51-54 | Constructing at a position stores it. The setter's event reaches no handler, so no change is counted. |
| `Vertices.Vertex.SetPosition` | Vertex.cs:64-70 | Assigning the stored position is a no-op. Any other position is stored, detaches the port and raises one change. Assigning zero keeps an attached port. |
| `Vertices.Vertex.SetPort` | Vertex.cs:76-82 | Assigning the current port is a no-op. Any other is attached, resets the stored position to zero and raises one change. |
| `Maps.VerticesOn` | Map.cs:30-36 | A connection's vertices whose port belongs to the item are counted, and the count is positive iff one exists. |
| `Maps.Doomed` | Map.cs:23-38 | The collected list: each connection, in element order, once per vertex attached to the item. |
| `Maps.RemoveFirst` | Map.cs:42 | Removing drops one occurrence, if any. |
| `Maps.RemoveAll` | Map.cs:40-43 | Removing each doomed element in turn takes exactly the doomed multiset away. |
| `Maps.DoomedCount` | Map.cs:23-38 | Only connections attached to the item are collected. Such a connection is collected at least as often as it occurs, once per vertex on the item. |
| `Maps.RemovalCascade` | Map.cs:21-44 | After the handler, no connection with a vertex on the item remains. Every other element keeps its count, and only connections are removed. |
| `Maps.Map.constructor` | Map.cs:7-14 | A new map has no elements. |
| `Maps.Map.OnElementRemoved` | Map.cs:21-44 | The elements become the old ones minus everything collected from the old list. |
| `Maps.Map.CollectDoomed` | Map.cs:23-38 | The scan collects each connection once per vertex on the item, in element order, and removes nothing. |
| `Projects.FindInMap` | Project.cs:112-119 | The search returns the first element with the id, or null iff none has it. |
| `Projects.FindElement` | Project.cs:108-123 | The search succeeds iff some map holds an element with the id, and the element found has that id. |
| `Projects.IsElementIDInUse` | Project.cs:96-100 | An id is in use iff some map holds an element with it. |
| `Projects.FindElementFirstMap` | Project.cs:110-119 | The element found is the first match of the first map that has one. |
| `Projects.Project.constructor` | Project.cs:37-43 | A new project has an empty file name and no maps. |
| `Projects.Project.SetFileName` | Project.cs:68-76 | Once the file name is null it never changes. Otherwise the new value is stored. |
| `Projects.Project.Name` | Project.cs:78-80 | The name is "Untitled" without a non-empty file name, else the file name's stem. |
| `Projects.Project.HasFileName` | Project.cs:78 | A project has a file name iff it is neither null nor empty. |
| `Projects.ProjectState.SetCurrent` | Project.cs:45-57 | The current project becomes the value. A change event with the old and new project is raised iff they differ. |
| `Projects.ProjectState.constructor` | Project.cs:65 | The version starts out null, with no change events raised. |
| `Projects.ProjectState.SetVersion` | Project.cs:210-217 | The parsed version is stored, or 0.0.0.0 when parsing fails; either way it is no longer null. |
| `MapStatistics.NumberOfFloatingRooms` | MapStatistics.cs:8 | There are at most as many floating rooms as rooms. |
| `MapStatistics.NumberOfRoomsWithObjects` | MapStatistics.cs:9 | There are at most as many rooms with objects as rooms. |
| `MapStatistics.RoomsWithObjectsAtMostObjects` | MapStatistics.cs:9-10 | There are at most as many rooms with objects as objects in rooms. |
| `MapStatistics.DanglingAndLoopingApart` | MapStatistics.cs:11-19 | No connection both dangles and loops, so together they number at most the connections. |
| `MapStatistics.NumberOfRegions` | MapStatistics.cs:21 | Only non-default regions are counted: at most all of them, and fewer when the default is listed. |
| `MapStatistics.NumberOfRoomsInRegion` | MapStatistics.cs:23 | A region holds at most all the rooms. |
| `MapStatistics.RegionsCountedApart` | MapStatistics.cs:23 | Two different regions together hold at most all the rooms. |
| `MapStatistics.NumberOfRooms` | MapStatistics.cs:7 | The room elements among the map's elements. |
| `MapStatistics.NumberOfRoomsIsRoomList` | MapStatistics.cs:7 | The number of rooms equals the length of the room list taken from the elements. |
| `MapStatistics.NumberOfTotalObjectsInRooms` | MapStatistics.cs:10 | The objects listed by all rooms together. |
| `MapStatistics.NumberOfConnections` | MapStatistics.cs:11 | The connections among the elements. |
| `MapStatistics.NumberOfDanglingConnections` | MapStatistics.cs:12 | The connections with an undocked end. |
| `MapStatistics.NumberOfLoopingConnections` | MapStatistics.cs:14-19 | The connections whose two ends are docked to the same room. |

## Left out

- Writing the export is left out: the stream and file I/O, the per-language
  `ExportHeader`/`ExportContent` templates, and `Dispose`. The header values
  are modelled by `ExportHeader.HeaderOf`. `ReservedWords`,
  `GetExportName` and `GetExportNameForObject` are the `Backend`'s fields.
- The current project is not a global. The exporter takes the map's element
  list as a parameter, and `Project.Maps` is a field of the project.
- Each map is a value snapshot of its elements. `Connection`,
  `GetSourceRoom`/`GetTargetRoom`, `Port` and `TextBlock` are
  not part of this model; only what the code reads from them is kept.
- Case-insensitive comparison is left abstract as `fold`.
- The suffix retry loop assumes the backend gives distinct suffixed names for
  distinct suffixes. This is what makes the loop terminate; the source gives no
  such guarantee.
- `List.Sort` is not stable. `PickBestExit` promises only some permutation
  sorted by priority, not a particular order among exits of equal priority.
- The -2 and -1 priorities for labelled exits are never used.
  `AssignPrimaryPriority` models them, but the priority is computed before the
  label is read (Export/CodeExporter.cs:380-381), so `NewExit` always passes no
  label, as the code does.
- Things are records inside their location's `things` list, and containers and
  contents are indices in it. Object identity of `Thing` is not modelled.
- An `Exit` is a value, not an object. Two parallel, identical connections give
  equal exits, so the model cannot tell them apart where the source could.
- `Exported` flags, `Debug.Assert` calls and `Location.Room` beyond the room
  snapshot are not modelled.
- `CodeExporter.CodeExporter.PrepareContent`: requires a freshly constructed
  exporter. The source does not clear its lists, so a second run would append
  to the first.
- `CodeExporter.IsReciprocated`: `CompassPointHelper.GetOpposite` is a
  parameter, and nothing is assumed about it.
- Events are counters or logs. A room's and a vertex's `Changed` events count
  in `changes`. Events raised while an object is being constructed (the
  `Name`, `Region`, `Port` and `Position` setters called by the room and vertex
  constructors) reach no handler yet, so every constructor starts with no
  change counted. `ProjectChanged` is a log of (old, new) pairs. Event handlers
  are not modelled.
- `BoundList.Remove` is modelled as removing the first occurrence. Its
  `Removed` event does not fire again here, so the recursive cascade through
  further removals is not modelled.
- `Rooms.Room.SetRegion`: the region is a non-null string.
- Room drawing, geometry, sizes, dialogs, XML reading and writing beyond the
  two object-text transforms, and clipboard text are left out. So are room
  properties other than name, objects, region and descriptions, and the
  `IsConnected` query.
- Positions are pairs of reals. No floating-point rounding is modelled.
- `Rooms.ObjectsRoundTrip`: covers only text without a backslash. A
  backslash before a line break does not survive the save and load.
- `Projects.Project.Name`: `Path.GetFileNameWithoutExtension` is a parameter.
- `Projects.ProjectState.SetVersion`: `Version.Parse` is a parameter that may
  fail.
- `Project` loading and saving (XML, files, message boxes) are left out.
- `MapStatistics.NumberOfRegions`: `Settings.Regions` is the list of region
  names passed in.
- The user-interface files are left out: the main form, the minimap, the
  canvas, program start-up and options.
