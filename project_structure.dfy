/**
  The project structure section: a constant file tree rendered as nested
  `FileTreeNode` components. Each mounted node keeps its own `isOpen` flag,
  initialised from its depth and flipped by clicking a folder; the children of
  a node are mounted only while it is an open folder with children.
*/
module ProjectStructure {
  import opened Wrappers
  import opened Seqs

  datatype NodeType = File | Folder

  datatype FileNode = FileNode(
    name: string,
    nodeType: NodeType,
    children: Children,
    description: Option<string>)

  /** The optional `children` array of a node. */
  datatype Children = Absent | Present(nodes: seq<FileNode>)

  function Described(name: string, description: string): FileNode {
    FileNode(name, File, Absent, Some(description))
  }

  function Undescribed(name: string): FileNode {
    FileNode(name, File, Absent, None)
  }

  function Dir(name: string, children: seq<FileNode>): FileNode {
    FileNode(name, Folder, Present(children), None)
  }

  const AiAgent: FileNode := Dir("ai_agent", [
    Undescribed("__init__.py"),
    Described("voice_agent.py", "Voice AI logic")
  ])

  const Apps: FileNode := Dir("apps", [
    Undescribed("__init__.py"),
    Described("calculator_app.py", "Calculator module"),
    Described("drag_app.py", "Drag demo"),
    Described("face_tracker_app.py", "Face tracking"),
    Described("flappy_hand.py", "Flappy game"),
    Described("fruit_slicer_app.py", "Fruit Slicer game"),
    Described("game_menu.py", "Game selection menu"),
    Described("graph_app.py", "Graphing calculator"),
    Described("matrix_calculator.py", "Matrix operations"),
    Described("object_detection_app.py", "YOLO detection"),
    Described("quiz_app.py", "Quiz Master"),
    Described("space_defender.py", "Space Defender game"),
    Described("table_app.py", "Data tables"),
    Described("virtual_paint.py", "Paint application"),
    AiAgent,
    Described("ai_assistant_app.py", "AI Assistant UI")
  ])

  /** `projectStructure`. */
  const ProjectTree: FileNode := Dir("PythonProject", [
    Described(".env", "Environment variables"),
    Described("arduino_sketch.ino", "Arduino firmware"),
    Described("main.py", "Entry point"),
    Described("Project_Report.md", "Documentation"),
    Described("requirements.txt", "Python dependencies"),
    Described("utils.py", "Shared utilities & GestureManager"),
    Described("yolov8l.pt", "YOLO model weights"),
    Apps
  ])

  // ---------------------------------------------------------------------------
  // One node's rules
  // ---------------------------------------------------------------------------

  /** `useState(depth < 2)`. */
  predicate InitiallyOpen(depth: nat) {
    depth < 2
  }

  /** The click handler `isFolder && setIsOpen(!isOpen)`. */
  function AfterClick(node: FileNode, isOpen: bool): (r: bool)
    ensures r != isOpen <==> node.nodeType == Folder
  {
    if node.nodeType == Folder then !isOpen else isOpen
  }

  /** `isFolder && isOpen && node.children`: whether the children are mounted. */
  predicate ShowsChildren(node: FileNode, isOpen: bool) {
    node.nodeType == Folder && isOpen && node.children.Present?
  }

  /** The label after the name, present when `node.description` is a non-empty string. */
  function DescriptionLabel(node: FileNode): (r: Option<string>)
    ensures r.Some? <==> node.description.Some? && node.description.value != ""
    ensures r.Some? ==> r == node.description
  {
    if node.description.Some? && node.description.value != "" then node.description else None
  }

  /** What one node renders on its own line. */
  datatype Row = Row(
    name: string,
    depth: nat,
    paddingLeft: nat,
    isFolder: bool,
    isOpen: bool,
    note: Option<string>)

  function RowFor(node: FileNode, depth: nat, isOpen: bool): (r: Row)
    ensures r.paddingLeft == depth * 16 + 8
    ensures r.note.Some? <==> node.description.Some? && node.description.value != ""
    ensures r.note.Some? ==> r.note == node.description
  {
    Row(node.name, depth, depth * 16 + 8, node.nodeType == Folder, isOpen, DescriptionLabel(node))
  }

  /** One mounted `FileTreeNode` component and its `isOpen` state. */
  class FileTreeNode {
    const node: FileNode
    const depth: nat
    var isOpen: bool

    constructor (node: FileNode, depth: nat)
      ensures this.node == node && this.depth == depth
      ensures isOpen == InitiallyOpen(depth)
    {
      this.node, this.depth := node, depth;
      isOpen := depth < 2;
    }

    /** A click on the node's line: a folder flips, a file stays as it is. */
    method Click()
      modifies this
      ensures node.nodeType == Folder ==> isOpen == !old(isOpen)
      ensures node.nodeType == File ==> isOpen == old(isOpen)
    {
      isOpen := AfterClick(node, isOpen);
    }

    /** The node's own line, as it renders now. */
    function Line(): (r: Row)
      reads this
      ensures r.name == node.name && r.depth == depth && r.isOpen == isOpen
      ensures r.paddingLeft == depth * 16 + 8
      ensures r.isFolder <==> node.nodeType == Folder
    {
      RowFor(node, depth, isOpen)
    }

    /** The children to mount, each one level deeper; none unless this is an open folder. */
    function ChildMounts(): (r: seq<(FileNode, nat)>)
      reads this
      ensures |r| > 0 ==> ShowsChildren(node, isOpen)
      ensures ShowsChildren(node, isOpen) ==> |r| == |node.children.nodes|
      ensures forall k | 0 <= k < |r| :: r[k] == (node.children.nodes[k], depth + 1)
    {
      if ShowsChildren(node, isOpen) then
        var cs := node.children.nodes;
        seq(|cs|, k requires 0 <= k < |cs| => (cs[k], depth + 1))
      else []
    }
  }

  // ---------------------------------------------------------------------------
  // The tree of mounted components
  // ---------------------------------------------------------------------------

  /**
    A mounted `FileTreeNode` with the components mounted under it. React
    unmounts the children of a node that closes, so their flags are lost.
  */
  datatype Mounted = Mounted(node: FileNode, depth: nat, isOpen: bool, kids: seq<Mounted>)

  /** Mounting a node: the flag from the depth, and its children mounted if it starts open. */
  function Mount(node: FileNode, depth: nat): Mounted
    decreases node, 0
  {
    var open := InitiallyOpen(depth);
    Mounted(node, depth, open, if ShowsChildren(node, open) then MountFrom(node.children.nodes, 0, depth + 1) else [])
  }

  /** The components for `nodes[k..]`, one each, at the same depth. */
  function MountFrom(nodes: seq<FileNode>, k: nat, depth: nat): (r: seq<Mounted>)
    ensures |r| == if k <= |nodes| then |nodes| - k else 0
    ensures forall i | 0 <= i < |r| :: r[i].node == nodes[k + i] && r[i].depth == depth
    decreases nodes, |nodes| - k
  {
    if k >= |nodes| then [] else [Mount(nodes[k], depth)] + MountFrom(nodes, k + 1, depth)
  }

  /** The section mounts the whole tree at depth 0. */
  function Section(): (r: Mounted)
    ensures r.node == ProjectTree && r.depth == 0 && r.isOpen
  {
    Mount(ProjectTree, 0)
  }

  /** The mounted components follow the file tree and the rendering condition. */
  predicate WellMounted(m: Mounted)
    decreases m
  {
    if ShowsChildren(m.node, m.isOpen) then
      && |m.kids| == |m.node.children.nodes|
      && forall k | 0 <= k < |m.kids| ::
           && m.kids[k].node == m.node.children.nodes[k]
           && m.kids[k].depth == m.depth + 1
           && WellMounted(m.kids[k])
    else m.kids == []
  }

  /** Clicking the line of a mounted node: closing drops the children, opening mounts them afresh. */
  function ClickRoot(m: Mounted): (r: Mounted)
    ensures r.node == m.node && r.depth == m.depth
    ensures r.isOpen == AfterClick(m.node, m.isOpen)
    ensures m.isOpen && !r.isOpen ==> r.kids == []
  {
    var open := AfterClick(m.node, m.isOpen);
    if open == m.isOpen then m
    else Mounted(m.node, m.depth, open, if ShowsChildren(m.node, open) then MountFrom(m.node.children.nodes, 0, m.depth + 1) else [])
  }

  /** The mounted node reached by following `path` (child positions) from `m`. */
  function At(m: Mounted, path: seq<nat>): Option<Mounted>
    decreases |path|
  {
    if path == [] then Some(m)
    else if path[0] < |m.kids| then At(m.kids[path[0]], path[1..])
    else None
  }

  /** Clicking the line of the node reached by `path`; a path that leads nowhere clicks nothing. */
  function ClickAt(m: Mounted, path: seq<nat>): (r: Mounted)
    ensures r.node == m.node && r.depth == m.depth
    decreases |path|
  {
    if path == [] then ClickRoot(m)
    else if path[0] < |m.kids| then
      m.(kids := m.kids[path[0] := ClickAt(m.kids[path[0]], path[1..])])
    else m
  }

  /** The lines rendered, top to bottom. */
  function Rows(m: Mounted): (r: seq<Row>)
    ensures |r| >= 1 && r[0] == RowFor(m.node, m.depth, m.isOpen)
    // a file, or a folder that is closed or has no children, renders its own line only
    ensures !ShowsChildren(m.node, m.isOpen) ==> |r| == 1
    decreases m, 0
  {
    [RowFor(m.node, m.depth, m.isOpen)] + (if ShowsChildren(m.node, m.isOpen) then RowsFrom(m.kids, 0) else [])
  }

  function RowsFrom(ms: seq<Mounted>, k: nat): seq<Row>
    decreases ms, |ms| - k
  {
    if k >= |ms| then [] else Rows(ms[k]) + RowsFrom(ms, k + 1)
  }

  // ---------------------------------------------------------------------------
  // Reference: the tree in display order
  // ---------------------------------------------------------------------------

  /** Every node under `node` that an all-open tree would show, in display order, with its depth. */
  function Entries(node: FileNode, depth: nat): seq<(FileNode, nat)>
    decreases node, 0
  {
    [(node, depth)] + (if ShowsChildren(node, true) then EntriesFrom(node.children.nodes, 0, depth + 1) else [])
  }

  function EntriesFrom(nodes: seq<FileNode>, k: nat, depth: nat): seq<(FileNode, nat)>
    decreases nodes, |nodes| - k
  {
    if k >= |nodes| then [] else Entries(nodes[k], depth) + EntriesFrom(nodes, k + 1, depth)
  }

  /**
    The lines of the first render, read off the entries: a node is shown when
    every folder above it starts open, that is when its depth is at most 2.
  */
  function InitialRows(es: seq<(FileNode, nat)>): seq<Row>
    decreases |es|
  {
    if es == [] then []
    else
      var d := es[0].1;
      (if d <= 2 then [RowFor(es[0].0, d, InitiallyOpen(d))] else []) + InitialRows(es[1..])
  }

  // ---------------------------------------------------------------------------
  // Lemmas
  // ---------------------------------------------------------------------------

  lemma {:induction false} MountFromIndex(nodes: seq<FileNode>, k: nat, depth: nat)
    requires k <= |nodes|
    ensures |MountFrom(nodes, k, depth)| == |nodes| - k
    ensures forall i | 0 <= i < |nodes| - k :: MountFrom(nodes, k, depth)[i] == Mount(nodes[k + i], depth)
    decreases |nodes| - k
  {
    if k < |nodes| {
      MountFromIndex(nodes, k + 1, depth);
      var rest := MountFrom(nodes, k + 1, depth);
      assert MountFrom(nodes, k, depth) == [Mount(nodes[k], depth)] + rest;
    }
  }

  /** A freshly mounted node has the node's depth and initial flag, and its subtree is well mounted. */
  lemma {:induction false} MountWellMounted(node: FileNode, depth: nat)
    ensures Mount(node, depth).node == node && Mount(node, depth).depth == depth
    ensures Mount(node, depth).isOpen == InitiallyOpen(depth)
    ensures WellMounted(Mount(node, depth))
    decreases node
  {
    var m := Mount(node, depth);
    if ShowsChildren(node, m.isOpen) {
      var cs := node.children.nodes;
      MountFromIndex(cs, 0, depth + 1);
      forall k | 0 <= k < |cs|
        ensures m.kids[k].node == cs[k] && m.kids[k].depth == depth + 1 && WellMounted(m.kids[k])
      {
        MountWellMounted(cs[k], depth + 1);
      }
    }
  }

  /** Clicking a node flips a folder's flag and keeps its subtree well mounted. */
  lemma ClickRootSpec(m: Mounted)
    requires WellMounted(m)
    ensures ClickRoot(m).node == m.node && ClickRoot(m).depth == m.depth
    ensures ClickRoot(m).isOpen == AfterClick(m.node, m.isOpen)
    ensures WellMounted(ClickRoot(m))
  {
    var open := AfterClick(m.node, m.isOpen);
    if open != m.isOpen && ShowsChildren(m.node, open) {
      var cs := m.node.children.nodes;
      MountFromIndex(cs, 0, m.depth + 1);
      forall k | 0 <= k < |cs|
        ensures ClickRoot(m).kids[k].node == cs[k] && ClickRoot(m).kids[k].depth == m.depth + 1
        ensures WellMounted(ClickRoot(m).kids[k])
      {
        MountWellMounted(cs[k], m.depth + 1);
      }
    }
  }

  /** A click anywhere keeps the whole tree well mounted. */
  lemma {:induction false} ClickAtWellMounted(m: Mounted, path: seq<nat>)
    requires WellMounted(m)
    ensures ClickAt(m, path).node == m.node && ClickAt(m, path).depth == m.depth
    ensures ClickAt(m, path).isOpen == (if path == [] then AfterClick(m.node, m.isOpen) else m.isOpen)
    ensures WellMounted(ClickAt(m, path))
    decreases |path|
  {
    if path == [] {
      ClickRootSpec(m);
    } else if path[0] < |m.kids| {
      var i := path[0];
      ClickAtWellMounted(m.kids[i], path[1..]);
      var r := ClickAt(m, path);
      assert r.kids == m.kids[i := ClickAt(m.kids[i], path[1..])];
      forall k | 0 <= k < |r.kids|
        ensures r.kids[k].node == m.node.children.nodes[k] && r.kids[k].depth == m.depth + 1
        ensures WellMounted(r.kids[k])
      {
      }
    }
  }

  /**
    A click reaches exactly the node on the path: that node is clicked, and a
    path that leads nowhere leaves the tree as it was.
  */
  lemma {:induction false} ClickAtTarget(m: Mounted, path: seq<nat>)
    ensures At(m, path).Some? ==> At(ClickAt(m, path), path) == Some(ClickRoot(At(m, path).value))
    ensures At(m, path).None? ==> ClickAt(m, path) == m
    // off the path nothing changes: the node itself keeps its flag and every other child stays as it was
    ensures path != [] && path[0] < |m.kids| ==>
      && ClickAt(m, path).isOpen == m.isOpen
      && |ClickAt(m, path).kids| == |m.kids|
      && forall j | 0 <= j < |m.kids| && j != path[0] :: ClickAt(m, path).kids[j] == m.kids[j]
    decreases |path|
  {
    if path != [] && path[0] < |m.kids| {
      ClickAtTarget(m.kids[path[0]], path[1..]);
      if At(m, path).None? {
        assert m.kids[path[0] := m.kids[path[0]]] == m.kids;
      }
    }
  }

  /** Clicking a file changes nothing anywhere in the tree. */
  lemma {:induction false} ClickFileChangesNothing(m: Mounted, path: seq<nat>)
    requires At(m, path).Some? && At(m, path).value.node.nodeType == File
    ensures ClickAt(m, path) == m
    decreases |path|
  {
    if path != [] {
      ClickFileChangesNothing(m.kids[path[0]], path[1..]);
      assert m.kids[path[0] := m.kids[path[0]]] == m.kids;
    }
  }

  /**
    Closing and reopening a folder remounts its children: whatever was opened
    or closed below it is back to the initial flags.
  */
  lemma ReopenRemounts(m: Mounted)
    requires m.isOpen && ShowsChildren(m.node, true)
    ensures !ClickRoot(m).isOpen && ClickRoot(m).kids == []
    ensures ClickRoot(ClickRoot(m)) == Mounted(m.node, m.depth, true, MountFrom(m.node.children.nodes, 0, m.depth + 1))
    ensures |ClickRoot(ClickRoot(m)).kids| == |m.node.children.nodes|
    ensures forall k | 0 <= k < |m.node.children.nodes| ::
      ClickRoot(ClickRoot(m)).kids[k] == Mount(m.node.children.nodes[k], m.depth + 1)
  {
    MountFromIndex(m.node.children.nodes, 0, m.depth + 1);
  }

  lemma {:induction false} InitialRowsAppend(a: seq<(FileNode, nat)>, b: seq<(FileNode, nat)>)
    ensures InitialRows(a + b) == InitialRows(a) + InitialRows(b)
    decreases |a|
  {
    if a != [] {
      assert (a + b)[0] == a[0];
      assert (a + b)[1..] == a[1..] + b;
      InitialRowsAppend(a[1..], b);
    } else {
      assert a + b == b;
    }
  }

  lemma {:induction false} InitialRowsDeep(es: seq<(FileNode, nat)>)
    requires forall i | 0 <= i < |es| :: es[i].1 > 2
    ensures InitialRows(es) == []
    decreases |es|
  {
    if es != [] {
      InitialRowsDeep(es[1..]);
    }
  }

  lemma {:induction false} EntriesDepth(node: FileNode, depth: nat)
    ensures forall i | 0 <= i < |Entries(node, depth)| :: Entries(node, depth)[i].1 >= depth
    decreases node, 0
  {
    if ShowsChildren(node, true) {
      EntriesFromDepth(node.children.nodes, 0, depth + 1);
    }
  }

  lemma {:induction false} EntriesFromDepth(nodes: seq<FileNode>, k: nat, depth: nat)
    ensures forall i | 0 <= i < |EntriesFrom(nodes, k, depth)| :: EntriesFrom(nodes, k, depth)[i].1 >= depth
    decreases nodes, |nodes| - k
  {
    if k < |nodes| {
      EntriesDepth(nodes[k], depth);
      EntriesFromDepth(nodes, k + 1, depth);
    }
  }

  /**
    The first render of a node mounted at depth at most 2 shows exactly the
    nodes of depth at most 2 below it, in display order, each with its initial flag.
  */
  lemma {:induction false} InitialRender(node: FileNode, depth: nat)
    requires depth <= 2
    ensures Rows(Mount(node, depth)) == InitialRows(Entries(node, depth))
    decreases node, 0
  {
    var own := [(node, depth)];
    assert InitialRows(own) == [RowFor(node, depth, InitiallyOpen(depth))];
    if ShowsChildren(node, true) {
      var cs := node.children.nodes;
      InitialRowsAppend(own, EntriesFrom(cs, 0, depth + 1));
      if depth < 2 {
        InitialRenderFrom(cs, 0, depth + 1);
      } else {
        EntriesFromDepth(cs, 0, depth + 1);
        InitialRowsDeep(EntriesFrom(cs, 0, depth + 1));
      }
    }
  }

  lemma {:induction false} InitialRenderFrom(nodes: seq<FileNode>, k: nat, depth: nat)
    requires depth <= 2
    ensures RowsFrom(MountFrom(nodes, 0, depth), k) == InitialRows(EntriesFrom(nodes, k, depth))
    decreases nodes, |nodes| - k
  {
    MountFromIndex(nodes, 0, depth);
    if k < |nodes| {
      InitialRender(nodes[k], depth);
      InitialRenderFrom(nodes, k + 1, depth);
      InitialRowsAppend(Entries(nodes[k], depth), EntriesFrom(nodes, k + 1, depth));
    }
  }

  // ---------------------------------------------------------------------------
  // The project tree itself
  // ---------------------------------------------------------------------------

  /** The names under a node, in order. */
  function ChildNames(node: FileNode): seq<string> {
    if node.children.Present? then
      var cs := node.children.nodes;
      seq(|cs|, i requires 0 <= i < |cs| => cs[i].name)
    else []
  }

  lemma AiAgentEntries()
    ensures Entries(AiAgent, 2) == [(AiAgent, 2), (Undescribed("__init__.py"), 3), (Described("voice_agent.py", "Voice AI logic"), 3)]
  {
    var cs := AiAgent.children.nodes;
    assert EntriesFrom(cs, 2, 3) == [];
    assert EntriesFrom(cs, 1, 3) == [(cs[1], 3)];
  }

  /** A run of nodes without shown children contributes one entry each. */
  lemma {:induction false} LeafRun(nodes: seq<FileNode>, k: nat, j: nat, depth: nat)
    requires k <= j <= |nodes|
    requires forall i | k <= i < j :: !ShowsChildren(nodes[i], true)
    ensures |EntriesFrom(nodes, k, depth)| == (j - k) + |EntriesFrom(nodes, j, depth)|
    decreases j - k
  {
    if k < j {
      LeafRun(nodes, k + 1, j, depth);
    }
  }

  /** A run of nodes mounted without children renders one line each. */
  lemma {:induction false} ClosedRun(nodes: seq<FileNode>, k: nat, j: nat, depth: nat)
    requires k <= j <= |nodes|
    requires forall i | k <= i < j :: !ShowsChildren(nodes[i], InitiallyOpen(depth))
    ensures |RowsFrom(MountFrom(nodes, 0, depth), k)| == (j - k) + |RowsFrom(MountFrom(nodes, 0, depth), j)|
    decreases j - k
  {
    MountFromIndex(nodes, 0, depth);
    if k < j {
      ClosedRun(nodes, k + 1, j, depth);
    }
  }

  /** The tree has 27 nodes. */
  lemma ProjectTreeSize()
    ensures |Entries(ProjectTree, 0)| == 27
  {
    AiAgentEntries();
    var top := ProjectTree.children.nodes;
    var apps := Apps.children.nodes;
    assert |EntriesFrom(apps, 15, 2)| == 1;
    assert |EntriesFrom(apps, 14, 2)| == 4;
    LeafRun(apps, 0, 14, 2);
    assert |EntriesFrom(top, 7, 1)| == 19;
    LeafRun(top, 0, 7, 1);
  }

  /** `apps` mounted at depth 1 renders its own line and its sixteen children's, `ai_agent` closed. */
  lemma AppsFirstLines()
    ensures |Rows(Mount(Apps, 1))| == 17
  {
    var apps := Apps.children.nodes;
    MountFromIndex(apps, 0, 2);
    ClosedRun(apps, 0, 16, 2);
  }

  /** The root's children render 24 lines: seven files and the 17 lines of `apps`. */
  lemma RootChildrenFirstLines()
    ensures |RowsFrom(Section().kids, 0)| == 24
  {
    AppsFirstLines();
    var top := ProjectTree.children.nodes;
    MountFromIndex(top, 0, 1);
    assert RowsFrom(MountFrom(top, 0, 1), 8) == [];
    assert |RowsFrom(MountFrom(top, 0, 1), 7)| == 17;
    ClosedRun(top, 0, 7, 1);
  }

  /** The first render shows 25 lines: everything but the two files inside `ai_agent`. */
  lemma FirstRenderLines()
    ensures |Rows(Section())| == 25
    ensures |Rows(Section())| == |Entries(ProjectTree, 0)| - 2
  {
    ProjectTreeSize();
    RootChildrenFirstLines();
  }

  /** Sibling names are distinct at every level, so `key={child.name}` identifies each child. */
  predicate UniqueKeys(node: FileNode)
    decreases node
  {
    && Distinct(ChildNames(node))
    && (node.children.Present? ==>
          forall k | 0 <= k < |node.children.nodes| :: UniqueKeys(node.children.nodes[k]))
  }

  lemma AppsNamesDistinct()
    ensures Distinct(ChildNames(Apps))
  {
    var names := ChildNames(Apps);
    assert names == ["__init__.py", "calculator_app.py", "drag_app.py", "face_tracker_app.py",
      "flappy_hand.py", "fruit_slicer_app.py", "game_menu.py", "graph_app.py",
      "matrix_calculator.py", "object_detection_app.py", "quiz_app.py", "space_defender.py",
      "table_app.py", "virtual_paint.py", "ai_agent", "ai_assistant_app.py"];
    forall i, j | 0 <= i < j < |names| ensures names[i] != names[j] {
    }
  }

  lemma RootNamesDistinct()
    ensures Distinct(ChildNames(ProjectTree))
  {
    var names := ChildNames(ProjectTree);
    assert names == [".env", "arduino_sketch.ino", "main.py", "Project_Report.md",
      "requirements.txt", "utils.py", "yolov8l.pt", "apps"];
    forall i, j | 0 <= i < j < |names| ensures names[i] != names[j] {
    }
  }

  lemma ProjectTreeUniqueKeys()
    ensures UniqueKeys(ProjectTree)
  {
    AppsNamesDistinct();
    RootNamesDistinct();
    var ai := AiAgent.children.nodes;
    assert ChildNames(AiAgent) == ["__init__.py", "voice_agent.py"];
    assert UniqueKeys(ai[0]) && UniqueKeys(ai[1]);
    assert UniqueKeys(AiAgent);
    var apps := Apps.children.nodes;
    forall k | 0 <= k < |apps| ensures UniqueKeys(apps[k]) {
    }
    assert UniqueKeys(Apps);
    var top := ProjectTree.children.nodes;
    forall k | 0 <= k < |top| ensures UniqueKeys(top[k]) {
    }
  }
}
