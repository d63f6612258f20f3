/**
 * The logic of the locations panel: the check that refuses a new location
 * nested in (or containing) an existing one, the enable rules of the tree's
 * context menu, the mapping of a scanned directory tree to tree nodes, the
 * expand/collapse handlers, and the dialog state of the panel.
 */
module LocationsForm {
  import opened Collections
  import opened Strings
  import opened Catalog

  // ---------------------------------------------------------------------
  // Adding a location

  /** What choosing a directory to watch leads to. */
  datatype AddLocationOutcome =
    | NoSelection
    | RejectedSubFolder
    | RejectedParentFolder
    | AddDirectory(path: string)

  /**
   * `handleChooseWatchedDir` after the open-dialog returned `dirs` (empty
   * when the dialog was dismissed): containment is plain substring
   * containment of the path strings, checked first one way, then the other.
   */
  function ChooseWatchedDir(locations: seq<Location>, dirs: seq<string>): (r: AddLocationOutcome)
    ensures r.NoSelection? <==> |dirs| == 0
    ensures r.RejectedSubFolder? <==>
      |dirs| > 0 && exists l :: l in locations && Includes(dirs[0], l.path)
    ensures r.RejectedParentFolder? <==>
      && |dirs| > 0
      && (forall l :: l in locations ==> !Includes(dirs[0], l.path))
      && (exists l :: l in locations && Includes(l.path, dirs[0]))
    ensures r.AddDirectory? <==>
      |dirs| > 0 && forall l :: l in locations ==> !Includes(dirs[0], l.path) && !Includes(l.path, dirs[0])
    ensures r.AddDirectory? ==> r.path == dirs[0]
  {
    if |dirs| == 0 then NoSelection
    else
      var newLocPath := dirs[0];
      if Find(locations, (l: Location) => Includes(newLocPath, l.path)).Some? then RejectedSubFolder
      else if Find(locations, (l: Location) => Includes(l.path, newLocPath)).Some? then RejectedParentFolder
      else AddDirectory(newLocPath)
  }

  /**
   * Any existing location whose path is a string prefix of the chosen one
   * makes it a "sub-folder": a directory already watched, a real
   * sub-directory, and also a sibling such as "/photos2" next to "/photos".
   */
  lemma PrefixOfExistingRejected(locations: seq<Location>, dirs: seq<string>, l: Location)
    requires |dirs| > 0 && l in locations
    requires |l.path| <= |dirs[0]| && dirs[0][..|l.path|] == l.path
    ensures ChooseWatchedDir(locations, dirs) == RejectedSubFolder
  {
    IncludesPrefix(dirs[0], l.path);
  }

  /** A location whose path is a string prefix of an existing one is a "parent-folder". */
  lemma PrefixOfNewRejected(locations: seq<Location>, dirs: seq<string>, l: Location)
    requires |dirs| > 0 && l in locations
    requires |dirs[0]| <= |l.path| && l.path[..|dirs[0]|] == dirs[0]
    ensures ChooseWatchedDir(locations, dirs) != AddDirectory(dirs[0])
  {
    IncludesPrefix(l.path, dirs[0]);
  }

  // ---------------------------------------------------------------------
  // Context menu of the locations tree

  datatype MenuState = MenuState(configureDisabled: bool, deleteDisabled: bool)

  /**
   * `LocationTreeContextMenu` for the node with `path`: the location is the
   * first whose path equals it; "Configure" needs a location and "Delete" a
   * location that is not the import location.
   */
  function ContextMenuState(locations: seq<Location>, path: string): (r: MenuState)
    ensures r.configureDisabled <==> forall l :: l in locations ==> l.path != path
    ensures r.deleteDisabled <==>
      || (forall l :: l in locations ==> l.path != path)
      || (exists i :: 0 <= i < |locations| && locations[i].path == path &&
                      (forall j :: 0 <= j < i ==> locations[j].path != path) &&
                      locations[i].id == DefaultLocationId)
  {
    var found := FirstIndex(locations, (l: Location) => l.path == path);
    var isLocation := found.Some?;
    var isImportLocation := found.Some? && locations[found.value].id == DefaultLocationId;
    MenuState(!isLocation, !isLocation || isImportLocation)
  }

  // ---------------------------------------------------------------------
  // Directory tree to tree nodes

  /** A directory of a location's scanned tree. */
  datatype DirItem = DirItem(name: string, fullPath: string, children: seq<DirItem>)

  /** A node's label: a folder name, or the italic "No subfolders" marker. */
  datatype Label = Name(text: string) | NoSubfolders

  /**
   * A node of the tree widget. Fields the program leaves undefined are
   * `None`, the empty sequence or false.
   */
  datatype TreeNode = TreeNode(
    id: string,
    caption: Label,
    nodeData: Option<string>,
    childNodes: seq<TreeNode>,
    hasCaret: bool,
    isExpanded: bool)

  /** The only child of an empty directory's node. */
  function Placeholder(fullPath: string): TreeNode {
    TreeNode(fullPath + "-empty", NoSubfolders, None, [], false, false)
  }

  /** `dirItemAsTreeNode`. */
  function DirItemAsTreeNode(d: DirItem): (n: TreeNode)
    decreases d
    ensures n.id == d.fullPath && n.nodeData == Some(d.fullPath) && n.caption == Name(d.name) && n.hasCaret
    ensures |d.children| == 0 ==> n.childNodes == [Placeholder(d.fullPath)]
    ensures |d.children| > 0 ==> (
      && |n.childNodes| == |d.children|
      && forall i :: 0 <= i < |d.children| ==>
           n.childNodes[i].id == d.children[i].fullPath && n.childNodes[i].nodeData == Some(d.children[i].fullPath))
  {
    TreeNode(
      d.fullPath,
      Name(d.name),
      Some(d.fullPath),
      if |d.children| == 0 then [Placeholder(d.fullPath)]
      else seq(|d.children|, i requires 0 <= i < |d.children| => DirItemAsTreeNode(d.children[i])),
      true,
      false)
  }

  /** Nodes that stand for a folder carry its path; the placeholder does not. */
  predicate IsFolderNode(n: TreeNode) {
    n.nodeData.Some?
  }

  function LabelText(c: Label): string {
    match c
    case Name(text) => text
    case NoSubfolders => ""
  }

  /** Reading a directory tree back from tree nodes, dropping placeholders. */
  function AsDirItem(n: TreeNode): DirItem
    decreases n
  {
    var folders := Filter(n.childNodes, IsFolderNode);
    DirItem(LabelText(n.caption), n.id,
      seq(|folders|, i requires 0 <= i < |folders| => assert folders[i] in n.childNodes; AsDirItem(folders[i])))
  }

  /**
   * The mapping keeps the tree's shape: every directory becomes one node,
   * its children map one-to-one and in order, and nothing but the
   * placeholders is added, so reading the nodes back gives the directory tree.
   */
  lemma {:induction false} TreeNodeRoundTrip(d: DirItem)
    decreases d
    ensures AsDirItem(DirItemAsTreeNode(d)) == d
  {
    var n := DirItemAsTreeNode(d);
    if |d.children| == 0 {
      FilterDropsAll(n.childNodes, IsFolderNode);
    } else {
      FilterKeepsAll(n.childNodes, IsFolderNode);
      var folders := Filter(n.childNodes, IsFolderNode);
      forall i | 0 <= i < |d.children|
        ensures AsDirItem(folders[i]) == d.children[i]
      {
        assert folders[i] == DirItemAsTreeNode(d.children[i]);
        TreeNodeRoundTrip(d.children[i]);
      }
    }
  }

  // ---------------------------------------------------------------------
  // Expanding and collapsing nodes, addressed by their path in the tree

  /** The node at `path` (indices from the roots down), if there is one. */
  function NodeAt(nodes: seq<TreeNode>, path: seq<nat>): Option<TreeNode>
    decreases |path|
  {
    if |path| == 0 || path[0] >= |nodes| then None
    else if |path| == 1 then Some(nodes[path[0]])
    else NodeAt(nodes[path[0]].childNodes, path[1..])
  }

  /** `node.isExpanded = value` on the node at `path`. */
  function SetExpanded(nodes: seq<TreeNode>, path: seq<nat>, value: bool): (r: seq<TreeNode>)
    decreases |path|
    ensures |r| == |nodes|
  {
    if |path| == 0 || path[0] >= |nodes| then nodes
    else
      var n := nodes[path[0]];
      nodes[path[0] := if |path| == 1 then n.(isExpanded := value)
                       else n.(childNodes := SetExpanded(n.childNodes, path[1..], value))]
  }

  /**
   * Expanding or collapsing changes the flag of the target node only: every
   * node stays where it was with the same id, label and data, and only the
   * node at `p` has a new `isExpanded`.
   */
  lemma {:induction false} SetExpandedTargetsOnly(nodes: seq<TreeNode>, p: seq<nat>, v: bool, q: seq<nat>)
    decreases |q|
    ensures NodeAt(SetExpanded(nodes, p, v), q).Some? == NodeAt(nodes, q).Some?
    ensures NodeAt(nodes, q).Some? ==>
      var before, after := NodeAt(nodes, q).value, NodeAt(SetExpanded(nodes, p, v), q).value;
      && after.id == before.id && after.caption == before.caption && after.nodeData == before.nodeData
      && after.isExpanded == (if q == p then v else before.isExpanded)
  {
    var r := SetExpanded(nodes, p, v);
    if |q| == 0 || q[0] >= |nodes| {
    } else if |p| == 0 || p[0] >= |nodes| {
      assert r == nodes;
      assert q != p;
    } else if q[0] != p[0] {
      assert r[q[0]] == nodes[q[0]];
      assert q != p;
    } else if |q| == 1 {
      assert q == p <==> |p| == 1;
    } else if |p| == 1 {
      assert r[q[0]].childNodes == nodes[q[0]].childNodes;
      assert q != p;
    } else {
      SetExpandedTargetsOnly(nodes[p[0]].childNodes, p[1..], v, q[1..]);
      assert q == p <==> q[1..] == p[1..] by {
        if q[1..] == p[1..] {
          assert q == [q[0]] + q[1..] && p == [p[0]] + p[1..];
        }
      }
    }
  }

  /** The tree of locations as the panel holds it. */
  class LocationsTree {
    var nodes: seq<TreeNode>

    /** One root node per location; `basename` is the path utility's. */
    constructor (locations: seq<Location>, basename: string -> string)
      ensures |nodes| == |locations|
      ensures forall i :: 0 <= i < |locations| ==>
        nodes[i] == TreeNode(locations[i].id, Name(basename(locations[i].path)), Some(locations[i].path), [], false, false)
    {
      nodes := seq(|locations|, i requires 0 <= i < |locations| =>
        TreeNode(locations[i].id, Name(basename(locations[i].path)), Some(locations[i].path), [], false, false));
    }

    /**
     * The effect run once a location's directory tree is read: its root
     * node's children become the mapped directories. The index is the
     * location's position in the list that built the nodes, so it is in
     * range; out of range, the program's assignment would throw.
     */
    method SetLocationChildren(locIndex: nat, children: seq<DirItem>)
      requires locIndex < |nodes|
      modifies this
      ensures nodes == old(nodes)[locIndex := old(nodes)[locIndex].(childNodes :=
        seq(|children|, i requires 0 <= i < |children| => DirItemAsTreeNode(children[i])))]
    {
      var mapped := seq(|children|, i requires 0 <= i < |children| => DirItemAsTreeNode(children[i]));
      nodes := nodes[locIndex := nodes[locIndex].(childNodes := mapped)];
    }

    method HandleNodeExpand(path: seq<nat>)
      modifies this
      ensures nodes == SetExpanded(old(nodes), path, true)
    {
      nodes := SetExpanded(nodes, path, true);
    }

    method HandleNodeCollapse(path: seq<nat>)
      modifies this
      ensures nodes == SetExpanded(old(nodes), path, false)
    {
      nodes := SetExpanded(nodes, path, false);
    }
  }

  // ---------------------------------------------------------------------
  // Dialog state of the panel

  class LocationsFormState {
    var locationConfigOpen: Option<Location>
    var locationRemoverOpen: Option<Location>

    constructor ()
      ensures locationConfigOpen.None? && locationRemoverOpen.None?
    {
      locationConfigOpen := None;
      locationRemoverOpen := None;
    }

    /**
     * `handleChooseWatchedDir`: when the choice is accepted, `added` (what
     * the store's `addDirectory` returns) opens in the configuration dialog.
     */
    method HandleChooseWatchedDir(locations: seq<Location>, dirs: seq<string>, added: Location)
        returns (outcome: AddLocationOutcome)
      modifies this
      ensures outcome == ChooseWatchedDir(locations, dirs)
      ensures locationRemoverOpen == old(locationRemoverOpen)
      ensures outcome.AddDirectory? ==> locationConfigOpen == Some(added)
      ensures !outcome.AddDirectory? ==> locationConfigOpen == old(locationConfigOpen)
    {
      outcome := ChooseWatchedDir(locations, dirs);
      if outcome.AddDirectory? {
        locationConfigOpen := Some(added);
      }
    }

    /**
     * `closeConfig`: returns the location to initialize, which is the open
     * one when it is not initialized yet, and closes the dialog.
     */
    method CloseConfig() returns (toInitialize: Option<Location>)
      modifies this
      ensures locationConfigOpen.None? && locationRemoverOpen == old(locationRemoverOpen)
      ensures toInitialize.Some? <==> old(locationConfigOpen).Some? && !old(locationConfigOpen).value.isInitialized
      ensures toInitialize.Some? ==> toInitialize == old(locationConfigOpen)
    {
      toInitialize := None;
      if locationConfigOpen.Some? && !locationConfigOpen.value.isInitialized {
        toInitialize := locationConfigOpen;
      }
      locationConfigOpen := None;
    }

    /**
     * `closeLocationRemover`: closes the removal alert, and initializes the
     * location in the configuration dialog if it is not initialized yet.
     */
    method CloseLocationRemover() returns (toInitialize: Option<Location>)
      modifies this
      ensures locationRemoverOpen.None? && locationConfigOpen == old(locationConfigOpen)
      ensures toInitialize.Some? <==> locationConfigOpen.Some? && !locationConfigOpen.value.isInitialized
      ensures toInitialize.Some? ==> toInitialize == locationConfigOpen
    {
      locationRemoverOpen := None;
      toInitialize := None;
      if locationConfigOpen.Some? && !locationConfigOpen.value.isInitialized {
        toInitialize := locationConfigOpen;
      }
    }
  }
}
