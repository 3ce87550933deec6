/**
 * The file browser's tree (components/FileBrowser/FileTree.tsx). `buildTree` keeps one
 * node per path in a map and pushes each new node onto the children array of the node
 * it is walking through; the model keeps the same map, with every children array held
 * by its owner's path, so a node is reachable exactly as through the source's `pathMap`.
 */
module FileTree {
  import opened Wrappers
  import opened Seqs
  import opened Sorting
  import opened Strings
  import opened GitHub

  /** A tree node; `children` lists child paths in push order and is only meaningful for directories. */
  datatype TreeNode = TreeNode(
    name: string,
    path: string,
    nodeType: FileType,
    children: seq<string>,
    file: Option<GitHubFile>)

  /** The top-level nodes and every node by path (the source's `root` and `pathMap`). */
  datatype Forest = Forest(roots: seq<string>, nodes: map<string, TreeNode>)

  /** `currentLevel`: the root array, the children array of a node, or `undefined` (a file's missing children). */
  datatype Level = Root | ChildrenOf(owner: string) | Undefined

  /** The path of child `name` below `parent` (`currentPath ? currentPath/part : part`). */
  function ChildPath(parent: string, name: string): string {
    if parent != "" then parent + "/" + name else name
  }

  // ---------------------------------------------------------------- building

  /** Existing nodes stay, and only their children may change. */
  ghost predicate Grows(t: Forest, t': Forest) {
    forall k :: k in t.nodes ==> k in t'.nodes && t'.nodes[k] == t.nodes[k].(children := t'.nodes[k].children)
  }

  /** `currentLevel.push(node)`; pushing onto `undefined` throws. */
  function Push(t: Forest, level: Level, key: string): (r: Option<Forest>)
    ensures r.None? <==> level == Undefined
    ensures r.Some? ==> r.value.nodes.Keys == t.nodes.Keys && Grows(t, r.value)
  {
    match level
    case Root => Some(t.(roots := t.roots + [key]))
    case ChildrenOf(p) =>
      if p in t.nodes then Some(t.(nodes := t.nodes[p := t.nodes[p].(children := t.nodes[p].children + [key])]))
      else Some(t)
    case Undefined => None
  }

  /** The node created for part `name` at `path`: a file leaf carrying the file, or an empty directory. */
  function NewNode(name: string, path: string, isFile: bool, file: GitHubFile): (n: TreeNode)
    ensures n.name == name && n.path == path && n.children == []
    ensures n.nodeType == File <==> isFile
    ensures n.file.Some? <==> isFile
    ensures isFile ==> n.file == Some(file)
  {
    TreeNode(name, path, if isFile then File else Dir, [], if isFile then Some(file) else None)
  }

  /** One iteration of the inner `forEach`: the path so far, the node for it, and the next level. */
  datatype Position = Position(forest: Forest, currentPath: string, level: Level)

  function Step(t: Forest, part: string, isFile: bool, prev: string, level: Level, file: GitHubFile): (r: Option<Position>)
    ensures r.Some? ==> r.value.currentPath == ChildPath(prev, part) && r.value.currentPath in r.value.forest.nodes
    ensures r.Some? ==> r.value.forest.nodes.Keys == t.nodes.Keys + {ChildPath(prev, part)} && Grows(t, r.value.forest)
    ensures ChildPath(prev, part) in t.nodes ==> r.Some? && r.value.forest == t
    ensures ChildPath(prev, part) !in t.nodes ==>
      && (r.Some? <==> level != Undefined)
      && (r.Some? ==> var n := r.value.forest.nodes[ChildPath(prev, part)];
            n == NewNode(part, ChildPath(prev, part), isFile, file).(children := n.children))
  {
    var cp := ChildPath(prev, part);
    var pushed :=
      if cp in t.nodes then Some(t)
      else Push(t.(nodes := t.nodes[cp := NewNode(part, cp, isFile, file)]), level, cp);
    match pushed
    case None => None
    case Some(t') =>
      if isFile then Some(Position(t', cp, level))
      else Some(Position(t', cp, if t'.nodes[cp].nodeType == Dir then ChildrenOf(cp) else Undefined))
  }

  /** The inner `forEach` over the path's parts from index `i`. */
  function Walk(t: Forest, parts: seq<string>, i: nat, prev: string, level: Level, file: GitHubFile): (r: Option<Forest>)
    requires i <= |parts|
    ensures r.Some? ==> Grows(t, r.value)
    decreases |parts| - i
  {
    if i == |parts| then Some(t)
    else
      match Step(t, parts[i], i == |parts| - 1, prev, level, file)
      case None => None
      case Some(p) => Walk(p.forest, parts, i + 1, p.currentPath, p.level, file)
  }

  /** Adding one file: walk its '/'-separated parts from the root. */
  function AddFile(t: Forest, file: GitHubFile): (r: Option<Forest>)
    ensures r.Some? ==> Grows(t, r.value)
  {
    Walk(t, Split(file.path, '/'), 0, "", Root, file)
  }

  /** The outer `forEach`, in the order given; `None` once a push has thrown. */
  function AddFiles(t: Forest, files: seq<GitHubFile>): (r: Option<Forest>)
    ensures r.Some? ==> Grows(t, r.value)
    decreases |files|
  {
    if |files| == 0 then Some(t)
    else
      match AddFile(t, files[0])
      case None => None
      case Some(t') => AddFiles(t', files[1..])
  }

  // ---------------------------------------------------------------- sorting

  /** The sort key of a path: its node's kind and lower-cased name. */
  function KindOf(nodes: map<string, TreeNode>, p: string): FileType {
    if p in nodes then nodes[p].nodeType else File
  }

  function LowerNameOf(nodes: map<string, TreeNode>, p: string): string {
    if p in nodes then ToLower(nodes[p].name) else ""
  }

  /** The comparator of `sortLevel`: directories first, then by lower-cased name. */
  predicate NodeLe(nodes: map<string, TreeNode>, a: string, b: string) {
    || (KindOf(nodes, a) == Dir && KindOf(nodes, b) == File)
    || (KindOf(nodes, a) == KindOf(nodes, b) && StrLe(LowerNameOf(nodes, a), LowerNameOf(nodes, b)))
  }

  lemma NodeLeIsTotalPreorder(nodes: map<string, TreeNode>)
    ensures TotalPreorder((a, b) => NodeLe(nodes, a, b))
  {
    forall a, b
      ensures NodeLe(nodes, a, b) || NodeLe(nodes, b, a)
    {
      StrLeTotal(LowerNameOf(nodes, a), LowerNameOf(nodes, b));
    }
    forall a, b, c | NodeLe(nodes, a, b) && NodeLe(nodes, b, c)
      ensures NodeLe(nodes, a, c)
    {
      if KindOf(nodes, a) == KindOf(nodes, b) == KindOf(nodes, c) {
        StrLeTransitive(LowerNameOf(nodes, a), LowerNameOf(nodes, b), LowerNameOf(nodes, c));
      }
    }
  }

  /** One level sorted with the comparator of `sortLevel`. */
  function SortPaths(nodes: map<string, TreeNode>, level: seq<string>): (r: seq<string>)
    ensures multiset(r) == multiset(level)
    ensures forall i, j :: 0 <= i < j < |r| ==> NodeLe(nodes, r[i], r[j])
  {
    NodeLeIsTotalPreorder(nodes);
    SortBy(level, (a, b) => NodeLe(nodes, a, b))
  }

  /** `sortLevel(root)`: every level sorted. Every node is on exactly one level, so sorting all arrays is the same. */
  function SortLevels(t: Forest): (r: Forest)
    ensures r.nodes.Keys == t.nodes.Keys
    ensures multiset(r.roots) == multiset(t.roots)
    ensures forall k :: k in r.nodes ==>
      && r.nodes[k] == t.nodes[k].(children := r.nodes[k].children)
      && multiset(r.nodes[k].children) == multiset(t.nodes[k].children)
    ensures forall i, j :: 0 <= i < j < |r.roots| ==> NodeLe(t.nodes, r.roots[i], r.roots[j])
    ensures forall k, i, j :: k in r.nodes && 0 <= i < j < |r.nodes[k].children| ==>
      NodeLe(t.nodes, r.nodes[k].children[i], r.nodes[k].children[j])
  {
    Forest(SortPaths(t.nodes, t.roots),
           map k | k in t.nodes :: t.nodes[k].(children := SortPaths(t.nodes, t.nodes[k].children)))
  }

  /** The order the files are added in: by path. */
  predicate PathLe(a: GitHubFile, b: GitHubFile) {
    StrLe(a.path, b.path)
  }

  lemma PathLeIsTotalPreorder()
    ensures TotalPreorder(PathLe)
  {
    forall a, b
      ensures PathLe(a, b) || PathLe(b, a)
    {
      StrLeTotal(a.path, b.path);
    }
    forall a, b, c | PathLe(a, b) && PathLe(b, c)
      ensures PathLe(a, c)
    {
      StrLeTransitive(a.path, b.path, c.path);
    }
  }

  /** `buildTree`: sort the files by path, add them one by one, then sort every level. */
  function BuildTree(files: seq<GitHubFile>): Option<Forest> {
    PathLeIsTotalPreorder();
    var byPath := SortBy(files, PathLe);
    match AddFiles(Forest([], map[]), byPath)
    case None => None
    case Some(t) => Some(SortLevels(t))
  }

  // ---------------------------------------------------------------- shape of every tree built

  /**
   * The shape `buildTree` gives its nodes: each is stored under its own path; a top-level
   * node's path is its name; a child sits under a directory at `ChildPath(owner, name)`;
   * exactly the file nodes carry a file, and they have no children; and every node is on
   * the top level or in some directory's children.
   */
  ghost predicate WellFormed(t: Forest) {
    && KeyedByPath(t) && RootsNamed(t) && ChildrenUnderOwners(t)
    && FilesCarryFile(t) && FilesAreLeaves(t) && AllPlaced(t)
  }

  ghost predicate KeyedByPath(t: Forest) {
    forall k :: k in t.nodes ==> t.nodes[k].path == k
  }

  ghost predicate RootsNamed(t: Forest) {
    forall k :: k in t.roots ==> k in t.nodes && t.nodes[k].name == k
  }

  ghost predicate ChildrenUnderOwners(t: Forest) {
    forall o, c :: o in t.nodes && c in t.nodes[o].children ==> UnderOwner(t, o, c)
  }

  /** Child `c` of directory `o` is a node named by its path below `o`. */
  ghost predicate UnderOwner(t: Forest, o: string, c: string)
    requires o in t.nodes
  {
    t.nodes[o].nodeType == Dir && c in t.nodes && c == ChildPath(o, t.nodes[c].name)
  }

  ghost predicate FilesCarryFile(t: Forest) {
    forall k :: k in t.nodes ==> (t.nodes[k].nodeType == File <==> t.nodes[k].file.Some?)
  }

  ghost predicate FilesAreLeaves(t: Forest) {
    forall k :: k in t.nodes && t.nodes[k].nodeType == File ==> t.nodes[k].children == []
  }

  ghost predicate AllPlaced(t: Forest) {
    forall k :: k in t.nodes ==> Placed(t, k)
  }

  /** `k` is on the top level or in the children of some node. */
  ghost predicate Placed(t: Forest, k: string) {
    k in t.roots || exists o :: o in t.nodes && k in t.nodes[o].children
  }

  /** The level being walked belongs to the path walked so far. */
  ghost predicate LevelOk(t: Forest, prev: string, level: Level) {
    match level
    case Root => prev == ""
    case ChildrenOf(o) => o == prev && o in t.nodes && t.nodes[o].nodeType == Dir
    case Undefined => true
  }

  /** A fresh node pushed onto a live level keeps the shape. */
  lemma AddNodeKeepsWellFormed(t: Forest, prev: string, level: Level, node: TreeNode)
    requires WellFormed(t) && LevelOk(t, prev, level) && level != Undefined
    requires node.path !in t.nodes && node.path == ChildPath(prev, node.name)
    requires node.children == [] && (node.nodeType == File <==> node.file.Some?)
    ensures Push(t.(nodes := t.nodes[node.path := node]), level, node.path).Some?
    ensures WellFormed(Push(t.(nodes := t.nodes[node.path := node]), level, node.path).value)
  {
    match level
    case Root => AddRootKeepsWellFormed(t, node);
    case ChildrenOf(p) => AddChildKeepsWellFormed(t, p, node);
  }

  lemma AddRootKeepsWellFormed(t: Forest, node: TreeNode)
    requires WellFormed(t)
    requires node.path !in t.nodes && node.path == node.name
    requires node.children == [] && (node.nodeType == File <==> node.file.Some?)
    ensures WellFormed(Forest(t.roots + [node.path], t.nodes[node.path := node]))
  {
    var cp := node.path;
    var t' := Forest(t.roots + [cp], t.nodes[cp := node]);
    forall o, c | o in t'.nodes && c in t'.nodes[o].children
      ensures UnderOwner(t', o, c)
    {
      AddRootUnderOwnerAt(t, node, t', o, c);
    }
    AddRootPlaced(t, node, t');
  }

  lemma AddRootUnderOwnerAt(t: Forest, node: TreeNode, t': Forest, o: string, c: string)
    requires ChildrenUnderOwners(t)
    requires node.path !in t.nodes && node.children == []
    requires t' == Forest(t.roots + [node.path], t.nodes[node.path := node])
    requires o in t'.nodes && c in t'.nodes[o].children
    ensures UnderOwner(t', o, c)
  {
    assert o != node.path;
    assert c in t.nodes[o].children;
    assert UnderOwner(t, o, c);
    assert c != node.path;
  }

  lemma AddRootPlaced(t: Forest, node: TreeNode, t': Forest)
    requires AllPlaced(t) && node.path !in t.nodes
    requires t' == Forest(t.roots + [node.path], t.nodes[node.path := node])
    ensures AllPlaced(t')
  {
    var cp := node.path;
    forall k | k in t'.nodes
      ensures Placed(t', k)
    {
      if k != cp && k !in t.roots {
        assert Placed(t, k);
        var o :| o in t.nodes && k in t.nodes[o].children;
        assert o in t'.nodes && k in t'.nodes[o].children;
      }
    }
  }

  lemma AddChildKeepsWellFormed(t: Forest, p: string, node: TreeNode)
    requires WellFormed(t) && p in t.nodes && t.nodes[p].nodeType == Dir
    requires node.path !in t.nodes && node.path == ChildPath(p, node.name)
    requires node.children == [] && (node.nodeType == File <==> node.file.Some?)
    ensures var owner := t.nodes[p].(children := t.nodes[p].children + [node.path]);
      WellFormed(Forest(t.roots, t.nodes[node.path := node][p := owner]))
  {
    var cp := node.path;
    var owner := t.nodes[p].(children := t.nodes[p].children + [cp]);
    var t' := Forest(t.roots, t.nodes[cp := node][p := owner]);
    AddChildUnderOwner(t, p, node);
    AddChildPlaced(t, p, node);
    assert FilesAreLeaves(t') by {
      forall k | k in t'.nodes && t'.nodes[k].nodeType == File
        ensures t'.nodes[k].children == []
      {
        assert k != p;
      }
    }
  }

  lemma AddChildUnderOwner(t: Forest, p: string, node: TreeNode)
    requires ChildrenUnderOwners(t) && p in t.nodes && t.nodes[p].nodeType == Dir
    requires node.path !in t.nodes && node.path == ChildPath(p, node.name) && node.children == []
    ensures var owner := t.nodes[p].(children := t.nodes[p].children + [node.path]);
      ChildrenUnderOwners(Forest(t.roots, t.nodes[node.path := node][p := owner]))
  {
    var cp := node.path;
    var owner := t.nodes[p].(children := t.nodes[p].children + [cp]);
    var t' := Forest(t.roots, t.nodes[cp := node][p := owner]);
    forall o, c | o in t'.nodes && c in t'.nodes[o].children
      ensures UnderOwner(t', o, c)
    {
      AddChildUnderOwnerAt(t, p, node, t', o, c);
    }
  }

  lemma AddChildUnderOwnerAt(t: Forest, p: string, node: TreeNode, t': Forest, o: string, c: string)
    requires ChildrenUnderOwners(t) && p in t.nodes && t.nodes[p].nodeType == Dir
    requires node.path !in t.nodes && node.path == ChildPath(p, node.name) && node.children == []
    requires t' == Forest(t.roots, t.nodes[node.path := node][p := t.nodes[p].(children := t.nodes[p].children + [node.path])])
    requires o in t'.nodes && c in t'.nodes[o].children
    ensures UnderOwner(t', o, c)
  {
    var cp := node.path;
    if o == cp {
      assert false;
    } else if o == p && c == cp {
      assert t'.nodes[c] == node;
    } else {
      assert t'.nodes[o] == t.nodes[o] || o == p;
      assert c in t.nodes[o].children;
      assert c in t.nodes && c != cp;
      assert t'.nodes[c] == t.nodes[c] || c == p;
    }
  }

  lemma AddChildPlaced(t: Forest, p: string, node: TreeNode)
    requires AllPlaced(t) && p in t.nodes
    requires node.path !in t.nodes
    ensures var owner := t.nodes[p].(children := t.nodes[p].children + [node.path]);
      AllPlaced(Forest(t.roots, t.nodes[node.path := node][p := owner]))
  {
    var cp := node.path;
    var owner := t.nodes[p].(children := t.nodes[p].children + [cp]);
    var t' := Forest(t.roots, t.nodes[cp := node][p := owner]);
    forall k | k in t'.nodes
      ensures Placed(t', k)
    {
      if k == cp {
        assert k in t'.nodes[p].children;
      } else if k !in t.roots {
        assert Placed(t, k);
        var o :| o in t.nodes && k in t.nodes[o].children;
        assert o in t'.nodes && k in t'.nodes[o].children;
      }
    }
  }

  /** One step of the walk keeps the shape and leaves a level that belongs to the new path. */
  lemma StepKeepsWellFormed(t: Forest, part: string, isFile: bool, prev: string, level: Level, file: GitHubFile)
    requires WellFormed(t) && LevelOk(t, prev, level)
    ensures var r := Step(t, part, isFile, prev, level, file);
      r.Some? ==> WellFormed(r.value.forest) && (!isFile ==> LevelOk(r.value.forest, r.value.currentPath, r.value.level))
  {
    var cp := ChildPath(prev, part);
    if cp !in t.nodes && level != Undefined {
      AddNodeKeepsWellFormed(t, prev, level, NewNode(part, cp, isFile, file));
    }
  }

  lemma {:induction false} WalkKeepsWellFormed(t: Forest, parts: seq<string>, i: nat, prev: string, level: Level, file: GitHubFile)
    requires i <= |parts|
    requires WellFormed(t) && LevelOk(t, prev, level)
    ensures var r := Walk(t, parts, i, prev, level, file); r.Some? ==> WellFormed(r.value)
    decreases |parts| - i
  {
    if i < |parts| {
      StepKeepsWellFormed(t, parts[i], i == |parts| - 1, prev, level, file);
      var s := Step(t, parts[i], i == |parts| - 1, prev, level, file);
      if s.Some? {
        var p := s.value;
        if i == |parts| - 1 {
          assert Walk(p.forest, parts, i + 1, p.currentPath, p.level, file) == Some(p.forest);
        } else {
          WalkKeepsWellFormed(p.forest, parts, i + 1, p.currentPath, p.level, file);
        }
      }
    }
  }

  lemma {:induction false} AddFilesKeepsWellFormed(t: Forest, files: seq<GitHubFile>)
    requires WellFormed(t)
    ensures var r := AddFiles(t, files); r.Some? ==> WellFormed(r.value)
    decreases |files|
  {
    if |files| > 0 {
      WalkKeepsWellFormed(t, Split(files[0].path, '/'), 0, "", Root, files[0]);
      var t' := AddFile(t, files[0]);
      if t'.Some? {
        AddFilesKeepsWellFormed(t'.value, files[1..]);
      }
    }
  }

  /** Every level in the order of `sortLevel`: directories first, each kind by lower-cased name. */
  ghost predicate LevelsSorted(t: Forest) {
    && (forall i, j :: 0 <= i < j < |t.roots| ==> NodeLe(t.nodes, t.roots[i], t.roots[j]))
    && (forall k, i, j :: k in t.nodes && 0 <= i < j < |t.nodes[k].children| ==>
          NodeLe(t.nodes, t.nodes[k].children[i], t.nodes[k].children[j]))
  }

  /** Two forests whose levels hold the same paths, in any order, and whose nodes agree otherwise. */
  ghost predicate SameLevels(t: Forest, r: Forest) {
    && r.nodes.Keys == t.nodes.Keys
    && (forall k :: k in r.nodes ==> r.nodes[k] == t.nodes[k].(children := r.nodes[k].children))
    && (forall k :: k in r.nodes ==> |r.nodes[k].children| == |t.nodes[k].children|)
    && (forall k :: k in r.roots <==> k in t.roots)
    && (forall o, c :: o in r.nodes ==> (c in r.nodes[o].children <==> c in t.nodes[o].children))
  }

  lemma SameLevelsKeepWellFormed(t: Forest, r: Forest)
    requires WellFormed(t) && SameLevels(t, r)
    ensures WellFormed(r)
  {
    forall k | k in r.nodes
      ensures r.nodes[k].path == t.nodes[k].path && r.nodes[k].name == t.nodes[k].name
      ensures r.nodes[k].nodeType == t.nodes[k].nodeType && r.nodes[k].file == t.nodes[k].file
    {
      assert r.nodes[k] == t.nodes[k].(children := r.nodes[k].children);
    }
    SameLevelsUnderOwners(t, r);
    SameLevelsLeaves(t, r);
    SameLevelsPlaced(t, r);
  }

  lemma SameLevelsUnderOwners(t: Forest, r: Forest)
    requires ChildrenUnderOwners(t) && SameLevels(t, r)
    ensures ChildrenUnderOwners(r)
  {
    forall o, c | o in r.nodes && c in r.nodes[o].children
      ensures UnderOwner(r, o, c)
    {
      SameLevelsUnderOwnerAt(t, r, o, c);
    }
  }

  lemma SameLevelsUnderOwnerAt(t: Forest, r: Forest, o: string, c: string)
    requires ChildrenUnderOwners(t) && SameLevels(t, r)
    requires o in r.nodes && c in r.nodes[o].children
    ensures UnderOwner(r, o, c)
  {
    assert c in t.nodes[o].children;
    assert UnderOwner(t, o, c);
    assert r.nodes[o] == t.nodes[o].(children := r.nodes[o].children);
    assert r.nodes[c] == t.nodes[c].(children := r.nodes[c].children);
  }

  lemma SameLevelsLeaves(t: Forest, r: Forest)
    requires FilesAreLeaves(t) && SameLevels(t, r)
    ensures FilesAreLeaves(r)
  {
    forall k | k in r.nodes && r.nodes[k].nodeType == File
      ensures r.nodes[k].children == []
    {
      assert r.nodes[k] == t.nodes[k].(children := r.nodes[k].children);
    }
  }

  lemma SameLevelsPlaced(t: Forest, r: Forest)
    requires AllPlaced(t) && SameLevels(t, r)
    ensures AllPlaced(r)
  {
    forall k | k in r.nodes
      ensures Placed(r, k)
    {
      if k !in t.roots {
        assert Placed(t, k);
        var o :| o in t.nodes && k in t.nodes[o].children;
        assert o in r.nodes && k in r.nodes[o].children;
      }
    }
  }

  /** Sorting moves nodes within their level only. */
  lemma SortLevelsSameLevels(t: Forest)
    ensures SameLevels(t, SortLevels(t))
  {
    var r := SortLevels(t);
    forall k
      ensures k in r.roots <==> k in t.roots
    {
      assert k in r.roots <==> k in multiset(r.roots);
      assert k in t.roots <==> k in multiset(t.roots);
    }
    forall o, c | o in r.nodes
      ensures c in r.nodes[o].children <==> c in t.nodes[o].children
    {
      assert c in r.nodes[o].children <==> c in multiset(r.nodes[o].children);
      assert c in t.nodes[o].children <==> c in multiset(t.nodes[o].children);
    }
  }

  /** The comparator only looks at kinds and names, which sorting leaves alone. */
  lemma SortLevelsSorted(t: Forest)
    ensures LevelsSorted(SortLevels(t))
  {
    var r := SortLevels(t);
    forall a
      ensures KindOf(t.nodes, a) == KindOf(r.nodes, a) && LowerNameOf(t.nodes, a) == LowerNameOf(r.nodes, a)
    {
      if a in r.nodes {
        assert r.nodes[a] == t.nodes[a].(children := r.nodes[a].children);
      }
    }
    forall i, j | 0 <= i < j < |r.roots|
      ensures NodeLe(r.nodes, r.roots[i], r.roots[j])
    {
      assert NodeLe(t.nodes, r.roots[i], r.roots[j]);
    }
    forall k, i, j | k in r.nodes && 0 <= i < j < |r.nodes[k].children|
      ensures NodeLe(r.nodes, r.nodes[k].children[i], r.nodes[k].children[j])
    {
      assert NodeLe(t.nodes, r.nodes[k].children[i], r.nodes[k].children[j]);
    }
  }

  /** Whatever the files, a tree `buildTree` returns has the shape above and sorted levels. */
  lemma BuildTreeShape(files: seq<GitHubFile>)
    ensures var r := BuildTree(files); r.Some? ==> WellFormed(r.value) && LevelsSorted(r.value)
  {
    PathLeIsTotalPreorder();
    var byPath := SortBy(files, PathLe);
    AddFilesKeepsWellFormed(Forest([], map[]), byPath);
    var t := AddFiles(Forest([], map[]), byPath);
    if t.Some? {
      SortLevelsSameLevels(t.value);
      SameLevelsKeepWellFormed(t.value, SortLevels(t.value));
      SortLevelsSorted(t.value);
    }
  }

  // ---------------------------------------------------------------- every file becomes a leaf

  /** A repository path: no empty segment (so no leading, trailing or doubled '/'). */
  ghost predicate CleanPath(path: string) {
    forall i :: 0 <= i < |Split(path, '/')| ==> Split(path, '/')[i] != ""
  }

  /**
   * What a GitHub tree listing guarantees: clean paths, one entry per path, and no file
   * path that is also a folder of another entry.
   */
  ghost predicate GoodListing(files: seq<GitHubFile>) {
    && (forall f :: f in files ==> CleanPath(f.path))
    && (forall f, g :: f in files && g in files && f.path == g.path ==> f == g)
    && (forall f, g :: f in files && g in files ==> !StartsWith(g.path, f.path + "/"))
  }

  /** Every file node carries a listed file stored under that file's path. */
  ghost predicate LeavesListed(t: Forest, all: seq<GitHubFile>) {
    forall k :: k in t.nodes && t.nodes[k].nodeType == File ==>
      t.nodes[k].file.Some? && t.nodes[k].file.value in all && t.nodes[k].file.value.path == k
  }

  /** Every directory node is a folder of some listed file. */
  ghost predicate DirsListed(t: Forest, all: seq<GitHubFile>) {
    forall k :: k in t.nodes && t.nodes[k].nodeType == Dir ==> exists f :: f in all && StartsWith(f.path, k + "/")
  }

  /** File `f` is a leaf at its own path. */
  ghost predicate HasLeaf(t: Forest, f: GitHubFile) {
    f.path in t.nodes && t.nodes[f.path].nodeType == File && t.nodes[f.path].file == Some(f)
  }

  /** `k` is a directory node. */
  ghost predicate HasFolder(t: Forest, k: string) {
    k in t.nodes && t.nodes[k].nodeType == Dir
  }

  /** Every folder of `f`'s path, from its first segment on, is a directory node. */
  ghost predicate FoldersShown(t: Forest, f: GitHubFile) {
    forall j :: 1 <= j < |Split(f.path, '/')| ==> HasFolder(t, Join(Split(f.path, '/')[..j], '/'))
  }

  /** `parts` are the non-empty '/'-separated segments of `path`. */
  ghost predicate PartsOf(path: string, parts: seq<string>) {
    && |parts| >= 1
    && Join(parts, '/') == path
    && forall k :: 0 <= k < |parts| ==> parts[k] != ""
  }

  /** A clean path's split gives its segments. */
  lemma CleanPathParts(path: string)
    requires CleanPath(path)
    ensures PartsOf(path, Split(path, '/'))
  {
    JoinSplit(path, '/');
  }

  /** The path walked after `i + 1` parts: the first `i + 1` segments joined. */
  lemma WalkedPath(parts: seq<string>, i: nat)
    requires i < |parts| && parts[0] != ""
    ensures ChildPath(if i == 0 then "" else Join(parts[..i], '/'), parts[i]) == Join(parts[..i + 1], '/')
  {
    if i == 0 {
      assert parts[..1] == [parts[0]];
    } else {
      assert parts[..i][0] == parts[0];
      assert Join(parts[..i], '/') != "";
      JoinSnoc(parts[..i], parts[i], '/');
      assert parts[..i] + [parts[i]] == parts[..i + 1];
    }
  }

  /** A walked path short of the whole one is a folder of it. */
  lemma WalkedPathIsFolder(path: string, parts: seq<string>, i: nat)
    requires PartsOf(path, parts) && i + 1 < |parts|
    ensures StartsWith(path, Join(parts[..i + 1], '/') + "/")
  {
    JoinAt(parts, i + 1, '/');
    var j := Join(parts[..i + 1], '/');
    assert path == (j + "/") + Join(parts[i + 1..], '/');
  }

  /** Adding one node that is itself listed keeps both properties. */
  lemma ExtendKeepsListed(t: Forest, t': Forest, all: seq<GitHubFile>, k: string)
    requires LeavesListed(t, all) && DirsListed(t, all)
    requires Grows(t, t') && t'.nodes.Keys == t.nodes.Keys + {k}
    requires k !in t.nodes ==>
      && (t'.nodes[k].nodeType == File ==>
            t'.nodes[k].file.Some? && t'.nodes[k].file.value in all && t'.nodes[k].file.value.path == k)
      && (t'.nodes[k].nodeType == Dir ==> exists h :: h in all && StartsWith(h.path, k + "/"))
    ensures LeavesListed(t', all) && DirsListed(t', all)
  {
    forall x | x in t'.nodes && x in t.nodes
      ensures t'.nodes[x].nodeType == t.nodes[x].nodeType && t'.nodes[x].file == t.nodes[x].file
    {
      assert t'.nodes[x] == t.nodes[x].(children := t'.nodes[x].children);
    }
  }

  /**
   * Nothing in the tree stands in the way of file `f`, whose path has the segments `parts`:
   * no node on a folder of its path is a file, and a node at its own path is its leaf.
   */
  ghost predicate Unblocked(t: Forest, f: GitHubFile, parts: seq<string>) {
    && (forall j :: 1 <= j < |parts| && Join(parts[..j], '/') in t.nodes ==>
          t.nodes[Join(parts[..j], '/')].nodeType == Dir)
    && (f.path in t.nodes ==> HasLeaf(t, f))
  }

  /** Adding one directory node off `f`'s path keeps the way clear. */
  lemma ExtendKeepsUnblocked(t: Forest, t': Forest, f: GitHubFile, parts: seq<string>, k: string)
    requires Unblocked(t, f, parts)
    requires Grows(t, t') && t'.nodes.Keys == t.nodes.Keys + {k}
    requires k !in t.nodes ==> t'.nodes[k].nodeType == Dir && k != f.path
    ensures Unblocked(t', f, parts)
  {
    forall x | x in t.nodes
      ensures t'.nodes[x].nodeType == t.nodes[x].nodeType && t'.nodes[x].file == t.nodes[x].file
    {
      assert t'.nodes[x] == t.nodes[x].(children := t'.nodes[x].children);
    }
  }

  /** In a listed tree of a good listing, nothing stands in the way of a listed file. */
  lemma ListedUnblocked(t: Forest, all: seq<GitHubFile>, f: GitHubFile, parts: seq<string>)
    requires GoodListing(all) && f in all && PartsOf(f.path, parts)
    requires LeavesListed(t, all) && DirsListed(t, all)
    ensures Unblocked(t, f, parts)
  {
    forall j | 1 <= j < |parts| && Join(parts[..j], '/') in t.nodes
      ensures t.nodes[Join(parts[..j], '/')].nodeType == Dir
    {
      FolderNodeIsDir(t, all, f, parts, j);
    }
    OwnNodeIsLeaf(t, all, f);
  }

  /** A node on a folder of a listed file is a directory: a listed file there would contain it. */
  lemma FolderNodeIsDir(t: Forest, all: seq<GitHubFile>, f: GitHubFile, parts: seq<string>, j: nat)
    requires GoodListing(all) && f in all && PartsOf(f.path, parts) && LeavesListed(t, all)
    requires 1 <= j < |parts| && Join(parts[..j], '/') in t.nodes
    ensures t.nodes[Join(parts[..j], '/')].nodeType == Dir
  {
    WalkedPathIsFolder(f.path, parts, j - 1);
    NoFileAbove(t, all, f, Join(parts[..j], '/'));
  }

  lemma NoFileAbove(t: Forest, all: seq<GitHubFile>, f: GitHubFile, k: string)
    requires GoodListing(all) && f in all && LeavesListed(t, all)
    requires k in t.nodes && StartsWith(f.path, k + "/")
    ensures t.nodes[k].nodeType == Dir
  {
  }

  /** A node at a listed file's own path is that file's leaf. */
  lemma OwnNodeIsLeaf(t: Forest, all: seq<GitHubFile>, f: GitHubFile)
    requires GoodListing(all) && f in all
    requires LeavesListed(t, all) && DirsListed(t, all)
    ensures f.path in t.nodes ==> HasLeaf(t, f)
  {
    if f.path in t.nodes {
      var n := t.nodes[f.path];
      assert n.nodeType == Dir ==> exists h :: h in all && StartsWith(h.path, f.path + "/");
      assert n.nodeType == File ==> n.file.value in all && n.file.value.path == f.path;
    }
  }

  /** Walking a file's parts from part `i` ends with the file as a leaf and its folders made. */
  lemma {:induction false} WalkPlacesFile(t: Forest, f: GitHubFile, parts: seq<string>,
                                          i: nat, prev: string, level: Level)
    requires PartsOf(f.path, parts) && i < |parts|
    requires prev == if i == 0 then "" else Join(parts[..i], '/')
    requires level != Undefined
    requires Unblocked(t, f, parts)
    ensures var r := Walk(t, parts, i, prev, level, f);
      && r.Some? && HasLeaf(r.value, f)
      && forall j :: i < j < |parts| ==> HasFolder(r.value, Join(parts[..j], '/'))
    decreases |parts| - i
  {
    if i + 1 < |parts| {
      InnerStep(t, f, parts, i, prev, level);
      var p := Step(t, parts[i], false, prev, level, f).value;
      WalkPlacesFile(p.forest, f, parts, i + 1, p.currentPath, p.level);
      AfterInnerStep(t, f, parts, i, prev, level);
    } else {
      LastPart(t, f, parts, i, prev, level);
    }
  }

  /** A step before the last part finds or makes the folder walked so far and moves into it. */
  lemma InnerStep(t: Forest, f: GitHubFile, parts: seq<string>, i: nat, prev: string, level: Level)
    requires PartsOf(f.path, parts) && i + 1 < |parts|
    requires prev == if i == 0 then "" else Join(parts[..i], '/')
    requires level != Undefined
    requires Unblocked(t, f, parts)
    ensures var s := Step(t, parts[i], false, prev, level, f);
      && s.Some?
      && s.value.currentPath == Join(parts[..i + 1], '/')
      && s.value.level != Undefined
      && HasFolder(s.value.forest, Join(parts[..i + 1], '/'))
      && Unblocked(s.value.forest, f, parts)
  {
    WalkedPath(parts, i);
    WalkedPathIsFolder(f.path, parts, i);
    var k := Join(parts[..i + 1], '/');
    var s := Step(t, parts[i], false, prev, level, f);
    assert k in t.nodes ==> t.nodes[k].nodeType == Dir;
    ExtendKeepsUnblocked(t, s.value.forest, f, parts, k);
  }

  /** What the walk from part `i + 1` leaves is what the walk from part `i` leaves. */
  lemma AfterInnerStep(t: Forest, f: GitHubFile, parts: seq<string>, i: nat, prev: string, level: Level)
    requires i + 1 < |parts|
    requires var s := Step(t, parts[i], false, prev, level, f);
      && s.Some?
      && HasFolder(s.value.forest, Join(parts[..i + 1], '/'))
    requires var s := Step(t, parts[i], false, prev, level, f).value;
      var r := Walk(s.forest, parts, i + 1, s.currentPath, s.level, f);
      && r.Some? && HasLeaf(r.value, f)
      && forall j :: i + 1 < j < |parts| ==> HasFolder(r.value, Join(parts[..j], '/'))
    ensures var r := Walk(t, parts, i, prev, level, f);
      && r.Some? && HasLeaf(r.value, f)
      && forall j :: i < j < |parts| ==> HasFolder(r.value, Join(parts[..j], '/'))
  {
    var s := Step(t, parts[i], false, prev, level, f).value;
    assert Walk(t, parts, i, prev, level, f) == Walk(s.forest, parts, i + 1, s.currentPath, s.level, f);
    var r := Walk(s.forest, parts, i + 1, s.currentPath, s.level, f).value;
    FoldersAfterStep(s.forest, r, parts, i);
  }

  /** The folder made by step `i` is still there at the end, with the ones made later. */
  lemma FoldersAfterStep(t: Forest, r: Forest, parts: seq<string>, i: nat)
    requires i + 1 < |parts|
    requires HasFolder(t, Join(parts[..i + 1], '/')) && Grows(t, r)
    requires forall j :: i + 1 < j < |parts| ==> HasFolder(r, Join(parts[..j], '/'))
    ensures forall j :: i < j < |parts| ==> HasFolder(r, Join(parts[..j], '/'))
  {
    GrowsKeepsFolder(t, r, Join(parts[..i + 1], '/'));
  }

  /** The walk's last part: the file's own leaf, found or made. */
  lemma LastPart(t: Forest, f: GitHubFile, parts: seq<string>, i: nat, prev: string, level: Level)
    requires PartsOf(f.path, parts) && i + 1 == |parts|
    requires prev == if i == 0 then "" else Join(parts[..i], '/')
    requires level != Undefined
    requires Unblocked(t, f, parts)
    ensures var r := Walk(t, parts, i, prev, level, f);
      r.Some? && HasLeaf(r.value, f)
  {
    WalkedPath(parts, i);
    assert parts[..i + 1] == parts;
    var p := Step(t, parts[i], true, prev, level, f).value;
    assert Walk(t, parts, i, prev, level, f) == Walk(p.forest, parts, i + 1, p.currentPath, p.level, f);
    assert Walk(p.forest, parts, i + 1, p.currentPath, p.level, f) == Some(p.forest);
  }

  /** Every step of a listed file's walk adds only listed nodes. */
  lemma {:induction false} WalkKeepsListed(t: Forest, all: seq<GitHubFile>, f: GitHubFile, parts: seq<string>,
                                           i: nat, prev: string, level: Level)
    requires f in all && PartsOf(f.path, parts) && i <= |parts|
    requires prev == if i == 0 then "" else Join(parts[..i], '/')
    requires LeavesListed(t, all) && DirsListed(t, all)
    ensures var r := Walk(t, parts, i, prev, level, f);
      r.Some? ==> LeavesListed(r.value, all) && DirsListed(r.value, all)
    decreases |parts| - i
  {
    if i < |parts| {
      var s := Step(t, parts[i], i == |parts| - 1, prev, level, f);
      if s.Some? {
        StepKeepsListed(t, all, f, parts, i, prev, level);
        WalkedPath(parts, i);
        WalkKeepsListed(s.value.forest, all, f, parts, i + 1, s.value.currentPath, s.value.level);
      }
    }
  }

  /** A step of a listed file's walk adds a folder of the file, or the file's own leaf. */
  lemma StepKeepsListed(t: Forest, all: seq<GitHubFile>, f: GitHubFile, parts: seq<string>,
                        i: nat, prev: string, level: Level)
    requires f in all && PartsOf(f.path, parts) && i < |parts|
    requires prev == if i == 0 then "" else Join(parts[..i], '/')
    requires LeavesListed(t, all) && DirsListed(t, all)
    requires Step(t, parts[i], i == |parts| - 1, prev, level, f).Some?
    ensures var s := Step(t, parts[i], i == |parts| - 1, prev, level, f).value;
      LeavesListed(s.forest, all) && DirsListed(s.forest, all)
  {
    WalkedPath(parts, i);
    var k := Join(parts[..i + 1], '/');
    if i + 1 < |parts| {
      WalkedPathIsFolder(f.path, parts, i);
    } else {
      assert parts[..i + 1] == parts;
    }
    var s := Step(t, parts[i], i == |parts| - 1, prev, level, f).value;
    ExtendKeepsListed(t, s.forest, all, k);
  }

  /** A leaf stays a leaf while the tree grows. */
  lemma GrowsKeepsLeaf(t: Forest, t': Forest, f: GitHubFile)
    requires HasLeaf(t, f) && Grows(t, t')
    ensures HasLeaf(t', f)
  {
    assert t'.nodes[f.path] == t.nodes[f.path].(children := t'.nodes[f.path].children);
  }

  lemma GrowsKeepsFolder(t: Forest, t': Forest, k: string)
    requires HasFolder(t, k) && Grows(t, t')
    ensures HasFolder(t', k)
  {
    assert t'.nodes[k] == t.nodes[k].(children := t'.nodes[k].children);
  }

  lemma GrowsKeepsFolders(t: Forest, t': Forest, f: GitHubFile)
    requires FoldersShown(t, f) && Grows(t, t')
    ensures FoldersShown(t', f)
  {
    forall j | 1 <= j < |Split(f.path, '/')|
      ensures HasFolder(t', Join(Split(f.path, '/')[..j], '/'))
    {
      GrowsKeepsFolder(t, t', Join(Split(f.path, '/')[..j], '/'));
    }
  }

  /** Adding listed files one by one leaves each of them as a leaf. */
  lemma {:induction false} AddFilesPlacesAll(t: Forest, all: seq<GitHubFile>, files: seq<GitHubFile>)
    requires GoodListing(all) && forall f :: f in files ==> f in all
    requires LeavesListed(t, all) && DirsListed(t, all)
    ensures var r := AddFiles(t, files);
      && r.Some? && LeavesListed(r.value, all) && DirsListed(r.value, all)
      && forall f :: f in files ==> HasLeaf(r.value, f) && FoldersShown(r.value, f)
    decreases |files|
  {
    if |files| > 0 {
      var f := files[0];
      CleanPathParts(f.path);
      ListedUnblocked(t, all, f, Split(f.path, '/'));
      WalkPlacesFile(t, f, Split(f.path, '/'), 0, "", Root);
      WalkKeepsListed(t, all, f, Split(f.path, '/'), 0, "", Root);
      var t1 := AddFile(t, files[0]).value;
      AddFilesPlacesAll(t1, all, files[1..]);
      var r := AddFiles(t1, files[1..]).value;
      GrowsKeepsLeaf(t1, r, files[0]);
      GrowsKeepsFolders(t1, r, files[0]);
      assert forall f :: f in files ==> f == files[0] || f in files[1..];
    }
  }

  /**
   * On a listing GitHub could return, `buildTree` does not throw, every file is a leaf at its
   * own path, every file node is one of the files, and every directory is a folder of one.
   */
  lemma BuildTreeHoldsEveryFile(files: seq<GitHubFile>)
    requires GoodListing(files)
    ensures BuildTree(files).Some?
    ensures var r := BuildTree(files).value;
      && (forall f :: f in files ==> HasLeaf(r, f) && FoldersShown(r, f))
      && LeavesListed(r, files) && DirsListed(r, files)
  {
    PathLeIsTotalPreorder();
    var byPath := SortBy(files, PathLe);
    forall f | f in byPath
      ensures f in files
    {
      assert f in multiset(byPath);
    }
    AddFilesPlacesAll(Forest([], map[]), files, byPath);
    var t := AddFiles(Forest([], map[]), byPath).value;
    forall f | f in files
      ensures HasLeaf(t, f) && FoldersShown(t, f)
    {
      assert f in multiset(files);
      assert f in byPath;
    }
    var r := SortLevels(t);
    SortLevelsSameLevels(t);
    SortLevelsKeepsListed(t, r, files);
  }

  lemma SortLevelsKeepsListed(t: Forest, r: Forest, all: seq<GitHubFile>)
    requires SameLevels(t, r)
    requires LeavesListed(t, all) && DirsListed(t, all)
    requires forall f :: f in all ==> HasLeaf(t, f) && FoldersShown(t, f)
    ensures LeavesListed(r, all) && DirsListed(r, all)
    ensures forall f :: f in all ==> HasLeaf(r, f) && FoldersShown(r, f)
  {
    forall x | x in r.nodes
      ensures r.nodes[x].nodeType == t.nodes[x].nodeType && r.nodes[x].file == t.nodes[x].file
    {
      assert r.nodes[x] == t.nodes[x].(children := r.nodes[x].children);
    }
    forall f | f in all
      ensures FoldersShown(r, f)
    {
      assert FoldersShown(t, f);
    }
  }

  /** In a sorted level every directory comes before every file. */
  lemma DirsBeforeFiles(t: Forest, level: seq<string>, i: nat, j: nat)
    requires forall a, b :: 0 <= a < b < |level| ==> NodeLe(t.nodes, level[a], level[b])
    requires i < j < |level| && level[i] in t.nodes && level[j] in t.nodes
    requires t.nodes[level[j]].nodeType == Dir
    ensures t.nodes[level[i]].nodeType == Dir
  {
    assert NodeLe(t.nodes, level[i], level[j]);
  }

  /** A file listed where a folder of another file is: `buildTree` throws on it. */
  lemma BuildTreeThrowsOnFileUsedAsFolder(fa: GitHubFile, fab: GitHubFile)
    requires fa.path == "a" && fab.path == "a" + "/" + "b"
    ensures BuildTree([fa, fab]).None?
  {
    PathLeIsTotalPreorder();
    ExampleOrder(fa, fab);
    var t1 := ExampleFirstFile(fa);
    ExampleSecondFileThrows(t1, fab);
    assert AddFiles(t1, [fab]).None?;
    assert [fa, fab][1..] == [fab];
  }

  lemma ExampleOrder(fa: GitHubFile, fab: GitHubFile)
    requires fa.path == "a" && fab.path == "a" + "/" + "b"
    ensures TotalPreorder(PathLe) && SortBy([fa, fab], PathLe) == [fa, fab]
  {
    PathLeIsTotalPreorder();
    assert PathLe(fa, fab);
    assert [fa, fab][1..] == [fab];
    assert SortBy([fab], PathLe) == [fab];
  }

  /** Adding the file `a` to an empty tree makes a file node at `a`. */
  lemma ExampleFirstFile(fa: GitHubFile) returns (t1: Forest)
    requires fa.path == "a"
    ensures AddFile(Forest([], map[]), fa) == Some(t1)
    ensures t1.nodes.Keys == {"a"} && t1.nodes["a"].nodeType == File
  {
    var e := Forest([], map[]);
    assert Split("a", '/') == ["a"];
    var s := Step(e, "a", true, "", Root, fa);
    assert s.Some? && s.value.forest.nodes.Keys == {"a"};
    assert Walk(e, ["a"], 0, "", Root, fa) == Walk(s.value.forest, ["a"], 1, "a", Root, fa);
    t1 := s.value.forest;
  }

  /** Walking `a/b` through the file node `a` reaches an `undefined` level and throws. */
  lemma ExampleSecondFileThrows(t: Forest, fab: GitHubFile)
    requires "a" in t.nodes && t.nodes["a"].nodeType == File && "a" + "/" + "b" !in t.nodes
    requires fab.path == "a" + "/" + "b"
    ensures AddFile(t, fab).None?
  {
    var p := "a" + "/" + "b";
    assert p[1] == '/' && p[..1] == "a" && p[2..] == "b";
    assert IndexOf(p, '/') == 1;
    assert Split("b", '/') == ["b"];
    var parts := Split(p, '/');
    assert parts == ["a", "b"];
    var s := Step(t, "a", false, "", Root, fab).value;
    assert s.forest == t && s.level == Undefined && s.currentPath == "a";
    assert ChildPath("a", "b") == p;
    assert Walk(t, parts, 0, "", Root, fab) == Walk(t, parts, 1, "a", Undefined, fab);
  }

  // ---------------------------------------------------------------- expanding and clicking

  /** `handleToggleExpand`: flip whether `path` is expanded. */
  function Toggle(expanded: set<string>, path: string): (r: set<string>)
    ensures path in r <==> path !in expanded
    ensures forall p :: p != path ==> (p in r <==> p in expanded)
  {
    if path in expanded then expanded - {path} else expanded + {path}
  }

  /** Toggling the same path twice restores the set. */
  lemma ToggleTwice(expanded: set<string>, path: string)
    ensures Toggle(Toggle(expanded, path), path) == expanded
  {
  }

  /** What a click on a tree row does. */
  datatype TreeClick = ToggleExpand(path: string) | SelectFile(file: GitHubFile) | NoEffect

  /** `handleClick`: a directory toggles, a file node selects its file. */
  function ClickNode(node: TreeNode): (r: TreeClick)
    ensures node.nodeType == Dir ==> r == ToggleExpand(node.path)
    ensures node.nodeType == File && node.file.Some? ==> r == SelectFile(node.file.value)
    ensures node.nodeType == File && node.file.None? ==> r == NoEffect
  {
    if node.nodeType == Dir then ToggleExpand(node.path)
    else if node.file.Some? then SelectFile(node.file.value)
    else NoEffect
  }

  /** In a built tree a click never does nothing: every file node carries its file. */
  lemma ClickInWellFormedTree(t: Forest, k: string)
    requires WellFormed(t) && k in t.nodes
    ensures ClickNode(t.nodes[k]) != NoEffect
    ensures t.nodes[k].nodeType == Dir ==> ClickNode(t.nodes[k]) == ToggleExpand(k)
  {
  }
}
