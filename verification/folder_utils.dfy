/**
 * The folder listing and query parsing of the search box
 * (components/SearchBar/utils/folderUtils.ts): from a flat list of file paths,
 * the entries directly inside one folder, folders first.
 */
module FolderUtils {
  import opened Wrappers
  import opened Seqs
  import opened Sorting
  import opened Strings
  import opened GitHub

  // ---------------------------------------------------------------- parseQuery

  datatype Query = Query(beforeAt: string, afterAt: string)

  /** `parseQuery`: split the input at its last '@'. */
  function ParseQuery(input: string): (q: Query)
    ensures '@' !in input ==> q == Query(input, "")
    ensures '@' in input ==> q.beforeAt + "@" + q.afterAt == input && '@' !in q.afterAt
  {
    var at := LastIndexOf(input, '@');
    if at == -1 then Query(input, "")
    else
      SplitAround(input, at);
      Query(input[..at], input[at + 1..])
  }

  lemma SplitAround(input: string, at: nat)
    requires at < |input| && input[at] == '@'
    ensures input[..at] + "@" + input[at + 1..] == input
  {
  }

  /** Whatever precedes it, an '@'-free tail after the last '@' is recovered. */
  lemma ParseQueryAfterAt(before: string, after: string)
    requires '@' !in after
    ensures ParseQuery(before + "@" + after) == Query(before, after)
  {
    var input := before + "@" + after;
    var at := LastIndexOf(input, '@');
    assert input[|before|] == '@';
    assert input[|before| + 1..] == after;
    assert at == |before|;
    assert input[..at] == before;
  }

  // ---------------------------------------------------------------- placement

  /** Where one file path lies relative to the folder being listed. */
  datatype Placement = Outside | Direct | Below(folder: string)

  /** The path of child folder `name` of `path` (the root is ""). */
  function FolderPath(path: string, name: string): string {
    if path != "" then path + "/" + name else name
  }

  /** The prefix every path inside folder `path` starts with. */
  function Inside(path: string): string {
    if path != "" then path + "/" else ""
  }

  /** The per-file decision of `getItemsForPath`, branch for branch. */
  function Place(filePath: string, path: string): Placement {
    if path != "" && !StartsWith(filePath, path + "/") then Outside
    else if path == "" && '/' in filePath && !StartsWith(filePath, "/") then
      var firstSlash := IndexOf(filePath, '/');
      if firstSlash > 0 then Below(filePath[..firstSlash]) else Outside
    else
      var relative := if path != "" then filePath[|path| + 1..] else filePath;
      var firstSlash := IndexOf(relative, '/');
      if firstSlash == -1 then Direct
      else if firstSlash > 0 then Below(relative[..firstSlash])
      else Outside
  }

  /**
   * A direct entry is inside the folder with no further '/'; a file below a child
   * folder is inside the folder, and the child's name is a non-empty '/'-free segment
   * followed by '/'.
   */
  lemma PlaceMeans(filePath: string, path: string)
    ensures Place(filePath, path) == Direct ==>
      StartsWith(filePath, Inside(path)) && '/' !in filePath[|Inside(path)|..]
    ensures Place(filePath, path).Below? ==>
      var name := Place(filePath, path).folder;
      && name != "" && '/' !in name
      && StartsWith(filePath, Inside(path) + name + "/")
  {
    var pre := Inside(path);
    if path != "" && !StartsWith(filePath, path + "/") {
    } else if path == "" && '/' in filePath && !StartsWith(filePath, "/") {
      assert pre == "" && filePath[|pre|..] == filePath;
      SegmentMeans(filePath, pre);
    } else {
      assert StartsWith(filePath, pre);
      SegmentMeans(filePath, pre);
    }
  }

  /** The first '/'-segment after a prefix, when it is followed by '/', begins the rest. */
  lemma SegmentMeans(filePath: string, pre: string)
    requires StartsWith(filePath, pre)
    ensures var relative := filePath[|pre|..];
      var k := IndexOf(relative, '/');
      && (k == -1 ==> '/' !in relative)
      && (k > 0 ==> relative[..k] != "" && '/' !in relative[..k] && StartsWith(filePath, pre + relative[..k] + "/"))
  {
    var relative := filePath[|pre|..];
    var k := IndexOf(relative, '/');
    if k > 0 {
      var name := relative[..k];
      assert filePath == pre + relative;
      assert relative[..k + 1] == name + "/";
      assert filePath[..|pre| + k + 1] == pre + name + "/";
    }
  }

  // ---------------------------------------------------------------- listing

  /** An entry of the listing: an input file, or a folder made up from a deeper path. */
  datatype ListingEntry = Listed(file: GitHubFile) | Folder(name: string, path: string)

  /** `createFolderItem`. */
  function AsGitHubFile(e: ListingEntry): GitHubFile {
    match e
    case Listed(f) => f
    case Folder(name, path) => GitHubFile(name, path, Dir, Some(0), "", None)
  }

  predicate IsFolderPath(items: seq<ListingEntry>, p: string) {
    exists i :: 0 <= i < |items| && items[i].Folder? && items[i].path == p
  }

  predicate DistinctFolders(items: seq<ListingEntry>) {
    forall i, j :: 0 <= i < j < |items| && items[i].Folder? && items[j].Folder? ==> items[i].path != items[j].path
  }

  lemma FolderPathsAppend(items: seq<ListingEntry>, e: ListingEntry)
    ensures forall p :: IsFolderPath(items + [e], p) <==> IsFolderPath(items, p) || (e.Folder? && e.path == p)
  {
    forall p
      ensures IsFolderPath(items + [e], p) <==> IsFolderPath(items, p) || (e.Folder? && e.path == p)
    {
      if IsFolderPath(items, p) {
        var i :| 0 <= i < |items| && items[i].Folder? && items[i].path == p;
        assert (items + [e])[i] == items[i];
      }
      if e.Folder? && e.path == p {
        assert (items + [e])[|items|] == e;
      }
      if IsFolderPath(items + [e], p) {
        var i :| 0 <= i < |items + [e]| && (items + [e])[i].Folder? && (items + [e])[i].path == p;
        if i < |items| {
          assert (items + [e])[i] == items[i];
        }
      }
    }
  }

  /** Why an entry is in the listing of `path`. */
  predicate Justified(e: ListingEntry, files: seq<GitHubFile>, path: string) {
    match e
    case Listed(f) => f in files && Place(f.path, path) == Direct
    case Folder(name, p) => p == FolderPath(path, name) && exists f :: f in files && Place(f.path, path) == Below(name)
  }

  lemma FolderPathInjective(path: string, a: string, b: string)
    requires FolderPath(path, a) == FolderPath(path, b)
    ensures a == b
  {
    if path != "" {
      assert a == FolderPath(path, a)[|path| + 1..];
    }
  }

  /**
   * The `forEach` of `getItemsForPath`: `folders` is the set of folder paths already
   * emitted, `items` the entries so far.
   */
  function Collect(files: seq<GitHubFile>, path: string, folders: set<string>, items: seq<ListingEntry>): (r: seq<ListingEntry>)
    requires forall p :: p in folders <==> IsFolderPath(items, p)
    requires DistinctFolders(items)
    requires forall e :: e in items && e.Folder? ==> e.path == FolderPath(path, e.name)
    ensures items <= r
    ensures DistinctFolders(r)
    ensures forall e :: e in r ==> e in items || Justified(e, files, path)
    ensures forall f :: f in files && Place(f.path, path) == Direct ==> Listed(f) in r
    ensures forall f :: f in files && Place(f.path, path).Below? ==>
      Folder(Place(f.path, path).folder, FolderPath(path, Place(f.path, path).folder)) in r
    decreases |files|
  {
    if |files| == 0 then items
    else
      var f := files[0];
      assert files == [f] + files[1..];
      match Place(f.path, path)
      case Outside => Collect(files[1..], path, folders, items)
      case Direct =>
        FolderPathsAppend(items, Listed(f));
        var r := Collect(files[1..], path, folders, items + [Listed(f)]);
        assert r[|items|] == Listed(f);
        r
      case Below(name) =>
        var full := FolderPath(path, name);
        FolderPathsAppend(items, Folder(name, full));
        if full in folders then
          assert IsFolderPath(items, full);
          var i :| 0 <= i < |items| && items[i].Folder? && items[i].path == full;
          assert items[i] in items;
          FolderPathInjective(path, items[i].name, name);
          Collect(files[1..], path, folders, items)
        else
          Collect(files[1..], path, folders + {full}, items + [Folder(name, full)])
  }

  /** The walk lists a direct file once for each time it occurs in the input. */
  lemma {:induction false} CollectCounts(files: seq<GitHubFile>, path: string, folders: set<string>,
                                         items: seq<ListingEntry>, g: GitHubFile)
    requires forall p :: p in folders <==> IsFolderPath(items, p)
    requires DistinctFolders(items)
    requires forall e :: e in items && e.Folder? ==> e.path == FolderPath(path, e.name)
    requires Place(g.path, path) == Direct
    ensures multiset(Collect(files, path, folders, items))[Listed(g)] == multiset(items)[Listed(g)] + multiset(files)[g]
    decreases |files|
  {
    if |files| > 0 {
      var f := files[0];
      assert files == [f] + files[1..];
      assert multiset(files)[g] == multiset([f])[g] + multiset(files[1..])[g];
      match Place(f.path, path)
      case Outside =>
        CollectCounts(files[1..], path, folders, items, g);
      case Direct =>
        FolderPathsAppend(items, Listed(f));
        CollectCounts(files[1..], path, folders, items + [Listed(f)], g);
        assert multiset(items + [Listed(f)]) == multiset(items) + multiset{Listed(f)};
      case Below(name) =>
        var full := FolderPath(path, name);
        FolderPathsAppend(items, Folder(name, full));
        if full in folders {
          CollectCounts(files[1..], path, folders, items, g);
        } else {
          CollectCounts(files[1..], path, folders + {full}, items + [Folder(name, full)], g);
          assert multiset(items + [Folder(name, full)]) == multiset(items) + multiset{Folder(name, full)};
        }
    }
  }

  /** Folders before files; within a kind, by name. */
  predicate EntryLe(a: ListingEntry, b: ListingEntry) {
    var x := AsGitHubFile(a);
    var y := AsGitHubFile(b);
    (x.fileType == Dir && y.fileType == File) || (x.fileType == y.fileType && StrLe(x.name, y.name))
  }

  lemma EntryLeIsTotalPreorder()
    ensures TotalPreorder(EntryLe)
  {
    forall a, b
      ensures EntryLe(a, b) || EntryLe(b, a)
    {
      StrLeTotal(AsGitHubFile(a).name, AsGitHubFile(b).name);
    }
    forall a, b, c | EntryLe(a, b) && EntryLe(b, c)
      ensures EntryLe(a, c)
    {
      var x, y, z := AsGitHubFile(a), AsGitHubFile(b), AsGitHubFile(c);
      if x.fileType == y.fileType == z.fileType {
        StrLeTransitive(x.name, y.name, z.name);
      }
    }
  }

  /** `getItemsForPath` before the conversion to file records: collected, then sorted. */
  function ListFolder(files: seq<GitHubFile>, path: string): (r: seq<ListingEntry>)
    ensures forall e :: e in r ==> Justified(e, files, path)
    ensures forall f :: f in files && Place(f.path, path) == Direct ==> Listed(f) in r
    ensures forall f :: f in files && Place(f.path, path).Below? ==>
      Folder(Place(f.path, path).folder, FolderPath(path, Place(f.path, path).folder)) in r
    ensures forall i, j :: 0 <= i < j < |r| ==> EntryLe(r[i], r[j])
    ensures forall i, j :: 0 <= i < j < |r| && r[i].Folder? && r[j].Folder? ==> r[i].path != r[j].path
    ensures forall f: GitHubFile :: Place(f.path, path) == Direct ==> multiset(r)[Listed(f)] == multiset(files)[f]
  {
    var collected := Collect(files, path, {}, []);
    EntryLeIsTotalPreorder();
    var r := SortBy(collected, EntryLe);
    assert forall e :: e in r <==> e in collected by {
      forall e
        ensures e in r <==> e in collected
      {
        assert e in r <==> e in multiset(r);
        assert e in collected <==> e in multiset(collected);
      }
    }
    SortedDistinctFolders(collected, r, path);
    forall g: GitHubFile | Place(g.path, path) == Direct
      ensures multiset(r)[Listed(g)] == multiset(files)[g]
    {
      CollectCounts(files, path, {}, [], g);
    }
    r
  }

  /** Reordering keeps folder paths distinct when each folder's path determines its name. */
  lemma SortedDistinctFolders(a: seq<ListingEntry>, b: seq<ListingEntry>, path: string)
    requires DistinctFolders(a) && multiset(a) == multiset(b)
    requires forall e :: e in b && e.Folder? ==> e.path == FolderPath(path, e.name)
    ensures DistinctFolders(b)
  {
    forall i, j | 0 <= i < j < |b| && b[i].Folder? && b[j].Folder?
      ensures b[i].path != b[j].path
    {
      if b[i].path == b[j].path {
        assert b[i] in b && b[j] in b;
        FolderPathInjective(path, b[i].name, b[j].name);
        assert b[i] == b[j];
        TwoPositionsTwice(b, i, j);
        FolderOnce(a, b[i]);
        assert false;
      }
    }
  }

  /** With distinct folder paths, a folder entry occurs at most once. */
  lemma {:induction false} FolderOnce(a: seq<ListingEntry>, e: ListingEntry)
    requires DistinctFolders(a) && e.Folder?
    ensures multiset(a)[e] <= 1
    decreases |a|
  {
    if |a| > 0 {
      assert a == [a[0]] + a[1..];
      FolderOnce(a[1..], e);
      if a[0] == e {
        assert e !in a[1..] by {
          forall k | 0 <= k < |a[1..]|
            ensures a[1..][k] != e
          {
            assert a[1..][k] == a[k + 1];
          }
        }
      }
    }
  }

  /** `getItemsForPath`. */
  function GetItemsForPath(files: seq<GitHubFile>, path: string): (r: seq<GitHubFile>)
    ensures path != "" ==> forall item :: item in r ==> StartsWith(item.path, path + "/")
    ensures forall i, j :: 0 <= i < j < |r| && r[j].fileType == Dir ==> r[i].fileType == Dir
    ensures forall i, j :: 0 <= i < j < |r| && r[i].fileType == r[j].fileType ==> StrLe(r[i].name, r[j].name)
    ensures |r| == |ListFolder(files, path)|
    ensures forall i :: 0 <= i < |r| ==> r[i] == AsGitHubFile(ListFolder(files, path)[i])
    ensures forall f :: f in files && Place(f.path, path) == Direct ==> f in r
    ensures forall f :: f in files && Place(f.path, path).Below? ==>
      GitHubFile(Place(f.path, path).folder, FolderPath(path, Place(f.path, path).folder), Dir, Some(0), "", None) in r
  {
    var entries := ListFolder(files, path);
    ListingInsideFolder(files, path);
    ItemsOrdered(entries);
    ItemsInside(entries, path);
    AsItems(entries)
  }

  /** A sorted listing gives items with folders first and each kind ordered by name. */
  lemma ItemsOrdered(entries: seq<ListingEntry>)
    requires forall i, j :: 0 <= i < j < |entries| ==> EntryLe(entries[i], entries[j])
    ensures var r := AsItems(entries);
      && (forall i, j :: 0 <= i < j < |r| && r[j].fileType == Dir ==> r[i].fileType == Dir)
      && (forall i, j :: 0 <= i < j < |r| && r[i].fileType == r[j].fileType ==> StrLe(r[i].name, r[j].name))
  {
    var r := AsItems(entries);
    forall i, j | 0 <= i < j < |r|
      ensures r[j].fileType == Dir ==> r[i].fileType == Dir
      ensures r[i].fileType == r[j].fileType ==> StrLe(r[i].name, r[j].name)
    {
      assert EntryLe(entries[i], entries[j]);
    }
  }

  /** Entries inside the folder `path` give items inside it. */
  lemma ItemsInside(entries: seq<ListingEntry>, path: string)
    requires path != "" ==> forall e :: e in entries ==> StartsWith(AsGitHubFile(e).path, path + "/")
    ensures path != "" ==> forall item :: item in AsItems(entries) ==> StartsWith(item.path, path + "/")
  {
    var r := AsItems(entries);
    forall item | item in r && path != ""
      ensures StartsWith(item.path, path + "/")
    {
      var i :| 0 <= i < |r| && r[i] == item;
      assert entries[i] in entries;
    }
  }

  /** The listing converted entry by entry into file records. */
  function AsItems(entries: seq<ListingEntry>): (r: seq<GitHubFile>)
    ensures |r| == |entries|
    ensures forall i :: 0 <= i < |r| ==> r[i] == AsGitHubFile(entries[i])
    ensures forall e :: e in entries ==> AsGitHubFile(e) in r
  {
    var r := seq(|entries|, i requires 0 <= i < |entries| => AsGitHubFile(entries[i]));
    forall e | e in entries
      ensures AsGitHubFile(e) in r
    {
      var i :| 0 <= i < |entries| && entries[i] == e;
      assert r[i] == AsGitHubFile(e);
    }
    r
  }

  /** With a non-empty folder path, every listed path is inside that folder. */
  lemma ListingInsideFolder(files: seq<GitHubFile>, path: string)
    ensures path != "" ==> forall e :: e in ListFolder(files, path) ==> StartsWith(AsGitHubFile(e).path, path + "/")
  {
    var entries := ListFolder(files, path);
    forall e | e in entries && path != ""
      ensures StartsWith(AsGitHubFile(e).path, path + "/")
    {
      match e
      case Listed(f) => PlaceMeans(f.path, path);
      case Folder(name, p) => assert p[..|path| + 1] == path + "/";
    }
  }

  /** A file record with just a name and a path. */
  function Blob(name: string, path: string): GitHubFile {
    GitHubFile(name, path, File, Some(1), "", None)
  }

  function ExampleFiles(): seq<GitHubFile> {
    [Blob("b.ts", "a/b.ts"), Blob("d.ts", "a/c/d.ts"), Blob("e.ts", "e.ts")]
  }

  lemma ExamplePlacesAtRoot()
    ensures Place(ExampleFiles()[0].path, "") == Below("a")
    ensures Place(ExampleFiles()[1].path, "") == Below("a")
    ensures Place(ExampleFiles()[2].path, "") == Direct
  {
    ExamplePaths();
    BelowAtRoot("a", "b.ts");
    BelowAtRoot("a", "c" + "/" + "d.ts");
    DirectAtRoot("e.ts");
  }

  lemma ExamplePlacesInA()
    ensures Place(ExampleFiles()[0].path, "a") == Direct
    ensures Place(ExampleFiles()[1].path, "a") == Below("c")
    ensures Place(ExampleFiles()[2].path, "a") == Outside
  {
    ExamplePaths();
    DirectInA("b.ts");
    BelowInA("c", "d.ts");
    OutsideA("e.ts");
  }

  /** The example's paths, written as the pieces the placement lemmas take. */
  lemma ExamplePaths()
    ensures ExampleFiles()[0].path == "a" + "/" + "b.ts" == "a/" + "b.ts"
    ensures ExampleFiles()[1].path == "a" + "/" + ("c" + "/" + "d.ts") == "a/" + "c" + "/" + "d.ts"
    ensures ExampleFiles()[2].path == "e.ts"
    ensures '/' !in "e.ts" && '/' !in "b.ts" && '/' !in "a" && '/' !in "c"
  {
    var e := "e.ts";
    assert e[0] == 'e' && e[1] == '.' && e[2] == 't' && e[3] == 's';
    var b := "b.ts";
    assert b[0] == 'b' && b[1] == '.' && b[2] == 't' && b[3] == 's';
  }

  lemma BelowAtRoot(name: string, rest: string)
    requires name != "" && '/' !in name
    ensures Place(name + "/" + rest, "") == Below(name)
  {
    var p := name + "/" + rest;
    assert p[|name|] == '/' && p[..|name|] == name;
    IndexOfIs(p, '/', |name|);
    assert p[0] != '/';
  }

  lemma DirectAtRoot(p: string)
    requires '/' !in p
    ensures Place(p, "") == Direct
  {
  }

  lemma OutsideA(p: string)
    requires |p| > 0 && p[0] != 'a'
    ensures Place(p, "a") == Outside
  {
  }

  lemma DirectInA(rest: string)
    requires '/' !in rest
    ensures Place("a/" + rest, "a") == Direct
  {
    var p := "a/" + rest;
    assert StartsWith(p, "a" + "/") by { assert p[..2] == "a/"; }
    assert p[2..] == rest;
  }

  lemma BelowInA(name: string, rest: string)
    requires name != "" && '/' !in name
    ensures Place("a/" + name + "/" + rest, "a") == Below(name)
  {
    var p := "a/" + name + "/" + rest;
    assert StartsWith(p, "a" + "/") by { assert p[..2] == "a/"; }
    var relative := p[2..];
    assert relative == name + "/" + rest;
    assert relative[|name|] == '/';
    assert relative[..|name|] == name;
    IndexOfIs(relative, '/', |name|);
  }

  /** The listing of one folder, given the entries collected for it in order. */
  lemma ListedFromCollected(files: seq<GitHubFile>, path: string, folder: ListingEntry, file: GitHubFile)
    requires Collect(files, path, {}, []) == [folder, Listed(file)]
    requires folder.Folder? && file.fileType == File
    ensures GetItemsForPath(files, path) == [AsGitHubFile(folder), file]
  {
    ListFolderPair(files, path, folder, file);
    var r := ListFolder(files, path);
    var g := GetItemsForPath(files, path);
    assert |g| == 2 && g[0] == AsGitHubFile(r[0]) && g[1] == AsGitHubFile(r[1]);
  }

  lemma ListedFromCollectedReversed(files: seq<GitHubFile>, path: string, folder: ListingEntry, file: GitHubFile)
    requires Collect(files, path, {}, []) == [Listed(file), folder]
    requires folder.Folder? && file.fileType == File
    ensures GetItemsForPath(files, path) == [AsGitHubFile(folder), file]
  {
    ListFolderPair(files, path, folder, file);
    var r := ListFolder(files, path);
    var g := GetItemsForPath(files, path);
    assert |g| == 2 && g[0] == AsGitHubFile(r[0]) && g[1] == AsGitHubFile(r[1]);
  }

  lemma ListFolderPair(files: seq<GitHubFile>, path: string, folder: ListingEntry, file: GitHubFile)
    requires Collect(files, path, {}, []) == [folder, Listed(file)] || Collect(files, path, {}, []) == [Listed(file), folder]
    requires folder.Folder? && file.fileType == File
    ensures ListFolder(files, path) == [folder, Listed(file)]
  {
    var collected := Collect(files, path, {}, []);
    var r := ListFolder(files, path);
    EntryLeIsTotalPreorder();
    assert r == SortBy(collected, EntryLe);
    assert multiset(r) == multiset(collected);
    if collected == [folder, Listed(file)] {
      assert multiset(collected) == multiset{folder, Listed(file)};
    } else {
      assert multiset(collected) == multiset{folder, Listed(file)};
    }
    assert AsGitHubFile(folder).fileType == Dir;
    assert !EntryLe(Listed(file), folder);
    SortedPair(r, folder, Listed(file));
  }

  /** A sorted arrangement of two elements, the second not below the first, keeps their order. */
  lemma SortedPair(r: seq<ListingEntry>, x: ListingEntry, y: ListingEntry)
    requires multiset(r) == multiset{x, y}
    requires forall i, j :: 0 <= i < j < |r| ==> EntryLe(r[i], r[j])
    requires !EntryLe(y, x)
    ensures r == [x, y]
  {
    assert |r| == 2;
    assert r == [r[0], r[1]];
    assert multiset(r) == multiset{r[0], r[1]};
    assert EntryLe(r[0], r[1]);
    assert x in multiset(r);
    assert r[0] == x;
    assert multiset{r[1]} == multiset{y};
  }

  /** Collecting three files: a new folder, the same folder again, then a direct file. */
  lemma CollectFolderFolderFile(f: seq<GitHubFile>, path: string, name: string)
    requires |f| == 3
    requires Place(f[0].path, path) == Below(name) && Place(f[1].path, path) == Below(name)
    requires Place(f[2].path, path) == Direct
    ensures Collect(f, path, {}, []) == [Folder(name, FolderPath(path, name)), Listed(f[2])]
  {
    var full := FolderPath(path, name);
    var first := [Folder(name, full)];
    var last := first + [Listed(f[2])];
    CollectFolderStep(f, f[1..], path, {}, [], {full}, first);
    CollectSkipStep(f[1..], f[2..], path, {full}, first);
    CollectDirectStep(f[2..], [], path, {full}, first, last);
  }

  /** Collecting three files: a direct file, a new folder, then a file outside. */
  lemma CollectFileFolderOutside(f: seq<GitHubFile>, path: string, name: string)
    requires |f| == 3
    requires Place(f[0].path, path) == Direct && Place(f[1].path, path) == Below(name)
    requires Place(f[2].path, path) == Outside
    ensures Collect(f, path, {}, []) == [Listed(f[0]), Folder(name, FolderPath(path, name))]
  {
    var full := FolderPath(path, name);
    var first := [Listed(f[0])];
    var last := first + [Folder(name, full)];
    CollectDirectStep(f, f[1..], path, {}, [], first);
    assert f[1..][0] == f[1] && f[2..][0] == f[2];
    assert {} + {full} == {full};
    CollectFolderStep(f[1..], f[2..], path, {}, first, {full}, last);
    CollectSkipStep(f[2..], [], path, {full}, last);
  }

  /** The bookkeeping `Collect` requires of its accumulators. */
  ghost predicate Bookkeeping(path: string, folders: set<string>, items: seq<ListingEntry>) {
    && (forall p :: p in folders <==> IsFolderPath(items, p))
    && DistinctFolders(items)
    && (forall e :: e in items && e.Folder? ==> e.path == FolderPath(path, e.name))
  }

  /** One step of `Collect` on a file directly in the folder: the file is appended. */
  lemma CollectDirectStep(files: seq<GitHubFile>, rest: seq<GitHubFile>, path: string,
                          folders: set<string>, items: seq<ListingEntry>, items': seq<ListingEntry>)
    requires Bookkeeping(path, folders, items)
    requires |files| > 0 && Place(files[0].path, path) == Direct
    requires rest == files[1..] && items' == items + [Listed(files[0])]
    ensures Bookkeeping(path, folders, items')
    ensures Collect(files, path, folders, items) == Collect(rest, path, folders, items')
  {
    FolderPathsAppend(items, Listed(files[0]));
  }

  /** One step of `Collect` on a file below a child folder not yet listed: the folder is appended. */
  lemma CollectFolderStep(files: seq<GitHubFile>, rest: seq<GitHubFile>, path: string,
                          folders: set<string>, items: seq<ListingEntry>,
                          folders': set<string>, items': seq<ListingEntry>)
    requires Bookkeeping(path, folders, items)
    requires |files| > 0 && Place(files[0].path, path).Below?
    requires FolderPath(path, Place(files[0].path, path).folder) !in folders
    requires rest == files[1..]
    requires folders' == folders + {FolderPath(path, Place(files[0].path, path).folder)}
    requires items' == items + [Folder(Place(files[0].path, path).folder, FolderPath(path, Place(files[0].path, path).folder))]
    ensures Bookkeeping(path, folders', items')
    ensures Collect(files, path, folders, items) == Collect(rest, path, folders', items')
  {
    var name := Place(files[0].path, path).folder;
    FolderPathsAppend(items, Folder(name, FolderPath(path, name)));
  }

  /** One step of `Collect` on a file outside the folder, or below a child folder already listed. */
  lemma CollectSkipStep(files: seq<GitHubFile>, rest: seq<GitHubFile>, path: string,
                        folders: set<string>, items: seq<ListingEntry>)
    requires Bookkeeping(path, folders, items)
    requires |files| > 0 && rest == files[1..]
    requires Place(files[0].path, path) == Outside
      || (Place(files[0].path, path).Below? && FolderPath(path, Place(files[0].path, path).folder) in folders)
    ensures Collect(files, path, folders, items) == Collect(rest, path, folders, items)
  {
  }

  /**
   * Three files `a/b.ts`, `a/c/d.ts`, `e.ts`: the root lists folder `a` then `e.ts`;
   * folder `a` lists folder `a/c` then `a/b.ts`, although `a/b.ts` came first.
   */
  lemma ListingExample()
    ensures GetItemsForPath(ExampleFiles(), "") == [GitHubFile("a", "a", Dir, Some(0), "", None), ExampleFiles()[2]]
    ensures GetItemsForPath(ExampleFiles(), "a") == [GitHubFile("c", "a/c", Dir, Some(0), "", None), ExampleFiles()[0]]
  {
    ListingExampleRoot();
    ListingExampleInA();
  }

  lemma ListingExampleRoot()
    ensures GetItemsForPath(ExampleFiles(), "") == [GitHubFile("a", "a", Dir, Some(0), "", None), ExampleFiles()[2]]
  {
    ExamplePlacesAtRoot();
    ListingFolderFolderFile(ExampleFiles(), "", "a");
  }

  lemma ListingExampleInA()
    ensures GetItemsForPath(ExampleFiles(), "a") == [GitHubFile("c", "a/c", Dir, Some(0), "", None), ExampleFiles()[0]]
  {
    ExamplePlacesInA();
    ExampleFolderPath();
    ListingFileFolderOutside(ExampleFiles(), "a", "c");
  }

  lemma ExampleFolderPath()
    ensures FolderPath("a", "c") == "a/c"
  {
    assert FolderPath("a", "c") == "a" + "/" + "c";
  }

  lemma ListingFolderFolderFile(f: seq<GitHubFile>, path: string, name: string)
    requires |f| == 3 && f[2].fileType == File
    requires Place(f[0].path, path) == Below(name) && Place(f[1].path, path) == Below(name)
    requires Place(f[2].path, path) == Direct
    ensures GetItemsForPath(f, path) == [GitHubFile(name, FolderPath(path, name), Dir, Some(0), "", None), f[2]]
  {
    CollectFolderFolderFile(f, path, name);
    ListedFromCollected(f, path, Folder(name, FolderPath(path, name)), f[2]);
  }

  lemma ListingFileFolderOutside(f: seq<GitHubFile>, path: string, name: string)
    requires |f| == 3 && f[0].fileType == File
    requires Place(f[0].path, path) == Direct && Place(f[1].path, path) == Below(name)
    requires Place(f[2].path, path) == Outside
    ensures GetItemsForPath(f, path) == [GitHubFile(name, FolderPath(path, name), Dir, Some(0), "", None), f[0]]
  {
    CollectFileFolderOutside(f, path, name);
    ListedFromCollectedReversed(f, path, Folder(name, FolderPath(path, name)), f[0]);
  }
}
