/**
 * The file list of the search dropdown (components/SearchBar/components/FileDropdown.tsx):
 * its header, the folder breadcrumb, the Back button, the status line and clicks on entries.
 * Clicks emit the same setter and callback calls as the keyboard handler.
 */
module FileDropdown {
  import opened Wrappers
  import opened Strings
  import opened GitHub
  import opened KeyboardNavigation
  import opened SearchBar

  /** `isRootFileView`: nothing has been typed after the repository name's '/'. */
  predicate IsRootFileView(afterAt: string) {
    PathFragment(afterAt) == ""
  }

  /** The root view is a mention with no '/' or with '/' as its last character only. */
  lemma RootFileViewMeans(afterAt: string)
    ensures IsRootFileView(afterAt) <==> '/' !in afterAt || IndexOf(afterAt, '/') == |afterAt| - 1
  {
  }

  // ---------------------------------------------------------------- breadcrumb

  /** The path behind the `k`-th breadcrumb button: the first `k` segments of `currentPath`, '/'-joined. */
  function CrumbTarget(currentPath: string, k: nat): string
    requires 1 <= k <= |Split(currentPath, '/')|
  {
    Join(Split(currentPath, '/')[..k], '/')
  }

  /** Each target is a prefix of the current path ending where a segment ends. */
  lemma CrumbTargetsArePrefixes(currentPath: string)
    ensures forall k :: 1 <= k <= |Split(currentPath, '/')| ==>
      && StartsWith(currentPath, CrumbTarget(currentPath, k))
      && (k < |Split(currentPath, '/')| ==>
            |CrumbTarget(currentPath, k)| < |currentPath| && currentPath[|CrumbTarget(currentPath, k)|] == '/')
  {
    forall k | 1 <= k <= |Split(currentPath, '/')|
      ensures && StartsWith(currentPath, CrumbTarget(currentPath, k))
              && (k < |Split(currentPath, '/')| ==>
                    |CrumbTarget(currentPath, k)| < |currentPath| && currentPath[|CrumbTarget(currentPath, k)|] == '/')
    {
      JoinSplitPrefix(currentPath, '/', k);
    }
  }

  /** The last target is the current path itself. */
  lemma LastCrumbTarget(currentPath: string)
    ensures CrumbTarget(currentPath, |Split(currentPath, '/')|) == currentPath
  {
    var segments := Split(currentPath, '/');
    JoinSplit(currentPath, '/');
    assert segments[..|segments|] == segments;
  }

  /**
   * The click targets of the breadcrumb, one per segment of `currentPath`: target `i`
   * is the prefix made of exactly the first `i + 1` segments.
   */
  function CrumbTargets(currentPath: string): (r: seq<string>)
    ensures |r| == |Split(currentPath, '/')|
    ensures forall i :: 0 <= i < |r| ==> StartsWith(currentPath, r[i])
    ensures forall i :: 0 <= i < |r| ==> Split(r[i], '/') == Split(currentPath, '/')[..i + 1]
    ensures forall i :: 0 <= i < |r| - 1 ==> |r[i]| < |currentPath| && currentPath[|r[i]|] == '/'
    ensures r[|r| - 1] == currentPath
  {
    TargetListFacts(currentPath);
    TargetList(currentPath)
  }

  function TargetList(currentPath: string): seq<string> {
    var n := |Split(currentPath, '/')|;
    seq(n, i requires 0 <= i < n => CrumbTarget(currentPath, i + 1))
  }

  lemma TargetListFacts(currentPath: string)
    ensures var r := TargetList(currentPath);
      && |r| == |Split(currentPath, '/')|
      && (forall i :: 0 <= i < |r| ==> StartsWith(currentPath, r[i]))
      && (forall i :: 0 <= i < |r| ==> Split(r[i], '/') == Split(currentPath, '/')[..i + 1])
      && (forall i :: 0 <= i < |r| - 1 ==> |r[i]| < |currentPath| && currentPath[|r[i]|] == '/')
      && r[|r| - 1] == currentPath
  {
    var r := TargetList(currentPath);
    forall i | 0 <= i < |r|
      ensures StartsWith(currentPath, r[i])
      ensures Split(r[i], '/') == Split(currentPath, '/')[..i + 1]
      ensures i < |r| - 1 ==> |r[i]| < |currentPath| && currentPath[|r[i]|] == '/'
    {
      TargetAt(currentPath, i);
    }
    TargetAt(currentPath, |r| - 1);
    LastCrumbTarget(currentPath);
  }

  lemma TargetAt(currentPath: string, i: nat)
    requires i < |Split(currentPath, '/')|
    ensures var r := TargetList(currentPath);
      && |r| == |Split(currentPath, '/')|
      && r[i] == CrumbTarget(currentPath, i + 1)
      && StartsWith(currentPath, r[i])
      && Split(r[i], '/') == Split(currentPath, '/')[..i + 1]
      && (i < |r| - 1 ==> |r[i]| < |currentPath| && currentPath[|r[i]|] == '/')
  {
    JoinSplitPrefix(currentPath, '/', i + 1);
    SplitJoin(Split(currentPath, '/')[..i + 1], '/');
  }

  /** Clicking a breadcrumb entry: `None` is the "root" button, `Some(i)` segment `i`. */
  function CrumbClick(currentPath: string, crumb: Option<nat>): (r: seq<Action>)
    requires crumb.Some? ==> crumb.value < |Split(currentPath, '/')|
    ensures crumb.None? ==> r == [SetCurrentPath("")]
    ensures crumb.Some? ==> |r| == 1 && r[0].SetCurrentPath? && StartsWith(currentPath, r[0].path)
    ensures crumb == Some(|Split(currentPath, '/')| - 1) ==> r == [SetCurrentPath(currentPath)]
  {
    match crumb
    case None => [SetCurrentPath("")]
    case Some(i) => [SetCurrentPath(CrumbTargets(currentPath)[i])]
  }

  /** On `a/b/c` the breadcrumb targets are `a`, `a/b` and `a/b/c`. */
  lemma CrumbTargetsExample()
    ensures CrumbTargets("a" + "/" + "b" + "/" + "c") == ["a", "a" + "/" + "b", "a" + "/" + "b" + "/" + "c"]
  {
    var p := "a" + "/" + "b" + "/" + "c";
    var q := "b" + "/" + "c";
    assert IndexOf("c", '/') == -1;
    assert Split("c", '/') == ["c"];
    assert q[1] == '/' && q[..1] == "b" && q[2..] == "c";
    assert IndexOf(q, '/') == 1;
    assert Split(q, '/') == ["b", "c"];
    assert p[1] == '/' && p[..1] == "a" && p[2..] == q;
    assert IndexOf(p, '/') == 1;
    assert Split(p, '/') == ["a", "b", "c"];
    assert ["a", "b", "c"][..1] == ["a"];
    assert ["a", "b", "c"][..2] == ["a", "b"];
    assert ["a", "b"][1..] == ["b"];
    assert CrumbTarget(p, 1) == "a";
    assert CrumbTarget(p, 2) == "a" + "/" + "b";
    LastCrumbTarget(p);
    var r := CrumbTargets(p);
    assert r[0] == "a" && r[1] == "a" + "/" + "b" && r[2] == p;
  }

  // ---------------------------------------------------------------- buttons and clicks

  /** The Back button: back to the repository list with the text before the mention. */
  function Back(beforeAt: string): (r: seq<Action>)
    ensures SetDropdownOpen(false) !in r
    ensures SetQuery(beforeAt) in r && SetCurrentPath("") in r
  {
    [SetMode(Repos), SetSelectedRepo(None), SetQuery(beforeAt), SetCurrentPath("")]
  }

  /** Back does what Escape does at the root of the file list, except that the dropdown stays open. */
  lemma BackIsEscapeWithoutClosing(c: Context)
    requires c.mode == Files && c.currentPath == ""
    ensures HandleEscape(c) == [SetDropdownOpen(false)] + Back(c.beforeAt)
  {
  }

  /** `branch || selectedRepo.default_branch`: an absent or empty branch means the default one. */
  function EffectiveBranch(branch: Option<string>, repo: GitHubRepo): (b: string)
    ensures branch.Some? && branch.value != "" ==> b == branch.value
    ensures branch.None? || branch.value == "" ==> b == repo.defaultBranch
  {
    if branch.Some? && branch.value != "" then branch.value else repo.defaultBranch
  }

  /** The header shows `: <branch>` only for a set branch other than the default. */
  predicate ShowBranchLabel(branch: Option<string>, repo: GitHubRepo) {
    branch.Some? && branch.value != "" && branch.value != repo.defaultBranch
  }

  /** The label is hidden exactly when files open on the default branch. */
  lemma BranchLabelIffNotDefault(branch: Option<string>, repo: GitHubRepo)
    ensures !ShowBranchLabel(branch, repo) <==> EffectiveBranch(branch, repo) == repo.defaultBranch
  {
  }

  /** A click on an entry: a folder is opened in place; a file is committed on the effective branch and the dropdown closes. */
  function ClickEntry(file: GitHubFile, repo: GitHubRepo, branch: Option<string>): (r: seq<Action>)
    ensures file.fileType == Dir ==> r == [NavigateToFolder(file.path)]
    ensures file.fileType == File ==> r == [FileSelect(Some(repo), file, Some(EffectiveBranch(branch, repo))), SetDropdownOpen(false)]
  {
    if file.fileType == Dir then [NavigateToFolder(file.path)]
    else [FileSelect(Some(repo), file, Some(EffectiveBranch(branch, repo))), SetDropdownOpen(false)]
  }

  /**
   * Clicking an entry and pressing Enter on it do the same, except that the click also names
   * the branch.
   */
  lemma ClickAgreesWithEnter(c: Context, repo: GitHubRepo, branch: Option<string>)
    requires c.isDropdownOpen && c.mode == Files && 0 <= c.selectedIndex < |c.searchResults|
    requires c.selectedRepo == Some(repo)
    ensures var item := c.searchResults[c.selectedIndex];
      var click := ClickEntry(item, repo, branch);
      var enter := HandleKeyDown(c, Enter);
      && |click| == |enter|
      && (item.fileType == Dir ==> click == enter)
      && (item.fileType == File ==> click[1..] == enter[1..] && click[0].(branch := None) == enter[0])
  {
  }

  // ---------------------------------------------------------------- status

  /** What the list area shows. */
  datatype Status = BuildingIndex | Searching | NoFilesFound | StartTyping | Results

  /** The list area: building the index wins over searching, which wins over the results. */
  function StatusOf(isCacheBuilding: bool, isSearching: bool, results: seq<GitHubFile>, afterAt: string): (r: Status)
    ensures isCacheBuilding ==> r == BuildingIndex
    ensures !isCacheBuilding && isSearching ==> r == Searching
    ensures r == Results <==> !isCacheBuilding && !isSearching && |results| > 0
    ensures r == StartTyping <==> !isCacheBuilding && !isSearching && |results| == 0 && IsRootFileView(afterAt)
    ensures r == NoFilesFound <==> !isCacheBuilding && !isSearching && |results| == 0 && !IsRootFileView(afterAt)
  {
    if isCacheBuilding then BuildingIndex
    else if isSearching then Searching
    else if |results| == 0 then (if PathFragment(afterAt) != "" then NoFilesFound else StartTyping)
    else Results
  }

  /** The header's word after the repository name. */
  function HeaderStatus(isCacheBuilding: bool, isSearching: bool): (r: string)
    ensures isCacheBuilding ==> r == "Loading files..."
    ensures !isCacheBuilding && isSearching ==> r == "Searching..."
    ensures !isCacheBuilding && !isSearching ==> r == "Files"
  {
    if isCacheBuilding then "Loading files..." else if isSearching then "Searching..." else "Files"
  }
}
