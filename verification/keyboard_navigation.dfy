/**
 * The keyboard handling of the search box's dropdown
 * (components/SearchBar/hooks/useKeyboardNavigation.ts). A key press does not change
 * state itself: it emits the setter and callback calls the component would make, in order.
 */
module KeyboardNavigation {
  import opened Wrappers
  import opened Strings
  import opened GitHub

  /** What the dropdown lists: repositories, files of the selected repository, or its branches. */
  datatype Mode = Repos | Files | Branches

  datatype Key = ArrowUp | ArrowDown | Enter | Escape | OtherKey

  /** One setter or callback call made by a key handler. */
  datatype Action =
    | SetSelectedIndex(index: int)
    | SelectRepository(repo: GitHubRepo)
    | NavigateToFolder(path: string)
    | FileSelect(selectedRepo: Option<GitHubRepo>, file: GitHubFile, branch: Option<string>)
    | SetDropdownOpen(open: bool)
    | SetMode(mode: Mode)
    | SetSelectedRepo(selected: Option<GitHubRepo>)
    | SetQuery(query: string)
    | SetCurrentPath(path: string)

  /** What the handler sees when a key is pressed. */
  datatype Context = Context(
    isDropdownOpen: bool,
    mode: Mode,
    selectedIndex: int,
    filteredRepos: seq<GitHubRepo>,
    searchResults: seq<GitHubFile>,
    currentPath: string,
    beforeAt: string,
    selectedRepo: Option<GitHubRepo>)

  /** The last selectable index: one less than the length of the list on show (so -1 when it is empty). */
  function MaxIndex(c: Context): (m: int)
    ensures c.mode == Repos ==> m + 1 == |c.filteredRepos|
    ensures c.mode != Repos ==> m + 1 == |c.searchResults|
  {
    if c.mode == Repos then |c.filteredRepos| - 1 else |c.searchResults| - 1
  }

  /** The index after one arrow press, wrapping at both ends. */
  function ArrowIndex(prev: int, maxIndex: int, up: bool): (r: int)
    ensures up && prev > 0 ==> r == prev - 1
    ensures up && prev <= 0 ==> r == maxIndex
    ensures !up && prev < maxIndex ==> r == prev + 1
    ensures !up && prev >= maxIndex ==> r == 0
  {
    if up then (if prev > 0 then prev - 1 else maxIndex)
    else (if prev < maxIndex then prev + 1 else 0)
  }

  /** On a list of `n >= 1` entries, the arrows move cyclically and the index stays in range. */
  lemma ArrowIsCyclic(n: int, i: int)
    requires n >= 1 && 0 <= i < n
    ensures ArrowIndex(i, n - 1, false) == (i + 1) % n
    ensures ArrowIndex(i, n - 1, true) == (i - 1 + n) % n
    ensures 0 <= ArrowIndex(i, n - 1, false) < n && 0 <= ArrowIndex(i, n - 1, true) < n
  {
    if i + 1 < n {
      ModSmall(i + 1, n);
    } else {
      ModShift(0, n);
    }
    if i > 0 {
      ModShift(i - 1, n);
    } else {
      ModSmall(n - 1, n);
    }
  }

  lemma ModSmall(x: int, n: int)
    requires 0 <= x < n
    ensures x % n == x
  {
  }

  lemma ModShift(x: int, n: int)
    requires 0 <= x < n
    ensures (x + n) % n == x
  {
    var q, r := (x + n) / n, (x + n) % n;
    assert x + n == n * q + r && 0 <= r < n;
    assert q == 1;
  }

  /** Up then down, or down then up, returns to the starting entry. */
  lemma ArrowsCancel(n: int, i: int)
    requires n >= 1 && 0 <= i < n
    ensures ArrowIndex(ArrowIndex(i, n - 1, true), n - 1, false) == i
    ensures ArrowIndex(ArrowIndex(i, n - 1, false), n - 1, true) == i
  {
  }

  /** On an empty list down keeps index 0, but up moves it to -1. */
  lemma ArrowsOnEmptyList()
    ensures ArrowIndex(0, -1, false) == 0
    ensures ArrowIndex(0, -1, true) == -1
  {
  }

  /** `handleEnter`: the entry under the index is chosen, if there is one. */
  function HandleEnter(c: Context): (r: seq<Action>)
    ensures c.mode == Repos && 0 <= c.selectedIndex < |c.filteredRepos| ==>
      r == [SelectRepository(c.filteredRepos[c.selectedIndex])]
    ensures c.mode == Files && 0 <= c.selectedIndex < |c.searchResults| ==>
      var item := c.searchResults[c.selectedIndex];
      && (item.fileType == Dir ==> r == [NavigateToFolder(item.path)])
      && (item.fileType == File ==> r == [FileSelect(c.selectedRepo, item, None), SetDropdownOpen(false)])
    ensures r == [] <==>
      !(c.mode == Repos && 0 <= c.selectedIndex < |c.filteredRepos|)
      && !(c.mode == Files && 0 <= c.selectedIndex < |c.searchResults|)
  {
    if c.mode == Repos && 0 <= c.selectedIndex < |c.filteredRepos| then
      [SelectRepository(c.filteredRepos[c.selectedIndex])]
    else if c.mode == Files && 0 <= c.selectedIndex < |c.searchResults| then
      var item := c.searchResults[c.selectedIndex];
      if item.fileType == Dir then [NavigateToFolder(item.path)]
      else [FileSelect(c.selectedRepo, item, None), SetDropdownOpen(false)]
    else []
  }

  /** The folder one level up: everything before the last '/', or the root. */
  function ParentPath(path: string): (r: string)
    ensures |r| < |path| || path == ""
    ensures r != "" ==> StartsWith(path, r + "/")
  {
    var lastSlash := LastIndexOf(path, '/');
    if lastSlash > 0 then
      assert path[..lastSlash + 1] == path[..lastSlash] + "/";
      path[..lastSlash]
    else ""
  }

  /** Escape in a sub-folder drops exactly the last segment: `a/c` becomes `a`, `a` becomes the root. */
  lemma ParentPathDropsLastSegment(parent: string, segment: string)
    requires '/' !in segment
    ensures ParentPath(segment) == ""
    ensures parent != "" ==> ParentPath(parent + "/" + segment) == parent
  {
    if parent != "" {
      var p := parent + "/" + segment;
      assert p[|parent|] == '/';
      assert p[|parent| + 1..] == segment;
      assert p[..|parent|] == parent;
    }
  }

  /** `handleEscape`: leave the current folder, or close the dropdown (back to repositories from files). */
  function HandleEscape(c: Context): (r: seq<Action>)
    ensures c.mode == Files && c.currentPath != "" ==> r == [SetCurrentPath(ParentPath(c.currentPath))]
    ensures SetDropdownOpen(false) in r <==> !(c.mode == Files && c.currentPath != "")
    ensures c.mode == Files && c.currentPath == "" ==>
      r == [SetDropdownOpen(false), SetMode(Repos), SetSelectedRepo(None), SetQuery(c.beforeAt), SetCurrentPath("")]
    ensures c.mode != Files ==> r == [SetDropdownOpen(false)]
  {
    if c.mode == Files && c.currentPath != "" then
      [SetCurrentPath(ParentPath(c.currentPath))]
    else
      [SetDropdownOpen(false)]
      + (if c.mode == Files then [SetMode(Repos), SetSelectedRepo(None), SetQuery(c.beforeAt), SetCurrentPath("")] else [])
  }

  /** The document `keydown` listener. */
  function HandleKeyDown(c: Context, key: Key): (r: seq<Action>)
    ensures !c.isDropdownOpen ==> r == []
    ensures c.isDropdownOpen && key == ArrowUp ==> r == [SetSelectedIndex(ArrowIndex(c.selectedIndex, MaxIndex(c), true))]
    ensures c.isDropdownOpen && key == ArrowDown ==> r == [SetSelectedIndex(ArrowIndex(c.selectedIndex, MaxIndex(c), false))]
    ensures c.isDropdownOpen && key == Enter ==> r == HandleEnter(c)
    ensures c.isDropdownOpen && key == Escape ==> r == HandleEscape(c)
    ensures key == OtherKey ==> r == []
  {
    if !c.isDropdownOpen then []
    else
      match key
      case ArrowUp => [SetSelectedIndex(ArrowIndex(c.selectedIndex, MaxIndex(c), true))]
      case ArrowDown => [SetSelectedIndex(ArrowIndex(c.selectedIndex, MaxIndex(c), false))]
      case Enter => HandleEnter(c)
      case Escape => HandleEscape(c)
      case OtherKey => []
  }

  /** While the list has entries and the index is on one, an arrow key keeps it on one. */
  lemma ArrowKeepsIndexInList(c: Context, key: Key)
    requires c.isDropdownOpen && (key == ArrowUp || key == ArrowDown)
    requires 0 <= c.selectedIndex <= MaxIndex(c)
    ensures var r := HandleKeyDown(c, key);
      && |r| == 1 && r[0].SetSelectedIndex?
      && 0 <= r[0].index <= MaxIndex(c)
  {
  }

  /** Enter on a folder entry keeps the dropdown open; Enter on a file closes it. */
  lemma EnterKeepsOpenOnFolder(c: Context)
    requires c.isDropdownOpen && c.mode == Files && 0 <= c.selectedIndex < |c.searchResults|
    ensures SetDropdownOpen(false) in HandleKeyDown(c, Enter) <==> c.searchResults[c.selectedIndex].fileType == File
  {
  }
}
