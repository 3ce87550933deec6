/**
 * The `@repo/path` search box (components/SearchBar.tsx): the repository filter, choosing a
 * repository, the path fragment that drives the file search, its own key handler and the
 * index reset. Component state is one immutable record; each handler returns the next one.
 */
module SearchBar {
  import opened Wrappers
  import opened Seqs
  import opened Strings
  import opened GitHub
  import opened FolderUtils
  import opened KeyboardNavigation

  /** The component's state hooks. */
  datatype BarState = BarState(
    query: string,
    isDropdownOpen: bool,
    mode: Mode,
    selectedRepo: Option<GitHubRepo>,
    searchResults: seq<GitHubFile>,
    selectedIndex: int,
    isSearching: bool)

  // ---------------------------------------------------------------- repository filter

  /** Whether `filteredRepos` keeps `repo` for the text after '@'. */
  predicate RepoMatches(afterAt: string, repo: GitHubRepo) {
    afterAt == "" || Contains(ToLower(repo.name), ToLower(afterAt))
  }

  /** `filteredRepos`. */
  function FilterRepos(repos: seq<GitHubRepo>, afterAt: string): (r: seq<GitHubRepo>)
    ensures afterAt == "" ==> r == repos
    ensures forall x :: x in r <==> x in repos && (afterAt == "" || Contains(ToLower(x.name), ToLower(afterAt)))
    ensures Subsequence(r, repos)
  {
    var keep := (x: GitHubRepo) => RepoMatches(afterAt, x);
    FilterIsSubsequence(repos, keep);
    if afterAt == "" then FilterAll(repos, keep); Filter(repos, keep)
    else Filter(repos, keep)
  }

  /** The filter does not care about the case of what was typed. */
  lemma FilterReposIgnoresCase(repos: seq<GitHubRepo>, afterAt: string)
    ensures FilterRepos(repos, ToLower(afterAt)) == FilterRepos(repos, afterAt)
  {
    ToLowerIdempotent(afterAt);
    var p := (x: GitHubRepo) => RepoMatches(ToLower(afterAt), x);
    var q := (x: GitHubRepo) => RepoMatches(afterAt, x);
    assert |ToLower(afterAt)| == |afterAt|;
    FilterSameVerdicts(repos, p, q);
  }

  // ---------------------------------------------------------------- choosing a repository

  /** `selectRepository`: the query becomes `<beforeAt>@<name>/` and the box switches to files. */
  function SelectRepository(s: BarState, repo: GitHubRepo): (t: BarState)
    ensures t.mode == Files && t.selectedRepo == Some(repo)
    ensures t.selectedIndex == 0 && t.searchResults == []
    ensures t.isDropdownOpen == s.isDropdownOpen && t.isSearching == s.isSearching
  {
    s.(query := ParseQuery(s.query).beforeAt + "@" + repo.name + "/",
       mode := Files, selectedRepo := Some(repo), selectedIndex := 0, searchResults := [])
  }

  /**
   * Parsing the rewritten query gives back the text before the mention and `<name>/` after it,
   * so the path fragment is empty and no file search starts yet.
   */
  lemma SelectThenParse(s: BarState, repo: GitHubRepo)
    requires '@' !in repo.name && '/' !in repo.name
    ensures var t := SelectRepository(s, repo);
      && ParseQuery(t.query) == Query(ParseQuery(s.query).beforeAt, repo.name + "/")
      && PathFragment(repo.name + "/") == ""
      && SearchStepFor(t, true) == ClearResults
  {
    var t := SelectRepository(s, repo);
    var before := ParseQuery(s.query).beforeAt;
    var after := repo.name + "/";
    assert '@' !in after;
    assert t.query == before + "@" + after;
    ParseQueryAfterAt(before, after);
    NameSlashFragment(repo.name);
  }

  lemma NameSlashFragment(name: string)
    requires '/' !in name
    ensures PathFragment(name + "/") == ""
  {
    var after := name + "/";
    assert after[|name|] == '/' && after[..|name|] == name;
    assert IndexOf(after, '/') == |name|;
  }

  // ---------------------------------------------------------------- the file search

  /** `afterAt.split('/').slice(1).join('/')`: the mention without its first segment. */
  function PathFragment(afterAt: string): (r: string)
    ensures '/' !in afterAt ==> r == ""
    ensures '/' in afterAt ==> r == afterAt[IndexOf(afterAt, '/') + 1..]
  {
    JoinTailOfSplit(afterAt);
    Join(Split(afterAt, '/')[1..], '/')
  }

  /** Dropping the first piece of a split and joining again leaves what follows the first separator. */
  lemma JoinTailOfSplit(s: string)
    ensures '/' !in s ==> Join(Split(s, '/')[1..], '/') == ""
    ensures '/' in s ==> Join(Split(s, '/')[1..], '/') == s[IndexOf(s, '/') + 1..]
  {
    var i := IndexOf(s, '/');
    if i == -1 {
      SplitNoSep(s, '/');
    } else {
      SplitAt(s, '/', i);
      assert Split(s, '/')[1..] == Split(s[i + 1..], '/');
      JoinSplit(s[i + 1..], '/');
    }
  }

  /** The effect that reacts to the mention: start a search, or clear the results. */
  datatype SearchStep = NoSearch | ClearResults | StartSearch(pathQuery: string)

  /** The file-search effect; `clientReady` is whether the API client exists. */
  function SearchStepFor(s: BarState, clientReady: bool): (r: SearchStep)
    ensures r.StartSearch? <==>
      s.mode == Files && s.selectedRepo.Some? && clientReady && PathFragment(ParseQuery(s.query).afterAt) != ""
    ensures r.StartSearch? ==> r.pathQuery == PathFragment(ParseQuery(s.query).afterAt)
    ensures r == NoSearch <==> !(s.mode == Files && s.selectedRepo.Some? && clientReady)
  {
    if s.mode == Files && s.selectedRepo.Some? && clientReady then
      var pathQuery := PathFragment(ParseQuery(s.query).afterAt);
      if |pathQuery| > 0 then StartSearch(pathQuery) else ClearResults
    else NoSearch
  }

  /** Applying the effect's immediate part: clearing stops the spinner; a scheduled search starts it. */
  function ApplySearchStep(s: BarState, step: SearchStep): (t: BarState)
    ensures step == ClearResults ==> t.searchResults == [] && !t.isSearching
    ensures step.StartSearch? ==> t.isSearching && t.searchResults == s.searchResults
    ensures step == NoSearch ==> t == s
    ensures t.query == s.query && t.mode == s.mode && t.selectedIndex == s.selectedIndex
  {
    match step
    case NoSearch => s
    case ClearResults => s.(searchResults := [], isSearching := false)
    case StartSearch(_) => s.(isSearching := true)
  }

  // ---------------------------------------------------------------- keys

  /** What a key press leaves behind: the next state and the file handed to `onFileSelect`, if any. */
  datatype KeyResult = KeyResult(state: BarState, committed: Option<GitHubFile>)

  /** The entries the arrow keys move over. */
  function ListLength(s: BarState, repos: seq<GitHubRepo>): (n: nat)
    ensures s.mode == Repos ==> n == |FilterRepos(repos, ParseQuery(s.query).afterAt)|
    ensures s.mode != Repos ==> n == |s.searchResults|
  {
    if s.mode == Repos then |FilterRepos(repos, ParseQuery(s.query).afterAt)| else |s.searchResults|
  }

  /** The component's own `keydown` listener. */
  function KeyDown(s: BarState, repos: seq<GitHubRepo>, key: Key): (r: KeyResult)
    ensures !s.isDropdownOpen ==> r == KeyResult(s, None)
    ensures s.isDropdownOpen && (key == ArrowUp || key == ArrowDown) ==>
      r == KeyResult(s.(selectedIndex := ArrowIndex(s.selectedIndex, ListLength(s, repos) - 1, key == ArrowUp)), None)
    ensures r.committed.Some? <==>
      s.isDropdownOpen && key == Enter && s.mode == Files && 0 <= s.selectedIndex < |s.searchResults|
    ensures r.committed.Some? ==> r.committed.value == s.searchResults[s.selectedIndex] && !r.state.isDropdownOpen
    ensures s.isDropdownOpen && key == Escape ==>
      && !r.state.isDropdownOpen
      && (s.mode == Files ==> r.state == s.(isDropdownOpen := false, mode := Repos, selectedRepo := None, query := ParseQuery(s.query).beforeAt))
      && (s.mode != Files ==> r.state == s.(isDropdownOpen := false))
  {
    if !s.isDropdownOpen then KeyResult(s, None)
    else
      var afterAt := ParseQuery(s.query).afterAt;
      var filtered := FilterRepos(repos, afterAt);
      var maxIndex := ListLength(s, repos) - 1;
      match key
      case ArrowUp => KeyResult(s.(selectedIndex := ArrowIndex(s.selectedIndex, maxIndex, true)), None)
      case ArrowDown => KeyResult(s.(selectedIndex := ArrowIndex(s.selectedIndex, maxIndex, false)), None)
      case Enter =>
        if s.mode == Repos && 0 <= s.selectedIndex < |filtered| then
          KeyResult(SelectRepository(s, filtered[s.selectedIndex]), None)
        else if s.mode == Files && 0 <= s.selectedIndex < |s.searchResults| then
          KeyResult(s.(isDropdownOpen := false), Some(s.searchResults[s.selectedIndex]))
        else KeyResult(s, None)
      case Escape =>
        if s.mode == Files then
          KeyResult(s.(isDropdownOpen := false, mode := Repos, selectedRepo := None, query := ParseQuery(s.query).beforeAt), None)
        else KeyResult(s.(isDropdownOpen := false), None)
      case OtherKey => KeyResult(s, None)
  }

  /** Enter on a listed repository selects it. */
  lemma EnterSelectsRepository(s: BarState, repos: seq<GitHubRepo>)
    requires s.isDropdownOpen && s.mode == Repos
    requires 0 <= s.selectedIndex < |FilterRepos(repos, ParseQuery(s.query).afterAt)|
    ensures KeyDown(s, repos, Enter).state
      == SelectRepository(s, FilterRepos(repos, ParseQuery(s.query).afterAt)[s.selectedIndex])
  {
  }

  /**
   * Unlike the dropdown's shared keyboard handler, this listener has no folder case: Enter on a
   * directory entry commits it like a file and closes the dropdown.
   */
  lemma EnterCommitsDirectories(s: BarState, repos: seq<GitHubRepo>, c: Context)
    requires s.isDropdownOpen && s.mode == Files && 0 <= s.selectedIndex < |s.searchResults|
    requires s.searchResults[s.selectedIndex].fileType == Dir
    requires c.isDropdownOpen && c.mode == Files && c.selectedIndex == s.selectedIndex && c.searchResults == s.searchResults
    ensures KeyDown(s, repos, Enter).committed == Some(s.searchResults[s.selectedIndex])
    ensures HandleKeyDown(c, Enter) == [NavigateToFolder(s.searchResults[s.selectedIndex].path)]
  {
  }

  /** Both key handlers move the index the same way. */
  lemma ArrowsAgree(s: BarState, repos: seq<GitHubRepo>, c: Context, key: Key)
    requires s.isDropdownOpen && c.isDropdownOpen && (key == ArrowUp || key == ArrowDown)
    requires c.mode == s.mode && c.selectedIndex == s.selectedIndex
    requires c.filteredRepos == FilterRepos(repos, ParseQuery(s.query).afterAt) && c.searchResults == s.searchResults
    ensures HandleKeyDown(c, key) == [SetSelectedIndex(KeyDown(s, repos, key).state.selectedIndex)]
  {
  }

  // ---------------------------------------------------------------- index reset

  /** The effect keyed on `mode` and `afterAt`: when either changed since the last render, the index returns to 0. */
  function ResetIndex(prevMode: Mode, prevAfterAt: string, s: BarState): (t: BarState)
    ensures (s.mode != prevMode || ParseQuery(s.query).afterAt != prevAfterAt) ==> t.selectedIndex == 0
    ensures (s.mode == prevMode && ParseQuery(s.query).afterAt == prevAfterAt) ==> t == s
    ensures t == s.(selectedIndex := t.selectedIndex)
  {
    if s.mode != prevMode || ParseQuery(s.query).afterAt != prevAfterAt then s.(selectedIndex := 0) else s
  }

  /** Typing a different mention resets the index, whatever the arrows had done. */
  lemma TypingResetsIndex(s: BarState, query: string)
    requires ParseQuery(query).afterAt != ParseQuery(s.query).afterAt
    ensures ResetIndex(s.mode, ParseQuery(s.query).afterAt, s.(query := query)).selectedIndex == 0
    ensures ResetIndex(s.mode, ParseQuery(s.query).afterAt, s.(query := query)).query == query
  {
  }
}
