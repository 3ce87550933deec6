# HyperGit file-index machinery in Dafny

HyperGit is a web client for browsing GitHub repositories. Its search box takes
`@repo/path` mentions. This project models the client-side logic behind that box and
the file viewer:

- **File-tree cache.** An in-memory LRU map of repository file lists, with a
  five-minute lifetime and at most 50 entries. It is backed by browser storage, which
  keeps the ten newest trees of under 5000 files.
- **Folder listing and tree.** A folder listing built from a flat path list, the
  nested file tree of the browser, and its breadcrumb bar.
- **Autocomplete controller.** Keyboard handling, the repository filter, the
  dropdown's visibility and its clicks.
- **History and repository cache.** The bounded recent-files and recent-snippets
  lists, and the token-scoped repository cache.
- **GitHub client helpers.** The pure helpers of the GitHub client: the language
  table, branch and repository orderings, tree conversion and URL parsing. Also the
  language-icon decision.
- **Time and line-range labels.** The "time ago" labels and the line-range labels.

Every piece of state is an immutable value, and every operation is a pure function
from the old value to the new one. Inputs that the browser or the environment
supplies are passed in as parameters:

- the clock (`now`; where one operation reads it twice, the extra reading is `idTime`, taken
  first, for a snippet's id, or `storeTime`, taken second, for the stored copy of a file tree);
- whether a storage write succeeds (`writeOk`);
- the browser's enumeration order of storage keys (`order`);
- the fuzzy matcher's ranking (`ranked`);
- the capture of the title patterns (`extracted`);
- the line numbers a selection touches (`hits`);
- the rendered locale date.

Each storage key is a `LocalStorage.Slot`: missing, holding text that does not
parse, or holding a value. The file-tree cache maps each key to `Some(payload)`, or
to `None` for unparsable text. JavaScript's `Array.prototype.sort` is stable, so
`Sorting.SortBy` is a stable insertion sort parameterised by a total preorder.

Modules follow the source files:

| module | models |
|---|---|
| `FileTreeCache` | `lib/github/cache.ts` |
| `OrderedMaps` | the insertion-ordered `Map` it uses |
| `FolderUtils` | `components/SearchBar/utils/folderUtils.ts` |
| `KeyboardNavigation` | `components/SearchBar/hooks/useKeyboardNavigation.ts` |
| `SearchBar` | `components/SearchBar.tsx` |
| `FileDropdown` | `components/SearchBar/components/FileDropdown.tsx` |
| `DropdownVisibility` | `components/SearchBar/hooks/useDropdownVisibility.ts` |
| `BranchDropdown` | `components/SearchBar/components/BranchDropdown.tsx` |
| `FileTree` | `components/FileBrowser/FileTree.tsx` |
| `Breadcrumb` | `components/FileBrowser/Breadcrumb.tsx` |
| `FilePreview` | `components/FileBrowser/FilePreview.tsx` |
| `RepositoryCache` | `lib/github/repositoryCache.ts` |
| `RecentFiles` | `lib/recentFiles.ts` |
| `RecentSnippets` | `lib/recentSnippets.ts` |
| `RecentSnippetsView` | `components/RecentSnippets.tsx` |
| `TimePill` | `components/Card/ui/TimePill.tsx` |
| `RelativeTime` | the shared time buckets |
| `GitHub`, `GitHubApi` | `lib/github/api.ts` |
| `LanguageIcon`, `JsObjects` | `components/ui/LanguageIcon.tsx` and object-literal lookup |

`Wrappers`, `Seqs`, `Strings`, `Sorting` and `LocalStorage` are support modules.

## Model

| member | source | states |
|---|---|---|
| FileTreeCache.Get | lib/github/cache.ts:17-35 | a missing key answers nothing and changes nothing; an entry more than five minutes old is deleted and answers nothing (exactly five minutes is still fresh); a fresh hit returns the stored files and moves the key to the most-recent end; storage is untouched |
| FileTreeCache.GetKeepsValid | lib/github/cache.ts:17-35 | `get` keeps keys distinct and the map within 50 entries |
| FileTreeCache.GetKeepsOrder | lib/github/cache.ts:30-33 | after a hit, the other keys come first in their previous relative order |
| FileTreeCache.Evict | lib/github/cache.ts:40-45 | corrected (Findings row 1): at capacity a new key deletes the first (oldest) key; below capacity, or for a present key, nothing is evicted |
| FileTreeCache.SetMemory | lib/github/cache.ts:38-61 | the memory half of `set`: the key then reads back the files stamped `now`; a present key keeps the map's size, and the map grows by at most one; SetMemoryEvictsOldest states the eviction |
| FileTreeCache.SetMemoryEvictsOldest | lib/github/cache.ts:14-61 | corrected (Findings row 1): the memory half of `set` keeps at most 50 distinct keys; a new key at capacity drops exactly the first entry and is appended; a present key keeps its position; the key then maps to the new entry |
| FileTreeCache.Set | lib/github/cache.ts:38-79 | corrected (Findings row 1): after `set` the key maps to the files stamped with the first clock reading `now` (the stored tree takes the second, `storeTime`); with 5000 or more files, or a refused write, storage is unchanged |
| FileTreeCache.SetKeepsValid | lib/github/cache.ts:38-61 | corrected (Findings row 1): `set` keeps keys distinct and the map within 50 entries |
| FileTreeCache.SetThenGet | lib/github/cache.ts:17-61 | a `get` within five minutes of `set` returns the files set |
| FileTreeCache.SetStorage | lib/github/cache.ts:63-78 | large trees and refused writes leave storage unchanged |
| FileTreeCache.SetThenLoad | lib/github/cache.ts:64-101 | `loadFromStorage` within five minutes of the storage stamp `storeTime` of a written `set` returns the first min(n, 1000) files, when fewer than ten other trees are stamped at least as recently |
| FileTreeCache.StorageOutlivesMemory | lib/github/cache.ts:56-72 | with the storage reading one millisecond after the memory one, at five minutes and one millisecond past `now` the memory entry has expired while the stored tree still loads |
| FileTreeCache.LoadFromStorage | lib/github/cache.ts:82-101 | files come back exactly for a parsable, unexpired stored tree, and storage is then unchanged; an expired tree is removed |
| FileTreeCache.LoadExpiredRemoves | lib/github/cache.ts:91-95 | a stored tree older than five minutes is removed and yields nothing |
| FileTreeCache.RankTreeKeys | lib/github/cache.ts:105-119 | the tree keys, each once, sorted newest first, with unparsable entries ranked as timestamp 0 |
| FileTreeCache.Cleanup | lib/github/cache.ts:104-126 | every key left was in storage with the same value, and every key that is not a tree key survives; CleanupKeepsTen and CleanupKeepsNewest state which tree keys go |
| FileTreeCache.CleanupTouchesOnlyTreeKeys | lib/github/cache.ts:104-126 | the cleanup only removes `hypergit_tree_` keys and never changes a stored value |
| FileTreeCache.CleanupKeepsTen | lib/github/cache.ts:108-125 | after cleanup at most ten tree keys remain |
| FileTreeCache.CleanupKeepsNewest | lib/github/cache.ts:119-124 | every kept tree key is at least as new as every removed one |
| FileTreeCache.KeySurvivesCleanup | lib/github/cache.ts:119-124 | a tree key with fewer than ten rivals at least as new survives, unchanged |
| FileTreeCache.Clear | lib/github/cache.ts:129-136 | the key leaves memory and its tree key leaves storage; every other stored key and value stays |
| FileTreeCache.ClearAll | lib/github/cache.ts:139-151 | memory is emptied; exactly the tree keys leave storage and the other values stay |
| FileTreeCache.SearchFiles | lib/github/cache.ts:154-176 | never more than 100 results; a missing key gives []; an expired entry gives [] and is deleted; a blank query gives the first min(n, 100) files in order; otherwise the first 100 ranked matches |
| FileTreeCache.SetThenSearchBlank | lib/github/cache.ts:154-167 | a blank search within five minutes of `set` lists the first hundred files set |
| FileTreeCache.SetMemoryAsWritten | lib/github/cache.ts:40-45 | the source's eviction agrees with the corrected one unless the oldest key is the empty string |
| FileTreeCache.EmptyFirstKeyOverfills | lib/github/cache.ts:40-45 | fifty entries whose oldest key is "" plus a new key give 51 entries |
| OrderedMaps.Put | lib/github/cache.ts:56-61 | `Map.set`: a new key is appended at the end, and a present key keeps the map's size; PutGet and PutKeys state the read-back and the key order |
| OrderedMaps.PutGet | lib/github/cache.ts:56-61 | after `Map.set` the key reads back the value just set |
| OrderedMaps.PutKeys | lib/github/cache.ts:56-61 | `Map.set` keeps a present key's position and appends a new key |
| OrderedMaps.Delete | lib/github/cache.ts:26-43 | `Map.delete`: exactly the entries with another key remain, and the map never grows; DeleteRemovesKey states that their order is kept |
| OrderedMaps.DeleteRemovesKey | lib/github/cache.ts:26-43 | `Map.delete` removes the key; exactly the entries with other keys remain, in their original order |
| FolderUtils.ParseQuery | components/SearchBar/utils/folderUtils.ts:59-67 | without '@' the whole input is `beforeAt` and `afterAt` is empty; otherwise `beforeAt + "@" + afterAt` is the input and `afterAt` has no '@' |
| FolderUtils.ParseQueryAfterAt | components/SearchBar/utils/folderUtils.ts:59-67 | an '@'-free tail after the last '@' is recovered exactly, whatever precedes it |
| FolderUtils.PlaceMeans | components/SearchBar/utils/folderUtils.ts:10-39 | a file listed directly lies in the folder with no further '/'; a deeper file contributes a child folder named by a non-empty '/'-free segment |
| FolderUtils.Collect | components/SearchBar/utils/folderUtils.ts:8-40 | the walk only extends what was emitted, adds only entries some file justifies, lists every direct file and the folder of every deeper file, and never emits a folder twice; CollectCounts states how often a file is listed |
| FolderUtils.CollectCounts | components/SearchBar/utils/folderUtils.ts:8-40 | the walk lists a file directly in the folder exactly as many times as it occurs in the input, on top of what was already emitted |
| FolderUtils.ListFolder | components/SearchBar/utils/folderUtils.ts:4-48 | every entry is justified by a file; every direct file is listed; every deeper file's folder is listed, with path `path/name`; folders before files, each by name; no folder twice; each direct file appears exactly as often as in the input |
| FolderUtils.GetItemsForPath | components/SearchBar/utils/folderUtils.ts:4-56 | the folder listing one for one, each subfolder as a directory item; every file directly in the folder and every subfolder of a file below it appears; with a non-empty folder every item's path starts with `path/`; folders come before files; each kind is ordered by name |
| FolderUtils.ListingInsideFolder | components/SearchBar/utils/folderUtils.ts:10-33 | with a non-empty folder every listed path starts with the folder and '/' |
| FolderUtils.EntryLeIsTotalPreorder | components/SearchBar/utils/folderUtils.ts:43-47 | the listing order (folders first, then by name) is a total preorder, so the stable sort is well defined |
| FolderUtils.ListingExample | components/SearchBar/utils/folderUtils.ts:4-48 | on `a/b.ts`, `a/c/d.ts`, `e.ts`, the root lists folder `a` then `e.ts`, and folder `a` lists folder `a/c` then `a/b.ts` |
| KeyboardNavigation.MaxIndex | components/SearchBar/hooks/useKeyboardNavigation.ts:60 | the last index is one less than the repository count in repository mode and the result count otherwise |
| KeyboardNavigation.ArrowIndex | components/SearchBar/hooks/useKeyboardNavigation.ts:62-68 | up from above 0 decrements, else goes to the last index; down below the last index increments, else goes to 0 |
| KeyboardNavigation.ArrowIsCyclic | components/SearchBar/hooks/useKeyboardNavigation.ts:59-68 | on n >= 1 entries, down is (i+1) mod n, up is (i-1+n) mod n, and the index stays in range |
| KeyboardNavigation.ArrowsCancel | components/SearchBar/hooks/useKeyboardNavigation.ts:62-68 | up then down, or down then up, restores the index |
| KeyboardNavigation.ArrowsOnEmptyList | components/SearchBar/hooks/useKeyboardNavigation.ts:60-67 | on an empty list down from 0 stays at 0 but up from 0 gives -1 |
| KeyboardNavigation.HandleEnter | components/SearchBar/hooks/useKeyboardNavigation.ts:74-86 | a listed repository is selected; a listed folder is opened; a listed file is committed and the dropdown closed; an index off the list does nothing |
| KeyboardNavigation.ParentPath | components/SearchBar/hooks/useKeyboardNavigation.ts:91-92 | the parent is shorter than a non-empty path, and a non-empty parent is followed by '/' in it |
| KeyboardNavigation.ParentPathDropsLastSegment | components/SearchBar/hooks/useKeyboardNavigation.ts:91-92 | `a/c` becomes `a` and a single segment becomes the root |
| KeyboardNavigation.HandleEscape | components/SearchBar/hooks/useKeyboardNavigation.ts:88-102 | in a sub-folder, Escape goes up one level and keeps the dropdown open; otherwise it closes, and from files it also returns to repositories, clears the repository, restores the query and resets the path |
| KeyboardNavigation.HandleKeyDown | components/SearchBar/hooks/useKeyboardNavigation.ts:104-125 | every key is ignored while closed; arrows move the index; Enter and Escape dispatch; other keys do nothing |
| KeyboardNavigation.ArrowKeepsIndexInList | components/SearchBar/hooks/useKeyboardNavigation.ts:59-72 | an arrow press on an index within the list keeps it within the list |
| KeyboardNavigation.EnterKeepsOpenOnFolder | components/SearchBar/hooks/useKeyboardNavigation.ts:77-84 | Enter in files mode closes the dropdown exactly on a file |
| SearchBar.FilterRepos | components/SearchBar.tsx:40-42 | an empty mention keeps every repository; otherwise exactly those whose lower-cased name contains the lower-cased mention, in order |
| SearchBar.FilterReposIgnoresCase | components/SearchBar.tsx:40-42 | the filter ignores the case of what was typed |
| SearchBar.SelectRepository | components/SearchBar.tsx:45-52 | selecting switches to files mode with that repository, index 0 and no results |
| SearchBar.SelectThenParse | components/SearchBar.tsx:36-59 | the rewritten query parses back to the old `beforeAt` and `name/`, so the path fragment is empty and the results are cleared |
| SearchBar.PathFragment | components/SearchBar.tsx:57 | the mention with its first '/'-segment dropped: empty without '/', else everything after the first '/' |
| SearchBar.SearchStepFor | components/SearchBar.tsx:55-81 | a search starts exactly in files mode, with a repository and client, and a non-empty path fragment, which it searches for; with an empty fragment the results are cleared |
| SearchBar.ApplySearchStep | components/SearchBar.tsx:59-79 | clearing empties the results and stops the spinner; a scheduled search starts the spinner |
| SearchBar.ListLength | components/SearchBar.tsx:88 | the arrows move over the filtered repositories in repository mode and over the results otherwise |
| SearchBar.KeyDown | components/SearchBar.tsx:84-117 | closed ignores keys; arrows wrap over the current list; Enter in files mode commits the entry under the index and closes; Escape closes, and from files returns to repositories with the query before '@' |
| SearchBar.EnterSelectsRepository | components/SearchBar.tsx:101-102 | Enter on a listed repository selects it |
| SearchBar.EnterCommitsDirectories | components/SearchBar.tsx:103-106 | this handler commits a directory entry like a file, whereas the shared hook opens it |
| SearchBar.ArrowsAgree | components/SearchBar.tsx:88-98 | the component's handler and the shared hook move the index identically |
| SearchBar.ResetIndex | components/SearchBar.tsx:124-126 | the index returns to 0 when mode or mention changed, and nothing else changes |
| SearchBar.TypingResetsIndex | components/SearchBar.tsx:124-126 | typing a different mention resets the index |
| FileDropdown.IsRootFileView | components/SearchBar/components/FileDropdown.tsx:41 | the dropdown is at the repository root exactly when nothing follows the first '/' of the mention; RootFileViewMeans states it in terms of the mention's characters |
| FileDropdown.RootFileViewMeans | components/SearchBar/components/FileDropdown.tsx:41 | root view holds exactly when the mention has no '/' or only a final '/' |
| FileDropdown.CrumbTargetsArePrefixes | components/SearchBar/components/FileDropdown.tsx:77-84 | every folder button's target is a prefix of the current path, followed there by '/' unless it is the last |
| FileDropdown.LastCrumbTarget | components/SearchBar/components/FileDropdown.tsx:77-78 | the last folder button targets the current path itself |
| FileDropdown.CrumbTargets | components/SearchBar/components/FileDropdown.tsx:77-84 | one target per segment; target i is the prefix of the current path made of exactly its first i+1 segments, followed by a '/' unless it is the last, which is the path itself |
| FileDropdown.CrumbClick | components/SearchBar/components/FileDropdown.tsx:72-83 | "root" goes to ""; segment i goes to a prefix of the path; the last segment goes to the path itself |
| FileDropdown.CrumbTargetsExample | components/SearchBar/components/FileDropdown.tsx:77-78 | on `a/b/c` the targets are `a`, `a/b`, `a/b/c` |
| FileDropdown.Back | components/SearchBar/components/FileDropdown.tsx:58-63 | Back restores the query before '@' and resets the path, without closing the dropdown |
| FileDropdown.BackIsEscapeWithoutClosing | components/SearchBar/components/FileDropdown.tsx:58-63 | Back is the root-level Escape minus closing the dropdown |
| FileDropdown.EffectiveBranch | components/SearchBar/components/FileDropdown.tsx:128 | an absent or empty branch means the default branch |
| FileDropdown.BranchLabelIffNotDefault | components/SearchBar/components/FileDropdown.tsx:49 | the branch label is hidden exactly when files open on the default branch |
| FileDropdown.ClickEntry | components/SearchBar/components/FileDropdown.tsx:124-131 | a folder click opens it; a file click commits it on the effective branch and closes |
| FileDropdown.ClickAgreesWithEnter | components/SearchBar/components/FileDropdown.tsx:124-131 | clicking and pressing Enter act alike, except that the click names the branch |
| FileDropdown.StatusOf | components/SearchBar/components/FileDropdown.tsx:95-115 | building wins over searching, which wins over results; with no results the root view says "start typing" and a path says "no files found" |
| FileDropdown.HeaderStatus | components/SearchBar/components/FileDropdown.tsx:55 | the header word follows the same priority |
| DropdownVisibility.ShouldShowDropdown | components/SearchBar/hooks/useDropdownVisibility.ts:12-16 | the visibility rule; ShouldShowDropdownMeans states it: shown exactly for an all-whitespace query, a query with '@', or any mode but the repository list |
| DropdownVisibility.ShouldShowDropdownMeans | components/SearchBar/hooks/useDropdownVisibility.ts:12-16 | the dropdown shows exactly for a blank query, a query with '@', or files/branches mode |
| DropdownVisibility.UpdateOpen | components/SearchBar/hooks/useDropdownVisibility.ts:19-23 | the open flag is recomputed only when signed in and focused, and otherwise kept |
| FileTree.Push | components/FileBrowser/FileTree.tsx:47-51 | pushing fails exactly onto the missing children of a file node, and otherwise only extends a level |
| FileTree.NewNode | components/FileBrowser/FileTree.tsx:38-44 | a new node has the part's name and the path so far; it is a file leaf carrying the file exactly when it is the last part |
| FileTree.Step | components/FileBrowser/FileTree.tsx:34-52 | a step reaches the child path, which then exists, and only adds that one path |
| FileTree.Walk | components/FileBrowser/FileTree.tsx:33-53 | walking a path's parts keeps every existing node, changing at most its children list |
| FileTree.AddFiles | components/FileBrowser/FileTree.tsx:28-54 | adding the files in order keeps every existing node apart from its children list, or throws |
| FileTree.SortPaths | components/FileBrowser/FileTree.tsx:58-65 | a level is permuted into directories-first, lower-cased-name order |
| FileTree.SortLevels | components/FileBrowser/FileTree.tsx:57-75 | every level is a sorted permutation of itself, and nodes are otherwise unchanged |
| FileTree.BuildTree | components/FileBrowser/FileTree.tsx:21-77 | `buildTree`; its properties are stated by BuildTreeShape, BuildTreeHoldsEveryFile and BuildTreeThrowsOnFileUsedAsFolder |
| FileTree.BuildTreeShape | components/FileBrowser/FileTree.tsx:21-77 | a returned tree keys every node by its path; top-level paths are names; children sit at `parent/name`; exactly the files carry a file and have no children; every node is placed; every level is sorted |
| FileTree.BuildTreeHoldsEveryFile | components/FileBrowser/FileTree.tsx:21-77 | on clean, unique paths where no file is a folder of another, it does not throw; every file is a leaf at its path with all its folders present; every file node is a listed file; every folder belongs to one |
| FileTree.DirsBeforeFiles | components/FileBrowser/FileTree.tsx:59-62 | in a sorted level no file precedes a directory |
| FileTree.BuildTreeThrowsOnFileUsedAsFolder | components/FileBrowser/FileTree.tsx:50-51 | files `a` and `a/b` make the walk push onto undefined children, so it throws |
| FileTree.Toggle | components/FileBrowser/FileTree.tsx:142-152 | toggling flips membership of that path only |
| FileTree.ToggleTwice | components/FileBrowser/FileTree.tsx:142-152 | toggling twice restores the set |
| FileTree.ClickNode | components/FileBrowser/FileTree.tsx:94-100 | a directory toggles, a file node with a file selects it, otherwise nothing |
| FileTree.ClickInWellFormedTree | components/FileBrowser/FileTree.tsx:94-100 | in a built tree every click does something |
| Breadcrumb.Segments | components/FileBrowser/Breadcrumb.tsx:13 | segments are exactly the non-empty '/'-parts, none containing '/' |
| Breadcrumb.SegmentsIgnoreExtraSlashes | components/FileBrowser/Breadcrumb.tsx:13 | leading, trailing and doubled slashes do not change the segments |
| Breadcrumb.BreadcrumbsOf | components/FileBrowser/Breadcrumb.tsx:19-65 | n+1 entries for n <= 3 segments and 5 beyond; the repository first, clickable iff n > 0; an unclickable ellipsis third when truncated; each segment entry's path is the join of segments up to it, and it is clickable unless last |
| Breadcrumb.Breadcrumbs | components/FileBrowser/Breadcrumb.tsx:13-65 | the bar for a path: n+1 entries for n <= 3 non-empty segments and 5 beyond; the repository first, at the root, clickable iff n >= 1; a later entry is clickable iff it is not last and not the ellipsis; the last entry is the last segment with the whole normalised path |
| Breadcrumb.BreadcrumbsShape | components/FileBrowser/Breadcrumb.tsx:16-65 | the length, clickability, ellipsis and last-label rules in terms of the path |
| Breadcrumb.CrumbPathsArePrefixes | components/FileBrowser/Breadcrumb.tsx:32-57 | each segment entry's path is a prefix of the normalised path ending at a '/' unless last |
| Breadcrumb.BreadcrumbsAgreeWithDropdown | components/FileBrowser/Breadcrumb.tsx:46-57 | on a clean path the bar's entries lead where the dropdown's folder buttons do |
| Breadcrumb.BreadcrumbsIgnoreExtraSlashes | components/FileBrowser/Breadcrumb.tsx:13 | extra slashes never change the bar |
| RepositoryCache.Get | lib/github/repositoryCache.ts:16-42 | answers exactly for a readable record of this token at most thirty minutes old, returning its list and keeping it; every other read removes the key |
| RepositoryCache.Set | lib/github/repositoryCache.ts:47-66 | a record stamped `now` is stored when the first write or its single retry succeeds; otherwise nothing is stored |
| RepositoryCache.Clear | lib/github/repositoryCache.ts:71-77 | the key is removed |
| RepositoryCache.HasValidCache | lib/github/repositoryCache.ts:82-84 | true exactly when `get` answers, with `get`'s effect |
| RepositoryCache.GetCacheAge | lib/github/repositoryCache.ts:89-102 | an age exactly for a readable record of this token, equal to `now` minus its stamp; nothing is cleared |
| RepositoryCache.SetThenGet | lib/github/repositoryCache.ts:16-56 | a stored list reads back for the same token within thirty minutes |
| RepositoryCache.ExpiryBoundary | lib/github/repositoryCache.ts:11-34 | exactly thirty minutes still answers; one millisecond later clears |
| RepositoryCache.OtherTokenClears | lib/github/repositoryCache.ts:24-27 | another token's read removes the record, so the owner then misses too |
| RepositoryCache.MissIsFinal | lib/github/repositoryCache.ts:24-41 | after a miss no read answers until the next write |
| RepositoryCache.GetIdempotent | lib/github/repositoryCache.ts:16-42 | reading twice at one moment gives the same answer and slot |
| RepositoryCache.CacheAgeAgreesWithGet | lib/github/repositoryCache.ts:82-102 | `get` answers exactly when there is an age of at most thirty minutes, and `hasValidCache` matches `get` |
| RepositoryCache.BothWritesFailLeavesEmpty | lib/github/repositoryCache.ts:54-65 | when both writes fail nothing is stored, not even an older record |
| LocalStorage.ReadNewestFirst | lib/recentFiles.ts:15-28 | a stored list is read back as a newest-first permutation; a missing or unreadable key reads as [] |
| RecentFiles.GetRecentFiles | lib/recentFiles.ts:15-28 | newest first, a permutation of what is stored, [] when nothing readable is stored |
| RecentFiles.BranchOrDefault | lib/recentFiles.ts:31-66 | an omitted branch is the repository's default branch |
| RecentFiles.Others | lib/recentFiles.ts:36-38 | exactly the stored entries for another file, repository or branch, in their stored order |
| RecentFiles.Updated | lib/recentFiles.ts:41-48 | the written list: the new entry, then the first min(6, n+1) - 1 of the n other stored entries, in their stored order |
| RecentFiles.AddRecentFile | lib/recentFiles.ts:30-54 | 1 to 6 entries, the new one first stamped `now`, no other entry for the same file, repository and branch, then exactly the first min(6, n+1) - 1 of the n other stored entries in their stored order, so an entry is dropped only when the list is full; a failed write changes nothing |
| RecentFiles.RemoveRecentFile | lib/recentFiles.ts:65-77 | exactly the entries for that key go, and the rest keep their order |
| RecentFiles.ClearRecentFiles | lib/recentFiles.ts:56-63 | afterwards the list reads as empty |
| RecentFiles.AddThenGet | lib/recentFiles.ts:15-54 | with a clock that has not gone backwards, the list reads back as written, new entry first |
| RecentFiles.AddTwiceKeepsOne | lib/recentFiles.ts:36-48 | opening a file twice leaves one entry for it, the later, in front |
| RecentFiles.AddThenRemove | lib/recentFiles.ts:36-73 | removing what was just added leaves no entry for it |
| RecentSnippets.GetRecentSnippets | lib/recentSnippets.ts:20-33 | newest first, a permutation of what is stored, [] when nothing readable is stored |
| RecentSnippets.LineRangeLabel | lib/recentSnippets.ts:104-106 | `L<start>` for one line, `L<start>-<end>` otherwise |
| RecentSnippets.LineRangeLabelInjective | lib/recentSnippets.ts:104-106 | different ranges of non-negative lines get different labels |
| RecentSnippets.SnippetId | lib/recentSnippets.ts:49 | the id ends with `-` and the capture time |
| RecentSnippets.SnippetIdsDifferInTime | lib/recentSnippets.ts:49 | captures at different moments get different ids, whatever was captured |
| RecentSnippets.GenerateSnippetTitle | lib/recentSnippets.ts:77-109 | corrected (Findings row 4): the trimmed capture when it is not blank, else `<file name> <line range label>`; never empty |
| RecentSnippets.GenerateSnippetTitleAsWritten | lib/recentSnippets.ts:96-108 | the capture is checked for emptiness before trimming, then trimmed |
| RecentSnippets.BlankCommentGivesEmptyTitle | lib/recentSnippets.ts:92-99 | a capture of " " (from a first line `/* */`) gives the empty title as written and the fallback title when corrected |
| RecentSnippets.SnippetTitle | lib/recentSnippets.ts:52 | a supplied non-empty title is used, otherwise the generated one |
| RecentSnippets.AddRecentSnippet | lib/recentSnippets.ts:36-74 | corrected (Findings row 4): the new snippet first, its id ending in the first clock reading and its timestamp the second, then every stored snippet in order, cut to min(12, n+1) entries, with no deduplication; a failed write changes nothing |
| RecentSnippets.RemoveRecentSnippet | lib/recentSnippets.ts:112-121 | exactly the snippets with that id go, and the rest keep their order |
| RecentSnippets.ClearRecentSnippets | lib/recentSnippets.ts:124-130 | afterwards the list reads as empty |
| RecentSnippets.UpdateSnippetTitle | lib/recentSnippets.ts:133-146 | same length; the snippets with that id differ only in their title, which is the new one; the others are unchanged |
| RecentSnippets.NewestFirstReadsBack | lib/recentSnippets.ts:20-33 | a list whose timestamps do not increase reads back as stored |
| RecentSnippets.AddThenGet | lib/recentSnippets.ts:20-74 | with a clock that has not gone backwards, the list reads back as written, the new snippet first |
| RecentSnippets.AddTwiceKeepsBoth | lib/recentSnippets.ts:49-68 | capturing the same lines twice, the second time in a later millisecond of a clock that does not go backwards, keeps both, newest first, under different ids |
| RecentSnippets.UpdateTitleTwice | lib/recentSnippets.ts:133-146 | retitling twice equals retitling once with the second title |
| RecentSnippets.RemoveKeepsOthers | lib/recentSnippets.ts:112-121 | after removal exactly the other snippets remain |
| RecentSnippetsView.GetRelativeTime | components/RecentSnippets.tsx:63-75 | "Just now" exactly under a minute; otherwise the coarsest whole unit, as the branch list and pill count it |
| RecentSnippetsView.GetCodePreview | components/RecentSnippets.tsx:138-142 | code of at most `maxLines` lines is kept whole; longer code is cut to its first `maxLines` lines plus "\n..." |
| RecentSnippetsView.CodePreviewIsPrefix | components/RecentSnippets.tsx:138-142 | a cut preview is a prefix of the code ending before a line break, holding exactly `maxLines` lines |
| RelativeTime.CoarsestFirst | components/SearchBar/components/BranchDropdown.tsx:17-32 | under a minute is "just now"; else whole minutes under an hour, whole hours under a day, else whole days, each the floor of the difference |
| RelativeTime.FinestFirstIsCoarsestFirst | components/RecentSnippets.tsx:67-74 | testing the finest unit first gives the same label as testing the coarsest first |
| RelativeTime.CoarsestFirstMonotone | components/Card/ui/TimePill.tsx:10-29 | a larger difference never shows a newer label |
| RelativeTime.Render | components/SearchBar/components/BranchDropdown.tsx:23-31 | labels read `<n>d ago`, `<n>h ago`, `<n>m ago`, the "just now" wording or the date |
| BranchDropdown.FormatRelativeTime | components/SearchBar/components/BranchDropdown.tsx:14-33 | the locale date from 31 whole days on; otherwise the relative label; under a minute "just now" |
| BranchDropdown.RowOf | components/SearchBar/components/BranchDropdown.tsx:81-93 | a row has the branch name, a "default" badge exactly for the default branch, and a last-commit line exactly when a date is known |
| BranchDropdown.Rows | components/SearchBar/components/BranchDropdown.tsx:65-96 | one row per branch, in the branches' order |
| BranchDropdown.AtMostOneDefault | components/SearchBar/components/BranchDropdown.tsx:82 | among distinct names at most one row has the badge |
| TimePill.FormatRelativeTime | components/Card/ui/TimePill.tsx:7-30 | the locale date before the one-month cutoff; otherwise the relative label |
| TimePill.PillAgreesWithBranchList | components/Card/ui/TimePill.tsx:19-29 | after the cutoff and under 31 days the pill and the branch list show the same text |
| TimePill.RecentIsJustNow | components/Card/ui/TimePill.tsx:25-28 | under a minute after the cutoff reads "just now" |
| FilePreview.SelectedLines | components/FileBrowser/FilePreview.tsx:148-165 | no range exactly when no positive line was touched; otherwise the least and greatest positive line touched |
| FilePreview.GetSelectedCode | components/FileBrowser/FilePreview.tsx:66-70 | no selection or no content gives ""; otherwise lines `start` to `end` joined by line breaks |
| FilePreview.SelectedCodeIsTheLines | components/FileBrowser/FilePreview.tsx:66-70 | a selection within the content splits back into exactly the selected lines |
| FilePreview.SelectAllIsWholeContent | components/FileBrowser/FilePreview.tsx:66-70 | selecting every line gives the whole content |
| FilePreview.ShareTitle | components/FileBrowser/FilePreview.tsx:183 | `<repo>/<file> (L<start>-<end>)`: the line-range label in parentheses for a multi-line range; for a one-line range it is `(L5-5)`, which differs from the label `(L5)` |
| FilePreview.ShareSnippet | components/FileBrowser/FilePreview.tsx:178-193 | corrected (Findings row 2): with a selection, a snippet of the selected code is first, titled by the share title, with the file's language |
| FilePreview.SaveSnippet | components/FileBrowser/FilePreview.tsx:211-224 | corrected (Findings rows 2 and 4): with a selection, a snippet of the selected code is first, with the generated title and the file's language |
| GitHubApi.Extension | lib/github/api.ts:364 | the lower-cased text after the last '.' (the whole name when there is none) |
| GitHubApi.GetFileLanguage | lib/github/api.ts:363-398 | corrected (Findings row 2): the table's language for a listed extension, and 'text' exactly for every other |
| GitHubApi.FileLanguageIgnoresCase | lib/github/api.ts:364 | upper-casing a name never changes its language |
| GitHubApi.DotlessNameLookedUpWhole | lib/github/api.ts:364-394 | a dotless name is looked up whole |
| GitHubApi.LanguageExamples | lib/github/api.ts:370-394 | "Dockerfile" is 'dockerfile' and `App.TSX` is 'typescript' |
| GitHubApi.GetFileLanguageAsWritten | lib/github/api.ts:397 | the object-literal lookup returns a prototype member exactly for the inherited keys |
| GitHubApi.GetFileLanguageReturnsPrototypeMember | lib/github/api.ts:397 | `Button.constructor` yields a non-string |
| GitHubApi.CompareBranches | lib/github/api.ts:140-157 | the default branch as `a` sorts first and as `b` sorts last; between two other branches a non-positive result means exactly the dated order: newer first, dated before undated, then by name |
| GitHubApi.BranchLeNonDefault | lib/github/api.ts:143-157 | for non-default branches the order is by date, dated before undated, then by name |
| GitHubApi.BranchLeIsTotalPreorder | lib/github/api.ts:138-158 | the branch comparator is a total preorder |
| GitHubApi.SortBranches | lib/github/api.ts:138-158 | a permutation with the default branch first and the others in dated order |
| GitHubApi.BaseName | lib/github/api.ts:191 | the last '/'-piece, or the whole path when that piece is empty |
| GitHubApi.TreeToFiles | lib/github/api.ts:188-197 | one file per blob, in order, with its path, its base name, sha and size, type file and the raw download URL |
| GitHubApi.TreeToFilesNames | lib/github/api.ts:189-191 | every file comes from a blob and is named by its path's last piece or whole path |
| GitHubApi.FirstMatch | lib/github/api.ts:73 | the leftmost position where the pattern matches, or none when it matches nowhere |
| GitHubApi.MatchAfterHost | lib/github/api.ts:68 | a match after "github.com/" consists of two non-empty slash-free runs that sit in the URL separated by '/' |
| GitHubApi.StripGitSuffix | lib/github/api.ts:77 | a name ending in ".git" loses exactly that final ".git"; any other name is returned unchanged |
| GitHubApi.ParseGitHubUrl | lib/github/api.ts:66-83 | none exactly when the pattern matches nowhere; otherwise a non-empty owner and a repository without '/' |
| GitHubApi.ParseCanonicalUrl | lib/github/api.ts:66-83 | `https://github.com/<owner>/<repo>[tail]` gives the owner and the repository without ".git" |
| GitHubApi.SortRepositories | lib/github/api.ts:272-277 | a permutation with the most recent activity first |
| JsObjects.GetProperty | lib/github/api.ts:366-397 | an object literal's lookup finds its own entries, and the inherited members for the inherited lower-case keys |
| LanguageIcon.LanguageFromFilename | components/ui/LanguageIcon.tsx:20-54 | corrected (Findings row 3): a language exactly for a listed extension; none for an empty extension |
| LanguageIcon.FinalLanguage | components/ui/LanguageIcon.tsx:56 | a non-empty explicit language wins; with no language and no file name there is none |
| LanguageIcon.IconFor | components/ui/LanguageIcon.tsx:112-135 | corrected (Findings row 3): the code glyph exactly for a language the icon table lacks; the file glyph exactly when its icon is not exported; otherwise the icon in its colour |
| LanguageIcon.ResolveIcon | components/ui/LanguageIcon.tsx:106-136 | corrected (Findings row 3): the placeholder exactly when there is no language; an explicit language is drawn by its icon decision |
| LanguageIcon.IconLookupIgnoresCase | components/ui/LanguageIcon.tsx:112-113 | corrected (Findings row 3): upper-casing an explicit language never changes the icon |
| LanguageIcon.ExtensionLanguagesHaveIcons | components/ui/LanguageIcon.tsx:24-92 | every language the extension table yields is lower-case and has an icon entry |
| LanguageIcon.FilenameNeverCodeFallback | components/ui/LanguageIcon.tsx:112-119 | corrected (Findings row 3): a file name alone never reaches the code glyph |
| LanguageIcon.ResolveIconAsWritten | components/ui/LanguageIcon.tsx:53-113 | rendering throws exactly for a file name whose extension is an inherited key and no explicit language |
| LanguageIcon.ExplicitIconAsWritten | components/ui/LanguageIcon.tsx:112-126 | an explicit language that lower-cases to an inherited key draws the file glyph; any other is drawn as corrected |
| LanguageIcon.FilenameIconAsWritten | components/ui/LanguageIcon.tsx:53-112 | a file name throws exactly when its extension is an inherited key; otherwise it draws what the corrected decision draws |
| LanguageIcon.AsWrittenAgreesOffInheritedKeys | components/ui/LanguageIcon.tsx:53-113 | away from inherited keys the source draws what the corrected decision draws |
| LanguageIcon.ConstructorExtensionThrows | components/ui/LanguageIcon.tsx:53-112 | `Button.constructor` with no language makes rendering throw |

## Left out

- Network, authentication, the GitHub REST calls and their errors are not modelled.
  Only the pure parts of `lib/github/api.ts` named above are.
- React rendering, effects, timers, debouncing, focus, scrolling and `console`
  output are left out. Handlers return the setter and callback calls they make, or
  the next state.
- Fuse.js ranking is the input `ranked`. The Fuse instance is assumed to exist for
  every cached entry, since `set` always builds one.
- The title regular expressions of `generateSnippetTitle` are the input
  `extracted`: the trimmed first line's capture from the first pattern that matched
  with a non-empty group.
- DOM selection detection is the input `hits`, the line numbers of the touched
  spans in document order. Only the data-attribute branch is cited. The fallback
  branch applies the same fold to digit-only spans, whose `lineNum === 0` test
  agrees with `lineNum > 0` on them.
- Date parsing, `toLocaleDateString` and `setMonth` are inputs. Timestamps are
  integer milliseconds, so a NaN date (an unparsable string) is not modelled.
- JSON is abstracted: a stored value either parses to the expected record or is
  unreadable. A record that parses but lacks fields is not modelled. Examples are
  `data.repositories` being missing, or a tree payload without `timestamp`, which
  `loadFromStorage` would return.
- `localStorage.removeItem` is assumed to succeed. The source ignores its
  exceptions.
- `localeCompare` is replaced by lexicographic order on character codes
  (`Strings.StrLe`). `toLowerCase` is modelled on ASCII letters.
- `handleShareClick` also builds a separate `currentSnippet` for the share dialog,
  with a second `Date.now()`. Only the snippet it stores is modelled.
- FileTreeCache.SetStorage: states only the cases that leave storage unchanged. The
  written case is stated through FileTreeCache.SetThenLoad, which needs the key to
  survive the cleanup, and FileTreeCache.CleanupKeepsTen and CleanupKeepsNewest.
- SearchBar.SelectRepository: its ensures omit the new query. The query is stated
  through SearchBar.SelectThenParse, which needs a repository name without '@' and
  '/'.
- GitHubApi.ParseGitHubUrl: does not state the owner and repository for every
  matching URL. It states them for the canonical `https://github.com/...` shapes in
  GitHubApi.ParseCanonicalUrl. The second pattern of the source only matches where
  the first does, so it is not modelled separately.
- TimePill.FormatRelativeTime: the timestamp is a number. The string form, which
  goes through `new Date(string)`, is left to the caller.
- FileTree.BuildTreeHoldsEveryFile: requires a listing GitHub could return, meaning
  clean paths, one entry per path, and no file that is a folder of another. On
  other inputs only the shape (FileTree.BuildTreeShape) and the throwing example
  are stated.
- The `getFuse`, `getAllCachedRepos` and statistics helpers of `lib/github/cache.ts`
  are not modelled. They only read state and are not used by the modelled
  operations.

## Findings

| source | as written | input that shows it | evidently intended | confidence | as-written member | corrected member |
|---|---|---|---|---|---|---|
| lib/github/cache.ts:40-45 | the oldest key is evicted only when it is truthy | 50 cached repositories whose oldest key is "" and a new key: the map grows to 51 | evict the oldest entry whatever its key, keeping at most 50 | not executed | FileTreeCache.EmptyFirstKeyOverfills | FileTreeCache.SetMemoryEvictsOldest |
| lib/github/api.ts:397 | `languageMap[ext]` on an object literal finds inherited members | file `Button.constructor`: the result is the `Object` function, not a string | only the table's own entries, else 'text' | not executed | GitHubApi.GetFileLanguageReturnsPrototypeMember | GitHubApi.GetFileLanguage |
| components/ui/LanguageIcon.tsx:53-113 | `extToLanguage[ext]` finds inherited members, and `toLowerCase` is then called on a non-string | file `Button.constructor` with no language: rendering throws a TypeError | no icon from the extension table, so the placeholder | not executed | LanguageIcon.ConstructorExtensionThrows | LanguageIcon.ResolveIcon |
| lib/recentSnippets.ts:92-99 | the capture is checked for emptiness before it is trimmed | first line `/* */`: the capture is " ", and the title is "" | fall back to `<file name> <line range>` when the trimmed capture is empty | not executed | RecentSnippets.BlankCommentGivesEmptyTitle | RecentSnippets.GenerateSnippetTitle |
