/**
 * The recently opened files (lib/recentFiles.ts): a list stored under `hypergit_recent_files`,
 * read back most recent first, holding at most six entries and at most one per
 * (file path, repository, branch). The clock is the parameter `now`; whether `setItem`
 * succeeds is the parameter `writeOk`.
 */
module RecentFiles {
  import opened Wrappers
  import opened Seqs
  import opened Sorting
  import opened GitHub
  import opened LocalStorage

  /** `MAX_RECENT_FILES`. */
  const MaxRecentFiles: nat := 6

  datatype RecentFile = RecentFile(file: GitHubFile, repo: GitHubRepo, branch: string, timestamp: int)

  type RecentFilesSlot = Slot<seq<RecentFile>>

  function Stamp(item: RecentFile): int {
    item.timestamp
  }

  /** `getRecentFiles()`: the stored list, most recent first; [] when nothing readable is stored. */
  function GetRecentFiles(slot: RecentFilesSlot): (r: seq<RecentFile>)
    ensures forall i, j :: 0 <= i < j < |r| ==> r[i].timestamp >= r[j].timestamp
    ensures slot.Holds? ==> multiset(r) == multiset(slot.value)
    ensures !slot.Holds? ==> r == []
  {
    ReadNewestFirst(slot, Stamp)
  }

  /** The entry is for this file path, repository and branch. */
  predicate SameEntry(item: RecentFile, repo: GitHubRepo, file: GitHubFile, branch: string) {
    item.file.path == file.path && item.repo.fullName == repo.fullName && item.branch == branch
  }

  /** The `branch` argument, which defaults to the repository's default branch when omitted. */
  function BranchOrDefault(repo: GitHubRepo, branch: Option<string>): (b: string)
    ensures branch.Some? ==> b == branch.value
    ensures branch.None? ==> b == repo.defaultBranch
  {
    branch.GetOr(repo.defaultBranch)
  }

  /** The stored entries other than the one for this file, repository and branch, most recent first. */
  function Others(slot: RecentFilesSlot, repo: GitHubRepo, file: GitHubFile, branch: string): (r: seq<RecentFile>)
    ensures forall x :: x in r <==> x in GetRecentFiles(slot) && !SameEntry(x, repo, file, branch)
    ensures Subsequence(r, GetRecentFiles(slot))
  {
    var current := GetRecentFiles(slot);
    FilterIsSubsequence(current, x => !SameEntry(x, repo, file, branch));
    Filter(current, x => !SameEntry(x, repo, file, branch))
  }

  /** The list `addRecentFile` writes: the new entry, then the other entries, cut to six. */
  function Updated(slot: RecentFilesSlot, repo: GitHubRepo, file: GitHubFile, b: string, now: int): (items: seq<RecentFile>)
    ensures 1 <= |items| <= MaxRecentFiles
    ensures items[0] == RecentFile(file, repo, b, now)
    ensures forall i :: 1 <= i < |items| ==> !SameEntry(items[i], repo, file, b)
    ensures Subsequence(items[1..], GetRecentFiles(slot))
    ensures forall x :: x in GetRecentFiles(slot) && !SameEntry(x, repo, file, b) ==>
      x in items || |items| == MaxRecentFiles
    ensures |items| == Min(MaxRecentFiles, |Others(slot, repo, file, b)| + 1)
    ensures items[1..] == Others(slot, repo, file, b)[..|items| - 1]
  {
    var entry := RecentFile(file, repo, b, now);
    var others := Others(slot, repo, file, b);
    var items := Take([entry] + others, MaxRecentFiles);
    PushFront(entry, others, GetRecentFiles(slot), MaxRecentFiles);
    TakeCons(entry, others, MaxRecentFiles);
    forall i | 1 <= i < |items|
      ensures !SameEntry(items[i], repo, file, b)
    {
      assert items[i] in others;
    }
    items
  }

  /**
   * `addRecentFile(repo, file, branch)`: the file goes to the front stamped `now`, any older
   * entry for the same file, repository and branch is dropped, and the list is cut to six.
   */
  function AddRecentFile(slot: RecentFilesSlot, repo: GitHubRepo, file: GitHubFile, branch: Option<string>, now: int, writeOk: bool): (r: RecentFilesSlot)
    ensures !writeOk ==> r == slot
    ensures writeOk ==> r.Holds? && 1 <= |r.value| <= MaxRecentFiles
    ensures writeOk ==> r.value[0] == RecentFile(file, repo, BranchOrDefault(repo, branch), now)
    ensures writeOk ==> forall i :: 1 <= i < |r.value| ==> !SameEntry(r.value[i], repo, file, BranchOrDefault(repo, branch))
    ensures writeOk ==> Subsequence(r.value[1..], GetRecentFiles(slot))
    ensures writeOk ==> forall x :: x in GetRecentFiles(slot) && !SameEntry(x, repo, file, BranchOrDefault(repo, branch)) ==>
      x in r.value || |r.value| == MaxRecentFiles
    ensures writeOk ==> |r.value| == Min(MaxRecentFiles, |Others(slot, repo, file, BranchOrDefault(repo, branch))| + 1)
    ensures writeOk ==> r.value[1..] == Others(slot, repo, file, BranchOrDefault(repo, branch))[..|r.value| - 1]
  {
    var items := Updated(slot, repo, file, BranchOrDefault(repo, branch), now);
    Write(slot, items, writeOk)
  }

  /** `removeRecentFile(repo, file, branch)`: every entry for that file, repository and branch goes. */
  function RemoveRecentFile(slot: RecentFilesSlot, repo: GitHubRepo, file: GitHubFile, branch: Option<string>, writeOk: bool): (r: RecentFilesSlot)
    ensures !writeOk ==> r == slot
    ensures writeOk ==> r.Holds?
    ensures writeOk ==> forall x :: x in r.value <==> x in GetRecentFiles(slot) && !SameEntry(x, repo, file, BranchOrDefault(repo, branch))
    ensures writeOk ==> Subsequence(r.value, GetRecentFiles(slot))
  {
    Write(slot, Others(slot, repo, file, BranchOrDefault(repo, branch)), writeOk)
  }

  /** `clearRecentFiles()`: removes the key. */
  function ClearRecentFiles(): (r: RecentFilesSlot)
    ensures GetRecentFiles(r) == []
  {
    Missing
  }

  /**
   * With a clock that has not gone backwards, the file just opened is read back first and
   * the list reads back exactly as it was stored.
   */
  lemma AddThenGet(slot: RecentFilesSlot, repo: GitHubRepo, file: GitHubFile, branch: Option<string>, now: int)
    requires forall x :: x in GetRecentFiles(slot) ==> x.timestamp <= now
    ensures var r := AddRecentFile(slot, repo, file, branch, now, true);
      && GetRecentFiles(r) == r.value
      && GetRecentFiles(r)[0] == RecentFile(file, repo, BranchOrDefault(repo, branch), now)
  {
    var items := AddRecentFile(slot, repo, file, branch, now, true).value;
    NewestInFront(items, GetRecentFiles(slot));
    ReadStoredInOrder(items, Stamp);
  }

  /** A newest entry in front of a subsequence of a newest-first list keeps it newest first. */
  lemma NewestInFront(items: seq<RecentFile>, current: seq<RecentFile>)
    requires |items| >= 1 && Subsequence(items[1..], current)
    requires forall i, j :: 0 <= i < j < |current| ==> current[i].timestamp >= current[j].timestamp
    requires forall x :: x in current ==> x.timestamp <= items[0].timestamp
    ensures Sorted(items, NewerOrSame(Stamp))
  {
    assert Sorted(current, NewerOrSame(Stamp));
    SubsequenceKeepsSorted(items[1..], current, NewerOrSame(Stamp));
    SubsequenceElements(items[1..], current);
    forall i, j | 0 <= i < j < |items|
      ensures NewerOrSame(Stamp)(items[i], items[j])
    {
      if i == 0 {
        assert items[j] == items[1..][j - 1];
      } else {
        assert items[i] == items[1..][i - 1] && items[j] == items[1..][j - 1];
      }
    }
  }

  /** Opening the same file twice leaves a single entry for it, the later one, in front. */
  lemma AddTwiceKeepsOne(slot: RecentFilesSlot, repo: GitHubRepo, file: GitHubFile, branch: Option<string>, t1: int, t2: int)
    requires forall x :: x in GetRecentFiles(slot) ==> x.timestamp <= t1
    requires t1 <= t2
    ensures var items := AddRecentFile(AddRecentFile(slot, repo, file, branch, t1, true), repo, file, branch, t2, true).value;
      var b := BranchOrDefault(repo, branch);
      && items[0] == RecentFile(file, repo, b, t2)
      && forall i :: 0 <= i < |items| && SameEntry(items[i], repo, file, b) ==> i == 0
  {
    AddThenGet(slot, repo, file, branch, t1);
  }

  /** Removing what was just added leaves no entry for it. */
  lemma AddThenRemove(slot: RecentFilesSlot, repo: GitHubRepo, file: GitHubFile, branch: Option<string>, now: int)
    ensures var r := RemoveRecentFile(AddRecentFile(slot, repo, file, branch, now, true), repo, file, branch, true);
      forall x :: x in GetRecentFiles(r) ==> !SameEntry(x, repo, file, BranchOrDefault(repo, branch))
  {
    var r := RemoveRecentFile(AddRecentFile(slot, repo, file, branch, now, true), repo, file, branch, true);
    forall x | x in GetRecentFiles(r)
      ensures !SameEntry(x, repo, file, BranchOrDefault(repo, branch))
    {
      assert x in multiset(GetRecentFiles(r));
    }
  }
}
