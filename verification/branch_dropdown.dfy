/**
 * The branch list of the search dropdown (components/SearchBar/components/BranchDropdown.tsx):
 * each branch's name, a "default" badge and, when the commit date is known, how long ago
 * the last commit was. The clock is `now`; `toLocaleDateString()` is the opaque `localeDate`.
 */
module BranchDropdown {
  import opened Wrappers
  import opened GitHub
  import opened RelativeTime

  /** `formatRelativeTime(date)`: the locale date after thirty whole days, else "... ago" or "just now". */
  function FormatRelativeTime(now: int, date: int, localeDate: string): (text: string)
    ensures now - date >= 31 * DayMs ==> text == localeDate
    ensures now - date < 31 * DayMs ==> text == Render(CoarsestFirst(now - date), "just now", localeDate)
    ensures now - date < MinuteMs ==> text == "just now"
  {
    var diffDays := FloorDiv(now - date, DayMs);
    if diffDays > 30 then localeDate
    else Render(CoarsestFirst(now - date), "just now", localeDate)
  }

  /** One row as shown: the name, whether it has the badge, and the last-commit line if any. */
  datatype BranchRow = BranchRow(name: string, isDefault: bool, lastCommit: Option<string>)

  /** The row of `branch` in the list for `repo`; `localeDate` renders a commit date. */
  function RowOf(branch: GitHubBranch, repo: GitHubRepo, now: int, localeDate: int -> string): (row: BranchRow)
    ensures row.name == branch.name
    ensures row.isDefault <==> branch.name == repo.defaultBranch
    ensures row.lastCommit.Some? <==> branch.lastCommitDate.Some?
    ensures branch.lastCommitDate.Some? ==>
      var d := branch.lastCommitDate.value;
      row.lastCommit.value == "Last commit " + FormatRelativeTime(now, d, localeDate(d))
  {
    BranchRow(
      branch.name,
      branch.name == repo.defaultBranch,
      match branch.lastCommitDate
      case Some(d) => Some("Last commit " + FormatRelativeTime(now, d, localeDate(d)))
      case None => None)
  }

  /** The rows of the filtered branches, in their order. */
  function Rows(branches: seq<GitHubBranch>, repo: GitHubRepo, now: int, localeDate: int -> string): (rows: seq<BranchRow>)
    ensures |rows| == |branches|
    ensures forall i :: 0 <= i < |rows| ==> rows[i] == RowOf(branches[i], repo, now, localeDate)
  {
    seq(|branches|, i requires 0 <= i < |branches| => RowOf(branches[i], repo, now, localeDate))
  }

  /** Among branches with distinct names at most one row has the "default" badge. */
  lemma AtMostOneDefault(branches: seq<GitHubBranch>, repo: GitHubRepo, now: int, localeDate: int -> string)
    requires forall i, j :: 0 <= i < j < |branches| ==> branches[i].name != branches[j].name
    ensures var rows := Rows(branches, repo, now, localeDate);
      forall i, j :: 0 <= i < |rows| && 0 <= j < |rows| && rows[i].isDefault && rows[j].isDefault ==> i == j
  {
    var rows := Rows(branches, repo, now, localeDate);
    forall i, j | 0 <= i < |rows| && 0 <= j < |rows| && rows[i].isDefault && rows[j].isDefault
      ensures i == j
    {
      assert branches[i].name == repo.defaultBranch == branches[j].name;
    }
  }
}
