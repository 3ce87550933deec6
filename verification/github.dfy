/** The records the GitHub client hands to the rest of the application (lib/github/api.ts). */
module GitHub {
  import opened Wrappers

  /** `GitHubFile.type`: 'file' | 'dir'. */
  datatype FileType = File | Dir

  /** One entry of a repository tree. Sizes and download URLs are optional, as in the source. */
  datatype GitHubFile = GitHubFile(
    name: string,
    path: string,
    fileType: FileType,
    size: Option<int>,
    sha: string,
    downloadUrl: Option<string>)

  /**
   * A repository. Dates are already parsed to epoch milliseconds; `pushedAt` is `None`
   * when the API sent an empty or missing `pushed_at`.
   */
  datatype GitHubRepo = GitHubRepo(
    name: string,
    fullName: string,
    description: string,
    defaultBranch: string,
    language: string,
    updatedAt: int,
    pushedAt: Option<int>)

  /** A branch; `lastCommitDate` is `None` when the commit lookup failed or gave no date. */
  datatype GitHubBranch = GitHubBranch(
    name: string,
    commitSha: string,
    isProtected: bool,
    lastCommitDate: Option<int>)
}
