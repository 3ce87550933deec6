/**
 * The pure parts of the GitHub client (lib/github/api.ts): the extension to
 * language table, the branch ordering, the tree to file conversion, URL parsing
 * and the repository recency order.
 */
module GitHubApi {
  import opened Wrappers
  import opened Seqs
  import opened Sorting
  import opened Strings
  import opened GitHub
  import opened JsObjects

  // ---------------------------------------------------------------- languages

  const LanguageMap: map<string, string> := map[
    "js" := "javascript", "jsx" := "javascript", "ts" := "typescript", "tsx" := "typescript",
    "py" := "python", "swift" := "swift", "kt" := "kotlin", "java" := "java",
    "cpp" := "cpp", "c" := "c", "h" := "c", "hpp" := "cpp", "cs" := "csharp",
    "rb" := "ruby", "go" := "go", "rs" := "rust", "php" := "php", "sh" := "bash",
    "yaml" := "yaml", "yml" := "yaml", "json" := "json", "xml" := "xml",
    "html" := "html", "css" := "css", "scss" := "scss", "sql" := "sql",
    "md" := "markdown", "dockerfile" := "dockerfile"]

  /** `filename.split('.').pop()?.toLowerCase()`: the lower-cased text after the last dot. */
  function Extension(filename: string): (ext: string)
    ensures ext == ToLower(AfterLast(filename, '.'))
    ensures ToLower(ext) == ext
  {
    SplitLastIsAfterLast(filename, '.');
    ToLowerIdempotent(AfterLast(filename, '.'));
    ToLower(Split(filename, '.')[|Split(filename, '.')| - 1])
  }

  /** The value `getFileLanguage` returns, as the source computes it. */
  datatype LanguageValue = LanguageName(name: string) | PrototypeMember(key: string)

  /**
   * `getFileLanguage` as written: the table is an object literal, so an extension
   * naming an inherited member ("constructor") yields that member, not a string.
   */
  function GetFileLanguageAsWritten(filename: string): (r: LanguageValue)
    ensures r.PrototypeMember? <==> Extension(filename) in InheritedLowerCaseKeys
  {
    InheritedKeysUnlisted();
    match GetProperty(LanguageMap, Extension(filename))
    case Own(v) => LanguageName(v)
    case InheritedMember(k) => PrototypeMember(k)
    case Undefined => LanguageName("text")
  }

  /** The table lists neither inherited key. */
  lemma InheritedKeysUnlisted()
    ensures forall k :: k in InheritedLowerCaseKeys ==> k !in LanguageMap
  {
  }

  /** No extension maps to 'text', the fallback. */
  lemma TextUnlisted()
    ensures forall k :: k in LanguageMap ==> LanguageMap[k] != "text"
  {
  }

  /** The extension of `stem.ext` is `ext`, lower-cased, whatever the stem holds. */
  lemma ExtensionAfterStem(stem: string, ext: string)
    requires '.' !in ext
    ensures Extension(stem + "." + ext) == ToLower(ext)
  {
    assert stem + "." + ext == stem + ['.'] + ext;
    AfterLastOfSuffix(stem, '.', ext);
  }

  /** A file called `Button.constructor` makes the as-written lookup return a non-string. */
  lemma GetFileLanguageReturnsPrototypeMember()
    ensures GetFileLanguageAsWritten("Button" + "." + "constructor") == PrototypeMember("constructor")
  {
    var k := "constructor";
    ConstructorIsLowerCase();
    ExtensionAfterStem("Button", k);
    assert Extension("Button" + "." + k) == k;
    InheritedKeysUnlisted();
    assert GetProperty(LanguageMap, k) == InheritedMember(k);
  }

  lemma ConstructorIsLowerCase()
    ensures '.' !in "constructor" && ToLower("constructor") == "constructor"
  {
    var k := "constructor";
    assert k[0] == 'c' && k[1] == 'o' && k[2] == 'n' && k[3] == 's' && k[4] == 't' && k[5] == 'r'
      && k[6] == 'u' && k[7] == 'c' && k[8] == 't' && k[9] == 'o' && k[10] == 'r';
    ToLowerOfLowerCase(k);
  }

  /** `getFileLanguage` with own-property lookup: every unmapped extension gives 'text'. */
  function GetFileLanguage(filename: string): (r: string)
    ensures Extension(filename) in LanguageMap ==> r == LanguageMap[Extension(filename)]
    ensures Extension(filename) !in LanguageMap ==> r == "text"
    ensures r == "text" <==> Extension(filename) !in LanguageMap
  {
    var ext := Extension(filename);
    TextUnlisted();
    if ext in LanguageMap then LanguageMap[ext] else "text"
  }

  /** The lookup ignores case: upper-casing letters in a file name never changes its language. */
  lemma FileLanguageIgnoresCase(filename: string)
    ensures GetFileLanguage(ToLower(filename)) == GetFileLanguage(filename)
  {
    AfterLastToLower(filename);
    ToLowerIdempotent(AfterLast(filename, '.'));
  }

  /** A name without a dot is looked up whole: "Dockerfile" is a Dockerfile. */
  lemma DotlessNameLookedUpWhole(filename: string)
    requires '.' !in filename
    ensures GetFileLanguage(filename) == (if ToLower(filename) in LanguageMap then LanguageMap[ToLower(filename)] else "text")
  {
  }

  lemma LanguageExamples()
    ensures GetFileLanguage("Dockerfile") == "dockerfile"
    ensures GetFileLanguage("src/App" + "." + "TSX") == "typescript"
  {
    DockerfileExample();
    TsxExample();
  }

  lemma DockerfileExample()
    ensures GetFileLanguage("Dockerfile") == "dockerfile"
  {
    LowerDockerfile();
    DotlessNameLookedUpWhole("Dockerfile");
    assert "dockerfile" in LanguageMap && LanguageMap["dockerfile"] == "dockerfile";
  }

  lemma TsxExample()
    ensures GetFileLanguage("src/App" + "." + "TSX") == "typescript"
  {
    LowerTsx();
    ExtensionAfterStem("src/App", "TSX");
    assert Extension("src/App" + "." + "TSX") == "tsx";
    assert LanguageMap["tsx"] == "typescript";
  }

  lemma LowerTsx()
    ensures '.' !in "TSX" && ToLower("TSX") == "tsx"
  {
    var t := "TSX";
    assert t[0] == 'T' && t[1] == 'S' && t[2] == 'X';
    var l := ToLower(t);
    assert l[0] == 't' && l[1] == 's' && l[2] == 'x';
  }

  lemma LowerDockerfile()
    ensures '.' !in "Dockerfile" && ToLower("Dockerfile") == "dockerfile"
  {
    var d := "Dockerfile";
    assert d[0] == 'D' && d[1] == 'o' && d[2] == 'c' && d[3] == 'k' && d[4] == 'e'
      && d[5] == 'r' && d[6] == 'f' && d[7] == 'i' && d[8] == 'l' && d[9] == 'e';
  }

  // ---------------------------------------------------------------- branches

  /**
   * The comparator of `getRepositoryBranches`: negative puts `a` first. The default branch
   * leads; then dated branches newest first; then undated branches by name.
   */
  function CompareBranches(a: GitHubBranch, b: GitHubBranch, defaultBranch: string): (r: int)
    ensures a.name == defaultBranch ==> r < 0
    ensures a.name != defaultBranch && b.name == defaultBranch ==> r > 0
    ensures a.name != defaultBranch && b.name != defaultBranch ==> (r <= 0 <==> DatedOrder(a, b))
  {
    StrCompareLe(a.name, b.name);
    if a.name == defaultBranch then -1
    else if b.name == defaultBranch then 1
    else match (a.lastCommitDate, b.lastCommitDate)
      case (Some(da), Some(db)) => db - da
      case (Some(_), None) => -1
      case (None, Some(_)) => 1
      case (None, None) => StrCompare(a.name, b.name)
  }

  predicate BranchLe(defaultBranch: string, a: GitHubBranch, b: GitHubBranch) {
    CompareBranches(a, b, defaultBranch) <= 0
  }

  /** How two non-default branches are ordered: by date, newest first; dated before undated; then by name. */
  predicate DatedOrder(a: GitHubBranch, b: GitHubBranch) {
    match (a.lastCommitDate, b.lastCommitDate)
    case (Some(da), Some(db)) => da >= db
    case (None, Some(_)) => false
    case (Some(_), None) => true
    case (None, None) => StrLe(a.name, b.name)
  }

  lemma StrCompareLe(a: string, b: string)
    ensures StrCompare(a, b) <= 0 <==> StrLe(a, b)
  {
    StrLeTotal(a, a);
  }

  lemma BranchLeNonDefault(defaultBranch: string, a: GitHubBranch, b: GitHubBranch)
    requires a.name != defaultBranch && b.name != defaultBranch
    ensures BranchLe(defaultBranch, a, b) <==> DatedOrder(a, b)
  {
    StrCompareLe(a.name, b.name);
  }

  lemma BranchLeIsTotalPreorder(defaultBranch: string)
    ensures TotalPreorder((a, b) => BranchLe(defaultBranch, a, b))
  {
    var le := (a, b) => BranchLe(defaultBranch, a, b);
    forall a, b
      ensures le(a, b) || le(b, a)
    {
      StrLeTotal(a.name, b.name);
      StrCompareLe(a.name, b.name);
      StrCompareLe(b.name, a.name);
    }
    forall a, b, c | le(a, b) && le(b, c)
      ensures le(a, c)
    {
      if a.name != defaultBranch && a.lastCommitDate.None? && c.lastCommitDate.None? {
        assert b.name != defaultBranch && b.lastCommitDate.None?;
        assert c.name != defaultBranch;
        BranchLeNonDefault(defaultBranch, a, b);
        BranchLeNonDefault(defaultBranch, b, c);
        BranchLeNonDefault(defaultBranch, a, c);
        StrLeTransitive(a.name, b.name, c.name);
      }
    }
  }

  /** `getRepositoryBranches`' sort of the dated branch list. */
  function SortBranches(branches: seq<GitHubBranch>, defaultBranch: string): (r: seq<GitHubBranch>)
    ensures multiset(r) == multiset(branches)
    ensures forall i, j :: 0 <= i < j < |r| && r[j].name == defaultBranch ==> r[i].name == defaultBranch
    ensures forall i, j :: 0 <= i < j < |r| && r[i].name != defaultBranch && r[j].name != defaultBranch ==>
      DatedOrder(r[i], r[j])
  {
    BranchLeIsTotalPreorder(defaultBranch);
    var r := SortBy(branches, (a, b) => BranchLe(defaultBranch, a, b));
    assert forall i, j :: 0 <= i < j < |r| ==> BranchLe(defaultBranch, r[i], r[j]);
    forall i, j | 0 <= i < j < |r| && r[i].name != defaultBranch && r[j].name != defaultBranch
      ensures DatedOrder(r[i], r[j])
    {
      BranchLeNonDefault(defaultBranch, r[i], r[j]);
    }
    r
  }

  // ---------------------------------------------------------------- trees

  /** One entry of the recursive git tree listing. */
  datatype TreeItem = TreeItem(path: string, itemType: string, sha: string, size: Option<int>)

  predicate IsBlob(item: TreeItem) {
    item.itemType == "blob"
  }

  function RawUrl(owner: string, repo: string, branch: string, path: string): string {
    "https://raw.githubusercontent.com/" + owner + "/" + repo + "/" + branch + "/" + path
  }

  /** `item.path.split('/').pop() || item.path`. */
  function BaseName(path: string): (name: string)
    ensures name == (if AfterLast(path, '/') == "" then path else AfterLast(path, '/'))
  {
    SplitLastIsAfterLast(path, '/');
    var last := Split(path, '/')[|Split(path, '/')| - 1];
    if last == "" then path else last
  }

  function BlobToFile(item: TreeItem, owner: string, repo: string, branch: string): GitHubFile {
    GitHubFile(BaseName(item.path), item.path, File, item.size, item.sha,
               Some(RawUrl(owner, repo, branch, item.path)))
  }

  /** `getRepositoryTree`'s conversion: blobs only, in order, as files with raw download URLs. */
  function TreeToFiles(items: seq<TreeItem>, owner: string, repo: string, branch: string): (r: seq<GitHubFile>)
    ensures |r| == |Filter(items, IsBlob)|
    ensures forall i :: 0 <= i < |r| ==>
      var item := Filter(items, IsBlob)[i];
      && r[i].name == BaseName(item.path)
      && r[i].path == item.path && r[i].sha == item.sha && r[i].size == item.size
      && r[i].fileType == File
      && r[i].downloadUrl == Some(RawUrl(owner, repo, branch, item.path))
  {
    var blobs := Filter(items, IsBlob);
    seq(|blobs|, i requires 0 <= i < |blobs| => BlobToFile(blobs[i], owner, repo, branch))
  }

  /**
   * Every converted file came from a blob item of the listing, and is named by the
   * last '/'-separated piece of its path, or by the whole path when that piece is empty.
   */
  lemma TreeToFilesNames(items: seq<TreeItem>, owner: string, repo: string, branch: string)
    ensures forall f :: f in TreeToFiles(items, owner, repo, branch) ==>
      && (exists item :: item in items && IsBlob(item) && item.path == f.path)
      && ((f.name != "" && IsLastPiece(f.path, '/', f.name)) || (f.name == f.path && IsLastPiece(f.path, '/', "")))
  {
    var r := TreeToFiles(items, owner, repo, branch);
    forall f | f in r
      ensures && (exists item :: item in items && IsBlob(item) && item.path == f.path)
              && ((f.name != "" && IsLastPiece(f.path, '/', f.name)) || (f.name == f.path && IsLastPiece(f.path, '/', "")))
    {
      var i :| 0 <= i < |r| && r[i] == f;
      TreeFileAt(items, owner, repo, branch, i);
    }
  }

  lemma TreeFileAt(items: seq<TreeItem>, owner: string, repo: string, branch: string, i: nat)
    requires i < |TreeToFiles(items, owner, repo, branch)|
    ensures var f := TreeToFiles(items, owner, repo, branch)[i];
      && (exists item :: item in items && IsBlob(item) && item.path == f.path)
      && ((f.name != "" && IsLastPiece(f.path, '/', f.name)) || (f.name == f.path && IsLastPiece(f.path, '/', "")))
  {
    var f := TreeToFiles(items, owner, repo, branch)[i];
    var item := Filter(items, IsBlob)[i];
    assert item in Filter(items, IsBlob);
    assert item in items && IsBlob(item) && item.path == f.path;
    assert f.name == BaseName(f.path);
    BaseNameIsLastPiece(f.path);
  }

  /** `split('/').pop() || path`: the non-empty last piece, or the whole path when the last piece is empty. */
  lemma BaseNameIsLastPiece(path: string)
    ensures var name := BaseName(path);
      (name != "" && IsLastPiece(path, '/', name)) || (name == path && IsLastPiece(path, '/', ""))
  {
    assert IsLastPiece(path, '/', AfterLast(path, '/'));
  }

  // ---------------------------------------------------------------- URLs

  const Host: string := "github.com/"

  /** The end of the run of non-'/' characters starting at `i`. */
  function RunEnd(s: string, i: nat): (e: nat)
    requires i <= |s|
    ensures i <= e <= |s|
    ensures '/' !in s[i..e]
    ensures e < |s| ==> s[e] == '/'
    decreases |s| - i
  {
    if i == |s| || s[i] == '/' then i
    else
      var e := RunEnd(s, i + 1);
      assert s[i..e] == [s[i]] + s[i + 1..e];
      e
  }

  /** The characters `.` does not match in a JavaScript regular expression. */
  predicate IsLineTerminator(c: char) {
    c == '\n' || c == '\r' || c == '\U{2028}' || c == '\U{2029}'
  }

  datatype RepoRef = RepoRef(owner: string, repo: string)

  /**
   * The rest of `github\.com\/([^\/]+)\/([^\/]+)(?:\.git)?(?:\/.*)?$` once "github.com/"
   * has matched ending at `k`: two non-empty slash-free runs separated by '/', then either
   * the end of input or a '/' followed by a single line. Greedy runs never need to backtrack.
   */
  function MatchAfterHost(url: string, k: nat): (r: Option<(string, string)>)
    requires k <= |url|
    ensures r.Some? ==> var (o, g) := r.value;
      && o != "" && g != "" && '/' !in o && '/' !in g
      && k + |o| + 1 + |g| <= |url| && url[k..k + |o|] == o && url[k + |o|] == '/'
      && url[k + |o| + 1..k + |o| + 1 + |g|] == g
  {
    var e1 := RunEnd(url, k);
    if e1 == k || e1 == |url| then None
    else
      var e2 := RunEnd(url, e1 + 1);
      if e2 == e1 + 1 then None
      else if e2 == |url| || forall j | e2 < j < |url| :: !IsLineTerminator(url[j]) then
        Some((url[k..e1], url[e1 + 1..e2]))
      else None
  }

  predicate HostAt(url: string, p: nat) {
    p + |Host| <= |url| && url[p..p + |Host|] == Host
  }

  predicate MatchesAt(url: string, p: nat) {
    HostAt(url, p) && MatchAfterHost(url, p + |Host|).Some?
  }

  /** The leftmost position at or after `p` where the pattern matches. */
  function FirstMatch(url: string, p: nat): (q: Option<nat>)
    requires p <= |url|
    ensures q.Some? ==> p <= q.value <= |url| && MatchesAt(url, q.value)
    ensures q.Some? ==> forall j :: p <= j < q.value ==> !MatchesAt(url, j)
    ensures q.None? <==> forall j :: p <= j <= |url| ==> !MatchesAt(url, j)
    decreases |url| - p
  {
    if MatchesAt(url, p) then Some(p)
    else if p == |url| then None
    else FirstMatch(url, p + 1)
  }

  /** A match with none before it is the first match. */
  lemma FirstMatchIs(url: string, p: nat, q: nat)
    requires p <= q <= |url| && MatchesAt(url, q)
    requires forall j :: p <= j < q ==> !MatchesAt(url, j)
    ensures FirstMatch(url, p) == Some(q)
  {
    var r := FirstMatch(url, p);
    assert r.Some?;
    var v: nat := r.value;
    assert v < q ==> !MatchesAt(url, v);
    assert v > q ==> !MatchesAt(url, q);
  }

  /** `repo.replace(/\.git$/, '')`: exactly one final ".git" goes; any other name is kept. */
  function StripGitSuffix(repo: string): (r: string)
    ensures (|repo| >= 4 && repo[|repo| - 4..] == ".git") ==> repo == r + ".git"
    ensures !(|repo| >= 4 && repo[|repo| - 4..] == ".git") ==> r == repo
  {
    if |repo| >= 4 && repo[|repo| - 4..] == ".git" then
      assert repo == repo[..|repo| - 4] + ".git";
      repo[..|repo| - 4]
    else repo
  }

  /**
   * `GitHubAPI.parseGitHubUrl`. The second pattern of the source only matches where the
   * first one does, so only the first is modelled.
   */
  function ParseGitHubUrl(url: string): (r: Option<RepoRef>)
    ensures r.None? <==> forall p :: 0 <= p <= |url| ==> !MatchesAt(url, p)
    ensures r.Some? ==> r.value.owner != "" && '/' !in r.value.owner && '/' !in r.value.repo
    ensures (forall p :: 0 <= p <= |url| ==> !HostAt(url, p)) ==> r.None?
  {
    match FirstMatch(url, 0)
    case Some(q) =>
      var (o, g) := MatchAfterHost(url, q + |Host|).value;
      Some(RepoRef(o, StripGitSuffix(g)))
    case None => None
  }

  const HttpsPrefix: string := "https://github.com/"

  lemma HttpsPrefixHostOnlyAt8(url: string)
    requires |url| >= |HttpsPrefix| && url[..|HttpsPrefix|] == HttpsPrefix
    ensures HostAt(url, 8)
    ensures forall p :: 0 <= p < 8 ==> !HostAt(url, p)
  {
    assert url[8..19] == HttpsPrefix[8..19];
    forall p | 0 <= p < 8
      ensures !HostAt(url, p)
    {
      assert url[p] == HttpsPrefix[p];
    }
  }

  /** After the host, `owner/repo` followed by nothing or by a one-line path matches as (owner, repo). */
  lemma MatchOwnerRepo(url: string, k: nat, owner: string, repo: string, tail: string)
    requires owner != "" && '/' !in owner
    requires repo != "" && '/' !in repo
    requires tail == "" || (tail[0] == '/' && forall j :: 0 <= j < |tail| ==> !IsLineTerminator(tail[j]))
    requires k <= |url| && url[k..] == owner + "/" + repo + tail
    ensures MatchAfterHost(url, k) == Some((owner, repo))
  {
    var rest := url[k..];
    var e1 := k + |owner|;
    assert url[k..e1] == rest[..|owner|] == owner;
    assert url[e1] == rest[|owner|] == '/';
    RunEndOver(url, k, e1);
    var e2 := e1 + 1 + |repo|;
    assert url[e1 + 1..e2] == rest[|owner| + 1..|owner| + 1 + |repo|] == repo;
    if tail != "" {
      assert url[e2] == rest[|owner| + 1 + |repo|] == tail[0];
      forall j | e2 < j < |url|
        ensures !IsLineTerminator(url[j])
      {
        assert url[j] == rest[j - k] == tail[j - e2];
      }
    }
    RunEndOver(url, e1 + 1, e2);
  }

  /** The usual URL shapes give back their owner and repository, with ".git" removed. */
  lemma ParseCanonicalUrl(owner: string, repo: string, tail: string)
    requires owner != "" && '/' !in owner
    requires repo != "" && '/' !in repo
    requires tail == "" || (tail[0] == '/' && forall j :: 0 <= j < |tail| ==> !IsLineTerminator(tail[j]))
    ensures ParseGitHubUrl(HttpsPrefix + owner + "/" + repo + tail) == Some(RepoRef(owner, StripGitSuffix(repo)))
  {
    var url := HttpsPrefix + owner + "/" + repo + tail;
    assert url[..|HttpsPrefix|] == HttpsPrefix;
    HttpsPrefixHostOnlyAt8(url);
    assert url[19..] == owner + "/" + repo + tail;
    MatchOwnerRepo(url, 19, owner, repo, tail);
    FirstMatchIs(url, 0, 8);
  }

  lemma RunEndOver(s: string, i: nat, e: nat)
    requires i <= e <= |s|
    requires '/' !in s[i..e]
    requires e < |s| ==> s[e] == '/'
    ensures RunEnd(s, i) == e
    decreases e - i
  {
    if i < e {
      assert s[i] in s[i..e];
      assert s[i + 1..e] == s[i..e][1..];
      RunEndOver(s, i + 1, e);
    }
  }

  // ---------------------------------------------------------------- repositories

  /** `new Date(pushed_at || updated_at)`. */
  function ActivityTime(repo: GitHubRepo): int {
    repo.pushedAt.GetOr(repo.updatedAt)
  }

  predicate MoreRecent(a: GitHubRepo, b: GitHubRepo) {
    ActivityTime(a) >= ActivityTime(b)
  }

  /** `getUserRepositories`' final sort: most recent activity first. */
  function SortRepositories(repos: seq<GitHubRepo>): (r: seq<GitHubRepo>)
    ensures multiset(r) == multiset(repos)
    ensures forall i, j :: 0 <= i < j < |r| ==> ActivityTime(r[i]) >= ActivityTime(r[j])
  {
    SortBy(repos, MoreRecent)
  }
}
