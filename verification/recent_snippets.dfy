/**
 * The recently captured code snippets (lib/recentSnippets.ts): a list stored under
 * `hypergit_recent_snippets`, read back most recent first and holding at most twelve
 * entries. Unlike the recent files, nothing is deduplicated: the same lines captured twice
 * are two snippets with different ids. `addRecentSnippet` reads the clock twice, once for
 * the id and once for the timestamp: the two readings are the parameters `idTime` and `now`.
 * Whether `setItem` succeeds is the parameter `writeOk`.
 */
module RecentSnippets {
  import opened Wrappers
  import opened Seqs
  import opened Sorting
  import opened Strings
  import opened GitHub
  import opened LocalStorage

  /** `MAX_RECENT_SNIPPETS`. */
  const MaxRecentSnippets: nat := 12

  /** `selectedLines`: 1-based line numbers. */
  datatype LineRange = LineRange(start: int, end: int)

  datatype RecentSnippet = RecentSnippet(
    id: string,
    file: GitHubFile,
    repo: GitHubRepo,
    branch: string,
    selectedLines: LineRange,
    code: string,
    language: string,
    title: string,
    timestamp: int)

  type SnippetsSlot = Slot<seq<RecentSnippet>>

  function Stamp(item: RecentSnippet): int {
    item.timestamp
  }

  /** `getRecentSnippets()`: the stored list, most recent first; [] when nothing readable is stored. */
  function GetRecentSnippets(slot: SnippetsSlot): (r: seq<RecentSnippet>)
    ensures forall i, j :: 0 <= i < j < |r| ==> r[i].timestamp >= r[j].timestamp
    ensures slot.Holds? ==> multiset(r) == multiset(slot.value)
    ensures !slot.Holds? ==> r == []
  {
    ReadNewestFirst(slot, Stamp)
  }

  /**
   * The line-range label: `L<start>` for a single line, `L<start>-<end>` otherwise. The
   * fallback snippet title and the snippet cards (components/RecentSnippets.tsx) both use it.
   */
  function LineRangeLabel(lines: LineRange): (text: string)
    ensures |text| >= 2 && text[0] == 'L'
    ensures lines.start == lines.end ==> text == "L" + IntToString(lines.start)
    ensures lines.start != lines.end ==> text == "L" + IntToString(lines.start) + "-" + IntToString(lines.end)
  {
    "L" + IntToString(lines.start) + (if lines.start == lines.end then "" else "-" + IntToString(lines.end))
  }

  /** Different ranges of non-negative line numbers get different labels. */
  lemma LineRangeLabelInjective(a: LineRange, b: LineRange)
    requires a.start >= 0 && a.end >= 0 && b.start >= 0 && b.end >= 0
    requires LineRangeLabel(a) == LineRangeLabel(b)
    ensures a == b
  {
    var xa, ya := NatToString(a.start), NatToString(a.end);
    var xb, yb := NatToString(b.start), NatToString(b.end);
    LabelDigits(a);
    LabelDigits(b);
    if a.start == a.end && b.start == b.end {
      NatToStringInjective(a.start, b.start);
    } else if a.start != a.end && b.start != b.end {
      DigitsAroundSeparator(xa, ya, xb, yb, '-');
      NatToStringInjective(a.start, b.start);
      NatToStringInjective(a.end, b.end);
    } else if a.start == a.end {
      NoSeparatorInDigits(xa, xb, yb, '-');
    } else {
      NoSeparatorInDigits(xb, xa, ya, '-');
    }
  }

  /** After its 'L', the label of a non-negative range is one or two digit runs joined by '-'. */
  lemma LabelDigits(r: LineRange)
    requires r.start >= 0 && r.end >= 0
    ensures var rest := LineRangeLabel(r)[1..];
      && (r.start == r.end ==> rest == NatToString(r.start))
      && (r.start != r.end ==> rest == NatToString(r.start) + ['-'] + NatToString(r.end))
  {
    var l := LineRangeLabel(r);
    if r.start == r.end {
      assert l == "L" + NatToString(r.start);
    } else {
      assert l == "L" + (NatToString(r.start) + ['-'] + NatToString(r.end));
    }
  }

  lemma NoSeparatorInDigits(z: string, x: string, y: string, sep: char)
    requires AllDigits(z) && !('0' <= sep <= '9')
    ensures z != x + [sep] + y
  {
    if z == x + [sep] + y {
      SeparatorAt(x, y, sep);
      assert false;
    }
  }

  /** The snippet id: repository, file path, branch, lines and capture time, joined by '-'. */
  function SnippetId(repo: GitHubRepo, file: GitHubFile, branch: string, lines: LineRange, now: int): (id: string)
    ensures now >= 0 ==> AfterLast(id, '-') == NatToString(now)
  {
    var stem := repo.fullName + "-" + file.path + "-" + branch + "-" + IntToString(lines.start) + "-" + IntToString(lines.end);
    EndsWithTime(stem, now);
    stem + "-" + IntToString(now)
  }

  lemma EndsWithTime(stem: string, now: int)
    ensures now >= 0 ==> AfterLast(stem + "-" + IntToString(now), '-') == NatToString(now)
  {
    if now >= 0 {
      assert stem + "-" + IntToString(now) == stem + ['-'] + NatToString(now);
      AfterLastOfSuffix(stem, '-', NatToString(now));
    }
  }

  /**
   * Ids of captures at different moments differ, whatever was captured; two captures in the
   * same millisecond of the same lines share an id.
   */
  lemma SnippetIdsDifferInTime(repo: GitHubRepo, file: GitHubFile, branch: string, lines: LineRange,
                               repo': GitHubRepo, file': GitHubFile, branch': string, lines': LineRange,
                               t: nat, t': nat)
    requires t != t'
    ensures SnippetId(repo, file, branch, lines, t) != SnippetId(repo', file', branch', lines', t')
  {
    if SnippetId(repo, file, branch, lines, t) == SnippetId(repo', file', branch', lines', t') {
      NatToStringInjective(t, t');
    }
  }

  /** The title a trimmed first-pattern capture gives, or the file name and line range. */
  function GenerateSnippetTitle(file: GitHubFile, lines: LineRange, extracted: Option<string>): (title: string)
    ensures title != ""
    ensures extracted.Some? && Trim(extracted.value) != "" ==> title == Trim(extracted.value)
    ensures extracted.None? || Trim(extracted.value) == "" ==> title == file.name + " " + LineRangeLabel(lines)
  {
    if extracted.Some? && Trim(extracted.value) != "" then Trim(extracted.value)
    else file.name + " " + LineRangeLabel(lines)
  }

  /**
   * `generateSnippetTitle` as written: `extracted` is the capture group of the first title
   * pattern that matched with a non-empty group, and it is trimmed only after that test.
   */
  function GenerateSnippetTitleAsWritten(file: GitHubFile, lines: LineRange, extracted: Option<string>): (title: string)
    ensures extracted.Some? && extracted.value != "" ==> title == Trim(extracted.value)
    ensures extracted.None? || extracted.value == "" ==> title == file.name + " " + LineRangeLabel(lines)
  {
    if extracted.Some? && extracted.value != "" then Trim(extracted.value)
    else file.name + " " + LineRangeLabel(lines)
  }

  /**
   * On a first line `/* */` the comment pattern captures the single space between the
   * markers; it passes the non-empty test and trims to the empty title.
   */
  lemma BlankCommentGivesEmptyTitle(file: GitHubFile, lines: LineRange)
    ensures GenerateSnippetTitleAsWritten(file, lines, Some(" ")) == ""
    ensures GenerateSnippetTitle(file, lines, Some(" ")) == file.name + " " + LineRangeLabel(lines)
  {
    assert IsSpace(' ');
    assert TrimStart(" ") == TrimStart("");
  }

  /** The title a new snippet gets: the caller's, unless it is missing or empty. */
  function SnippetTitle(title: Option<string>, file: GitHubFile, lines: LineRange, extracted: Option<string>): (t: string)
    ensures t != ""
    ensures title.Some? && title.value != "" ==> t == title.value
    ensures title.None? || title.value == "" ==> t == GenerateSnippetTitle(file, lines, extracted)
  {
    if title.Some? && title.value != "" then title.value else GenerateSnippetTitle(file, lines, extracted)
  }

  /**
   * `addRecentSnippet(...)`: the new snippet goes to the front, its id built from the first
   * clock reading `idTime` and stamped with the second, `now`; every stored snippet follows
   * in order, and only the overflow beyond twelve is dropped.
   */
  function AddRecentSnippet(slot: SnippetsSlot, repo: GitHubRepo, file: GitHubFile, branch: string, lines: LineRange,
                            code: string, language: string, title: Option<string>, extracted: Option<string>,
                            idTime: int, now: int, writeOk: bool): (r: SnippetsSlot)
    ensures !writeOk ==> r == slot
    ensures writeOk ==> r.Holds? && 1 <= |r.value| <= MaxRecentSnippets
    ensures writeOk ==> r.value[0] == RecentSnippet(SnippetId(repo, file, branch, lines, idTime), file, repo, branch, lines,
                                                    code, language, SnippetTitle(title, file, lines, extracted), now)
    ensures writeOk ==> |r.value| == Min(MaxRecentSnippets, |GetRecentSnippets(slot)| + 1)
    ensures writeOk ==> r.value[1..] == GetRecentSnippets(slot)[..|r.value| - 1]
  {
    var snippet := RecentSnippet(SnippetId(repo, file, branch, lines, idTime), file, repo, branch, lines,
                                 code, language, SnippetTitle(title, file, lines, extracted), now);
    TakeCons(snippet, GetRecentSnippets(slot), MaxRecentSnippets);
    Write(slot, Take([snippet] + GetRecentSnippets(slot), MaxRecentSnippets), writeOk)
  }

  /** `removeRecentSnippet(id)`: exactly the snippets with that id go; the rest keep their order. */
  function RemoveRecentSnippet(slot: SnippetsSlot, id: string, writeOk: bool): (r: SnippetsSlot)
    ensures !writeOk ==> r == slot
    ensures writeOk ==> r.Holds?
    ensures writeOk ==> forall x :: x in r.value <==> x in GetRecentSnippets(slot) && x.id != id
    ensures writeOk ==> Subsequence(r.value, GetRecentSnippets(slot))
  {
    var current := GetRecentSnippets(slot);
    FilterIsSubsequence(current, (x: RecentSnippet) => x.id != id);
    Write(slot, Filter(current, (x: RecentSnippet) => x.id != id), writeOk)
  }

  /** `clearRecentSnippets()`: removes the key. */
  function ClearRecentSnippets(): (r: SnippetsSlot)
    ensures GetRecentSnippets(r) == []
  {
    Missing
  }

  /** `updateSnippetTitle(id, title)`: the snippets with that id are retitled; nothing else changes. */
  function UpdateSnippetTitle(slot: SnippetsSlot, id: string, newTitle: string, writeOk: bool): (r: SnippetsSlot)
    ensures !writeOk ==> r == slot
    ensures writeOk ==> r.Holds? && |r.value| == |GetRecentSnippets(slot)|
    ensures writeOk ==> forall i :: 0 <= i < |r.value| ==>
      var prior := GetRecentSnippets(slot)[i];
      && r.value[i].(title := prior.title) == prior
      && (prior.id == id ==> r.value[i].title == newTitle)
      && (prior.id != id ==> r.value[i] == prior)
  {
    var current := GetRecentSnippets(slot);
    Write(slot, seq(|current|, i requires 0 <= i < |current| =>
      if current[i].id == id then current[i].(title := newTitle) else current[i]), writeOk)
  }

  /** A list whose timestamps do not increase reads back as stored. */
  lemma NewestFirstReadsBack(items: seq<RecentSnippet>)
    requires forall i, j :: 0 <= i < j < |items| ==> items[i].timestamp >= items[j].timestamp
    ensures GetRecentSnippets(Holds(items)) == items
  {
    assert Sorted(items, NewerOrSame(Stamp));
    ReadStoredInOrder(items, Stamp);
  }

  /**
   * With a clock that has not gone backwards, the snippet just captured is read back first
   * and the list reads back exactly as it was stored.
   */
  lemma AddThenGet(slot: SnippetsSlot, repo: GitHubRepo, file: GitHubFile, branch: string, lines: LineRange,
                   code: string, language: string, title: Option<string>, extracted: Option<string>,
                   idTime: int, now: int)
    requires forall x :: x in GetRecentSnippets(slot) ==> x.timestamp <= now
    ensures var r := AddRecentSnippet(slot, repo, file, branch, lines, code, language, title, extracted, idTime, now, true);
      && GetRecentSnippets(r) == r.value
      && GetRecentSnippets(r)[0].timestamp == now
  {
    var items := AddRecentSnippet(slot, repo, file, branch, lines, code, language, title, extracted, idTime, now, true).value;
    var current := GetRecentSnippets(slot);
    forall i, j | 0 <= i < j < |items|
      ensures items[i].timestamp >= items[j].timestamp
    {
      assert items[j] == current[j - 1];
      assert current[j - 1] in current;
      if i > 0 {
        assert items[i] == current[i - 1];
      }
    }
    NewestFirstReadsBack(items);
  }

  /**
   * Capturing the same lines twice, the second time in a later millisecond of a clock that
   * does not go backwards, keeps both captures, newest first, under different ids.
   */
  lemma AddTwiceKeepsBoth(slot: SnippetsSlot, repo: GitHubRepo, file: GitHubFile, branch: string, lines: LineRange,
                          code: string, language: string, title: Option<string>, extracted: Option<string>,
                          i1: nat, t1: nat, i2: nat, t2: nat)
    requires forall x :: x in GetRecentSnippets(slot) ==> x.timestamp <= t1
    requires i1 <= t1 < i2 <= t2
    ensures var first := AddRecentSnippet(slot, repo, file, branch, lines, code, language, title, extracted, i1, t1, true);
      var items := AddRecentSnippet(first, repo, file, branch, lines, code, language, title, extracted, i2, t2, true).value;
      && |items| >= 2
      && items[1] == first.value[0]
      && items[0] == items[1].(id := SnippetId(repo, file, branch, lines, i2), timestamp := t2)
      && items[0].id != items[1].id
  {
    var first := AddRecentSnippet(slot, repo, file, branch, lines, code, language, title, extracted, i1, t1, true);
    AddThenGet(slot, repo, file, branch, lines, code, language, title, extracted, i1, t1);
    SecondAddFollowsFirst(first, repo, file, branch, lines, code, language, title, extracted, i2, t2);
    SnippetIdsDifferInTime(repo, file, branch, lines, repo, file, branch, lines, i2, i1);
  }

  lemma SecondAddFollowsFirst(first: SnippetsSlot, repo: GitHubRepo, file: GitHubFile, branch: string, lines: LineRange,
                              code: string, language: string, title: Option<string>, extracted: Option<string>,
                              i2: int, t2: int)
    requires first.Holds? && |first.value| >= 1 && GetRecentSnippets(first) == first.value
    ensures var items := AddRecentSnippet(first, repo, file, branch, lines, code, language, title, extracted, i2, t2, true).value;
      |items| >= 2 && items[1] == first.value[0]
  {
  }

  /** Retitling twice is retitling once with the second title. */
  lemma UpdateTitleTwice(slot: SnippetsSlot, id: string, t1: string, t2: string)
    ensures UpdateSnippetTitle(UpdateSnippetTitle(slot, id, t1, true), id, t2, true)
         == UpdateSnippetTitle(slot, id, t2, true)
  {
    var current := GetRecentSnippets(slot);
    var once := UpdateSnippetTitle(slot, id, t1, true).value;
    forall i, j | 0 <= i < j < |once|
      ensures once[i].timestamp >= once[j].timestamp
    {
      assert once[i].timestamp == current[i].timestamp && once[j].timestamp == current[j].timestamp;
    }
    NewestFirstReadsBack(once);
    var twice := UpdateSnippetTitle(UpdateSnippetTitle(slot, id, t1, true), id, t2, true).value;
    var direct := UpdateSnippetTitle(slot, id, t2, true).value;
    assert |twice| == |direct|;
    forall i | 0 <= i < |twice|
      ensures twice[i] == direct[i]
    {
    }
    assert twice == direct;
  }

  /** Removing a snippet leaves every other snippet, in order, and none with that id. */
  lemma RemoveKeepsOthers(slot: SnippetsSlot, id: string)
    ensures var r := RemoveRecentSnippet(slot, id, true);
      forall x :: x in GetRecentSnippets(r) <==> x in GetRecentSnippets(slot) && x.id != id
  {
    var r := RemoveRecentSnippet(slot, id, true);
    forall x
      ensures x in GetRecentSnippets(r) <==> x in r.value
    {
      assert x in GetRecentSnippets(r) <==> x in multiset(GetRecentSnippets(r));
      assert x in r.value <==> x in multiset(r.value);
    }
  }
}
