/**
 * The file viewer's selection logic (components/FileBrowser/FilePreview.tsx): which lines
 * a mouse selection covers, the code of those lines, and the snippet saved or shared from
 * them. Which line spans the browser selection touches is the input `hits`: their line
 * numbers in document order.
 */
module FilePreview {
  import opened Wrappers
  import opened Seqs
  import opened Strings
  import opened GitHub
  import opened LocalStorage
  import GitHubApi
  import opened RecentSnippets

  /**
   * The line range a selection covers: the least and greatest positive line number among
   * the spans it touches, or none when it touches no numbered line.
   */
  method SelectedLines(hits: seq<int>) returns (r: Option<LineRange>)
    ensures r.None? <==> forall i :: 0 <= i < |hits| ==> hits[i] <= 0
    ensures r.Some? ==> 1 <= r.value.start <= r.value.end
    ensures r.Some? ==> r.value.start in hits && r.value.end in hits
    ensures r.Some? ==> forall i :: 0 <= i < |hits| && hits[i] > 0 ==> r.value.start <= hits[i] <= r.value.end
  {
    var startLine: Option<int> := None;
    var endLine: Option<int> := None;
    var k := 0;
    while k < |hits|
      invariant 0 <= k <= |hits|
      invariant startLine.None? <==> endLine.None?
      invariant startLine.None? <==> forall i :: 0 <= i < k ==> hits[i] <= 0
      invariant startLine.Some? ==> 1 <= startLine.value <= endLine.value
      invariant startLine.Some? ==> startLine.value in hits[..k] && endLine.value in hits[..k]
      invariant startLine.Some? ==> forall i :: 0 <= i < k && hits[i] > 0 ==> startLine.value <= hits[i] <= endLine.value
    {
      var lineNum := hits[k];
      if lineNum > 0 {
        if startLine.None? || lineNum < startLine.value {
          startLine := Some(lineNum);
        }
        if endLine.None? || lineNum > endLine.value {
          endLine := Some(lineNum);
        }
      }
      k := k + 1;
    }
    assert hits[..k] == hits;
    if startLine.Some? && startLine.value != 0 && endLine.Some? && endLine.value != 0 {
      r := Some(LineRange(startLine.value, endLine.value));
    } else {
      r := None;
    }
  }

  /**
   * `getSelectedCode()`: with a selection and non-empty content, lines `start` to `end`
   * (1-based, inclusive) of the content, joined by line breaks; otherwise "".
   */
  function GetSelectedCode(selected: Option<LineRange>, content: string): (code: string)
    ensures selected.None? || content == "" ==> code == ""
    ensures selected.Some? && content != "" ==>
      code == Join(JsSlice(Split(content, '\n'), selected.value.start - 1, selected.value.end), '\n')
  {
    if selected.None? || content == "" then ""
    else Join(JsSlice(Split(content, '\n'), selected.value.start - 1, selected.value.end), '\n')
  }

  /** A selection within the content gives back exactly the selected lines. */
  lemma SelectedCodeIsTheLines(lines: LineRange, content: string)
    requires content != ""
    requires 1 <= lines.start <= lines.end <= |Split(content, '\n')|
    ensures var code := GetSelectedCode(Some(lines), content);
      Split(code, '\n') == Split(content, '\n')[lines.start - 1..lines.end]
  {
    var all := Split(content, '\n');
    assert JsSlice(all, lines.start - 1, lines.end) == all[lines.start - 1..lines.end];
    LinesRejoin(all, lines.start - 1, lines.end);
  }

  lemma LinesRejoin(all: seq<string>, a: nat, b: nat)
    requires a < b <= |all|
    requires forall i :: 0 <= i < |all| ==> '\n' !in all[i]
    ensures Split(Join(all[a..b], '\n'), '\n') == all[a..b]
  {
    var picked := all[a..b];
    assert forall i :: 0 <= i < |picked| ==> picked[i] == all[a + i];
    SplitJoin(picked, '\n');
  }

  /** Selecting every line gives back the whole content. */
  lemma SelectAllIsWholeContent(content: string)
    requires content != ""
    ensures GetSelectedCode(Some(LineRange(1, |Split(content, '\n')|)), content) == content
  {
    var all := Split(content, '\n');
    assert JsSlice(all, 0, |all|) == all;
    JoinSplit(content, '\n');
  }

  /** The title of a shared snippet: `<repo>/<file> (L<start>-<end>)`, with both ends even for one line. */
  function ShareTitle(repo: GitHubRepo, file: GitHubFile, lines: LineRange): (title: string)
    ensures title != ""
    ensures lines.start != lines.end ==> title == repo.name + "/" + file.name + " (" + LineRangeLabel(lines) + ")"
    ensures lines.start == lines.end ==>
      && title == repo.name + "/" + file.name + " (" + LineRangeLabel(lines) + "-" + IntToString(lines.end) + ")"
      && title != repo.name + "/" + file.name + " (" + LineRangeLabel(lines) + ")"
  {
    var title := repo.name + "/" + file.name + " (L" + IntToString(lines.start) + "-" + IntToString(lines.end) + ")";
    TitleShape(repo.name + "/" + file.name, IntToString(lines.start), IntToString(lines.end));
    assert |title| > |repo.name + "/" + file.name + " (" + "L" + IntToString(lines.start) + ")"|;
    title
  }

  lemma TitleShape(head: string, x: string, y: string)
    ensures head + " (L" + x + "-" + y + ")" == head + " (" + ("L" + x) + "-" + y + ")"
  {
  }

  /**
   * `handleShareClick()`: with a selection, records a snippet of the selected code titled
   * with `ShareTitle`; without one, nothing happens.
   */
  function ShareSnippet(slot: SnippetsSlot, repo: GitHubRepo, file: GitHubFile, branch: string,
                        selected: Option<LineRange>, content: string, idTime: int, now: int, writeOk: bool): (r: SnippetsSlot)
    ensures selected.None? || !writeOk ==> r == slot
    ensures selected.Some? && writeOk ==>
      && r.Holds? && |r.value| >= 1
      && r.value[0].title == ShareTitle(repo, file, selected.value)
      && r.value[0].code == GetSelectedCode(selected, content)
      && r.value[0].language == GitHubApi.GetFileLanguage(file.name)
      && r.value[0].selectedLines == selected.value
  {
    match selected
    case None => slot
    case Some(lines) =>
      AddRecentSnippet(slot, repo, file, branch, lines, GetSelectedCode(selected, content),
                       GitHubApi.GetFileLanguage(file.name), Some(ShareTitle(repo, file, lines)), None, idTime, now, writeOk)
  }

  /**
   * `saveSnippet()`: with a selection, records a snippet of the selected code under a
   * generated title (`extracted` is what the title patterns capture from its first line).
   */
  function SaveSnippet(slot: SnippetsSlot, repo: GitHubRepo, file: GitHubFile, branch: string,
                       selected: Option<LineRange>, content: string, extracted: Option<string>,
                       idTime: int, now: int, writeOk: bool): (r: SnippetsSlot)
    ensures selected.None? || !writeOk ==> r == slot
    ensures selected.Some? && writeOk ==>
      && r.Holds? && |r.value| >= 1
      && r.value[0].title == GenerateSnippetTitle(file, selected.value, extracted)
      && r.value[0].code == GetSelectedCode(selected, content)
      && r.value[0].language == GitHubApi.GetFileLanguage(file.name)
  {
    match selected
    case None => slot
    case Some(lines) =>
      AddRecentSnippet(slot, repo, file, branch, lines, GetSelectedCode(selected, content),
                       GitHubApi.GetFileLanguage(file.name), None, extracted, idTime, now, writeOk)
  }
}
