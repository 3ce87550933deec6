/**
 * The helpers of the snippet cards (components/RecentSnippets.tsx): how long ago a snippet
 * was captured and the three-line preview of its code. The card's line-range label is
 * `RecentSnippets.LineRangeLabel`.
 */
module RecentSnippetsView {
  import opened Strings
  import opened RelativeTime
  import Seqs

  /** `getRelativeTime(timestamp)` at time `now`. */
  function GetRelativeTime(now: int, timestamp: int): (text: string)
    ensures text == "Just now" <==> now - timestamp < MinuteMs
    ensures text == Render(CoarsestFirst(now - timestamp), "Just now", "")
  {
    FinestFirstIsCoarsestFirst(now - timestamp);
    AgoIsNotJustNow(CoarsestFirst(now - timestamp));
    Render(FinestFirst(now - timestamp), "Just now", "")
  }

  /** Every "... ago" text ends in 'o', so none reads "Just now". */
  lemma AgoIsNotJustNow(age: Age)
    ensures age.MinutesAgo? || age.HoursAgo? || age.DaysAgo? ==> Render(age, "Just now", "") != "Just now"
  {
    if age.MinutesAgo? || age.HoursAgo? || age.DaysAgo? {
      var text := Render(age, "Just now", "");
      assert text[|text| - 1] == 'o';
    }
  }

  /** The preview's default length in lines. */
  const PreviewLines: nat := 3

  /**
   * `getCodePreview(code, maxLines)`: the code itself when it has at most `maxLines` lines,
   * else its first `maxLines` lines followed by a line "...".
   */
  function GetCodePreview(code: string, maxLines: nat): (preview: string)
    ensures |Split(code, '\n')| <= maxLines ==> preview == code
    ensures |Split(code, '\n')| > maxLines ==>
      preview == Join(Split(code, '\n')[..maxLines], '\n') + "\n..."
  {
    var lines := Split(code, '\n');
    if |lines| <= maxLines then code
    else Join(Seqs.JsSlice(lines, 0, maxLines), '\n') + "\n..."
  }

  /**
   * A cut preview is a prefix of the code that ends just before a line break and holds
   * exactly `maxLines` lines, followed by "\n...".
   */
  lemma CodePreviewIsPrefix(code: string, maxLines: nat)
    requires maxLines >= 1 && |Split(code, '\n')| > maxLines
    ensures var preview := GetCodePreview(code, maxLines);
      exists k :: 0 <= k < |code| && code[k] == '\n'
        && preview == code[..k] + "\n..."
        && |Split(code[..k], '\n')| == maxLines
  {
    var lines := Split(code, '\n');
    var head := Join(lines[..maxLines], '\n');
    JoinSplit(code, '\n');
    JoinAt(lines, maxLines, '\n');
    var k := |head|;
    assert code == head + ['\n'] + Join(lines[maxLines..], '\n');
    assert code[..k] == head;
    assert code[k] == '\n';
    SplitJoin(lines[..maxLines], '\n');
  }
}
