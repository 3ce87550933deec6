/**
 * The path bar above the file browser (components/FileBrowser/Breadcrumb.tsx): the repository,
 * then one entry per folder of the current path, shortened to the first and last two
 * folders with an ellipsis between them once there are more than three.
 */
module Breadcrumb {
  import opened Seqs
  import opened Strings
  import FileTree
  import FileDropdown

  /** `filter(Boolean)` on strings: keep the non-empty ones. */
  predicate NonEmpty(s: string) {
    s != ""
  }

  /** The path's segments: its '/'-separated parts that are not empty. */
  function Segments(path: string): (r: seq<string>)
    ensures forall i :: 0 <= i < |r| ==> r[i] != "" && '/' !in r[i]
    ensures forall x :: x in r <==> x in Split(path, '/') && x != ""
  {
    var parts := Split(path, '/');
    KeptPartsHaveNoSlash(parts);
    Filter(parts, NonEmpty)
  }

  lemma KeptPartsHaveNoSlash(parts: seq<string>)
    requires forall i :: 0 <= i < |parts| ==> '/' !in parts[i]
    ensures var r := Filter(parts, NonEmpty); forall i :: 0 <= i < |r| ==> r[i] != "" && '/' !in r[i]
    ensures var r := Filter(parts, NonEmpty); forall x :: x in r <==> x in parts && x != ""
  {
    var r := Filter(parts, NonEmpty);
    assert forall x :: x in r <==> x in parts && NonEmpty(x);
    forall i | 0 <= i < |r|
      ensures r[i] != "" && '/' !in r[i]
    {
      assert r[i] in parts;
      var j :| 0 <= j < |parts| && parts[j] == r[i];
    }
  }

  /** Leading, trailing and doubled slashes do not change the segments. */
  lemma SegmentsIgnoreExtraSlashes(a: string, b: string)
    ensures Segments("/" + a) == Segments(a)
    ensures Segments(a + "/") == Segments(a)
    ensures Segments(a + "/" + "/" + b) == Segments(a + "/" + b)
  {
    LeadingSlash(a);
    TrailingSlash(a);
    DoubledSlash(a, b);
  }

  lemma EmptyHasNoSegments()
    ensures Split("", '/') == [""] && Filter([""], NonEmpty) == []
  {
    assert Filter([""], NonEmpty) == Filter([""][1..], NonEmpty);
  }

  lemma LeadingSlash(a: string)
    ensures Segments("/" + a) == Segments(a)
  {
    EmptyHasNoSegments();
    assert "/" + a == "" + ['/'] + a;
    SplitAppend("", a, '/');
    FilterAppend([""], Split(a, '/'), NonEmpty);
    assert [] + Segments(a) == Segments(a);
  }

  lemma TrailingSlash(a: string)
    ensures Segments(a + "/") == Segments(a)
  {
    EmptyHasNoSegments();
    assert a + "/" == a + ['/'] + "";
    SplitAppend(a, "", '/');
    FilterAppend(Split(a, '/'), [""], NonEmpty);
    assert Segments(a) + [] == Segments(a);
  }

  lemma DoubledSlash(a: string, b: string)
    ensures Segments(a + "/" + "/" + b) == Segments(a + "/" + b)
  {
    assert a + "/" + "/" + b == a + ['/'] + ("/" + b);
    assert a + "/" + b == a + ['/'] + b;
    SplitAppend(a, "/" + b, '/');
    SplitAppend(a, b, '/');
    FilterAppend(Split(a, '/'), Split("/" + b, '/'), NonEmpty);
    FilterAppend(Split(a, '/'), Split(b, '/'), NonEmpty);
    LeadingSlash(b);
  }

  /** On a path with no empty part the segments are its parts and join back to it. */
  lemma SegmentsOfCleanPath(path: string)
    requires FileTree.CleanPath(path)
    ensures Segments(path) == Split(path, '/')
    ensures Join(Segments(path), '/') == path
  {
    FilterAll(Split(path, '/'), NonEmpty);
    JoinSplit(path, '/');
  }

  /** One entry of the bar. */
  datatype Crumb = Crumb(text: string, path: string, isClickable: bool)

  /** Whether the bar has the ellipsis entry (`shouldTruncate`). */
  predicate Truncated(n: nat) {
    n > 3
  }

  /** The segment number (1-based) shown by entry `i >= 1` of a bar over `n` segments, or 0 for the ellipsis. */
  function SegmentShown(n: nat, i: nat): (k: nat)
    requires 1 <= i <= (if Truncated(n) then 4 else n)
    ensures k <= n
    ensures k == 0 <==> Truncated(n) && i == 2
  {
    if !Truncated(n) then i
    else if i == 1 then 1
    else if i == 2 then 0
    else n - 4 + i
  }

  /** The bar for the given segments. */
  function BreadcrumbsOf(repositoryName: string, segments: seq<string>): (r: seq<Crumb>)
    ensures var n := |segments|;
      && |r| == (if Truncated(n) then 5 else n + 1)
      && r[0] == Crumb(repositoryName, "", n > 0)
    ensures Truncated(|segments|) ==> r[2] == Crumb("...", "", false)
    ensures forall i :: 1 <= i < |r| && SegmentShown(|segments|, i) != 0 ==>
      var k := SegmentShown(|segments|, i);
      r[i] == Crumb(segments[k - 1], Join(segments[..k], '/'), i < |r| - 1)
  {
    var n := |segments|;
    var repo := Crumb(repositoryName, "", n > 0);
    if Truncated(n) then
      assert segments[..1] == [segments[0]];
      [repo,
       Crumb(segments[0], segments[0], true),
       Crumb("...", "", false),
       Crumb(segments[n - 2], Join(segments[..n - 1], '/'), true),
       Crumb(segments[n - 1], Join(segments[..n], '/'), false)]
    else
      [repo] + seq(n, i requires 0 <= i < n => Crumb(segments[i], Join(segments[..i + 1], '/'), i != n - 1))
  }

  /**
   * The component's `breadcrumbItems`: the repository, then one entry per segment of the
   * path, with the middle of a long path folded into a single ellipsis.
   */
  function Breadcrumbs(repositoryName: string, currentPath: string): (r: seq<Crumb>)
    ensures var segments := Segments(currentPath);
      var n := |segments|;
      && |r| == (if n <= 3 then n + 1 else 5)
      && r[0].text == repositoryName && r[0].path == "" && (r[0].isClickable <==> n >= 1)
      && (forall i :: 1 <= i < |r| ==> (r[i].isClickable <==> i < |r| - 1 && !(n > 3 && i == 2)))
      && (n > 3 ==> r[2].text == "..." && !r[2].isClickable)
      && (n >= 1 ==> r[|r| - 1].text == segments[n - 1] && r[|r| - 1].path == Join(segments, '/'))
  {
    ShapeOf(repositoryName, Segments(currentPath));
    BreadcrumbsOf(repositoryName, Segments(currentPath))
  }

  /**
   * What the bar shows: n + 1 entries for up to three segments and five beyond; only the
   * repository (when there is a folder to leave) and the segment entries before the last are
   * clickable; the last entry is the last segment.
   */
  lemma BreadcrumbsShape(repositoryName: string, currentPath: string)
    ensures var segments := Segments(currentPath);
      var n := |segments|;
      var r := Breadcrumbs(repositoryName, currentPath);
      && |r| == (if n <= 3 then n + 1 else 5)
      && r[0].text == repositoryName && r[0].path == "" && (r[0].isClickable <==> n >= 1)
      && (forall i :: 1 <= i < |r| ==> (r[i].isClickable <==> i < |r| - 1 && !(n > 3 && i == 2)))
      && (n > 3 ==> r[2].text == "..." && !r[2].isClickable)
      && (n >= 1 ==> r[|r| - 1].text == segments[n - 1] && r[|r| - 1].path == Join(segments, '/'))
  {
    ShapeOf(repositoryName, Segments(currentPath));
  }

  lemma ShapeOf(repositoryName: string, segments: seq<string>)
    ensures var n := |segments|;
      var r := BreadcrumbsOf(repositoryName, segments);
      && |r| == (if n <= 3 then n + 1 else 5)
      && r[0].text == repositoryName && r[0].path == "" && (r[0].isClickable <==> n >= 1)
      && (forall i :: 1 <= i < |r| ==> (r[i].isClickable <==> i < |r| - 1 && !(n > 3 && i == 2)))
      && (n > 3 ==> r[2].text == "..." && !r[2].isClickable)
      && (n >= 1 ==> r[|r| - 1].text == segments[n - 1] && r[|r| - 1].path == Join(segments, '/'))
  {
    var n := |segments|;
    var r := BreadcrumbsOf(repositoryName, segments);
    forall i | 1 <= i < |r|
      ensures r[i].isClickable <==> i < |r| - 1 && !(n > 3 && i == 2)
    {
      ClickableAt(repositoryName, segments, i);
    }
    if n >= 1 {
      assert SegmentShown(n, |r| - 1) == n;
      assert segments[..n] == segments;
    }
  }

  lemma ClickableAt(repositoryName: string, segments: seq<string>, i: nat)
    requires 1 <= i < |BreadcrumbsOf(repositoryName, segments)|
    ensures var r := BreadcrumbsOf(repositoryName, segments);
      r[i].isClickable <==> i < |r| - 1 && !(|segments| > 3 && i == 2)
  {
    var r := BreadcrumbsOf(repositoryName, segments);
    if SegmentShown(|segments|, i) != 0 {
      assert r[i].isClickable == (i < |r| - 1);
    }
  }

  /**
   * Each segment entry leads to a folder of the slash-normalised current path: its path is a
   * prefix of it, followed by '/' unless it is the last entry.
   */
  lemma CrumbPathsArePrefixes(repositoryName: string, currentPath: string)
    ensures var segments := Segments(currentPath);
      var whole := Join(segments, '/');
      var r := Breadcrumbs(repositoryName, currentPath);
      forall i :: 1 <= i < |r| && SegmentShown(|segments|, i) != 0 ==>
        && StartsWith(whole, r[i].path)
        && (i < |r| - 1 ==> |r[i].path| < |whole| && whole[|r[i].path|] == '/')
  {
    var segments := Segments(currentPath);
    var r := Breadcrumbs(repositoryName, currentPath);
    forall i | 1 <= i < |r| && SegmentShown(|segments|, i) != 0
      ensures StartsWith(Join(segments, '/'), r[i].path)
      ensures i < |r| - 1 ==> |r[i].path| < |Join(segments, '/')| && Join(segments, '/')[|r[i].path|] == '/'
    {
      CrumbPathAt(repositoryName, segments, i);
    }
  }

  lemma CrumbPathAt(repositoryName: string, segments: seq<string>, i: nat)
    requires 1 <= i < |BreadcrumbsOf(repositoryName, segments)| && SegmentShown(|segments|, i) != 0
    ensures var whole := Join(segments, '/');
      var r := BreadcrumbsOf(repositoryName, segments);
      && StartsWith(whole, r[i].path)
      && (i < |r| - 1 ==> |r[i].path| < |whole| && whole[|r[i].path|] == '/')
  {
    var r := BreadcrumbsOf(repositoryName, segments);
    var k := SegmentShown(|segments|, i);
    assert r[i].path == Join(segments[..k], '/');
    assert i < |r| - 1 ==> k < |segments|;
    JoinedPrefix(segments, k);
  }

  /** The first `k` segments, joined, begin the whole joined path, followed by '/' unless `k` is all. */
  lemma JoinedPrefix(segments: seq<string>, k: nat)
    requires 1 <= k <= |segments|
    ensures var whole := Join(segments, '/');
      var j := Join(segments[..k], '/');
      && StartsWith(whole, j)
      && (k < |segments| ==> |j| < |whole| && whole[|j|] == '/')
  {
    var whole := Join(segments, '/');
    var j := Join(segments[..k], '/');
    if k < |segments| {
      JoinAt(segments, k, '/');
      assert whole == j + ['/'] + Join(segments[k..], '/');
      assert whole[..|j|] == j;
    } else {
      assert segments[..k] == segments;
    }
  }

  /**
   * On a clean path (no empty part) the bar's segment entries lead where the search
   * dropdown's folder buttons do.
   */
  lemma BreadcrumbsAgreeWithDropdown(repositoryName: string, currentPath: string)
    requires FileTree.CleanPath(currentPath)
    ensures var segments := Segments(currentPath);
      var r := Breadcrumbs(repositoryName, currentPath);
      forall i :: 1 <= i < |r| && SegmentShown(|segments|, i) != 0 ==>
        r[i].path == FileDropdown.CrumbTarget(currentPath, SegmentShown(|segments|, i))
  {
    SegmentsOfCleanPath(currentPath);
  }

  /** Extra slashes never change the bar. */
  lemma BreadcrumbsIgnoreExtraSlashes(repositoryName: string, a: string, b: string)
    ensures Breadcrumbs(repositoryName, "/" + a) == Breadcrumbs(repositoryName, a)
    ensures Breadcrumbs(repositoryName, a + "/") == Breadcrumbs(repositoryName, a)
    ensures Breadcrumbs(repositoryName, a + "/" + "/" + b) == Breadcrumbs(repositoryName, a + "/" + b)
  {
    SegmentsIgnoreExtraSlashes(a, b);
  }
}
