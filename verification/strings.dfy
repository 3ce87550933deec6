/**
 * The JavaScript string operations the model relies on, over `string = seq<char>`:
 * `indexOf`, `lastIndexOf`, `startsWith`, `includes`, `toLowerCase` (ASCII),
 * `trim`, `split`/`join` on a one-character separator, decimal rendering of
 * integers, and a lexicographic order standing in for `localeCompare`.
 */
module Strings {

  /** `s.indexOf(c)`: the first position of `c`, or -1. */
  function IndexOf(s: string, c: char): (i: int)
    ensures -1 <= i < |s|
    ensures i == -1 <==> c !in s
    ensures 0 <= i ==> s[i] == c && c !in s[..i]
  {
    if |s| == 0 then -1
    else if s[0] == c then 0
    else
      var j := IndexOf(s[1..], c);
      if j == -1 then -1
      else
        assert s[..j + 1] == [s[0]] + s[1..][..j];
        j + 1
  }

  /** `s.lastIndexOf(c)`: the last position of `c`, or -1. */
  function LastIndexOf(s: string, c: char): (i: int)
    ensures -1 <= i < |s|
    ensures i == -1 <==> c !in s
    ensures 0 <= i ==> s[i] == c && c !in s[i + 1..]
  {
    if |s| == 0 then -1
    else if s[|s| - 1] == c then |s| - 1
    else
      var init := s[..|s| - 1];
      var j := LastIndexOf(init, c);
      assert s == init + [s[|s| - 1]];
      if j == -1 then
        assert c !in init;
        j
      else
        assert s[j + 1..] == init[j + 1..] + [s[|s| - 1]];
        j
  }

  predicate StartsWith(s: string, prefix: string) {
    |prefix| <= |s| && s[..|prefix|] == prefix
  }

  predicate OccursAt(s: string, t: string, i: int) {
    0 <= i && i + |t| <= |s| && s[i..i + |t|] == t
  }

  /** `s.includes(t)`. */
  predicate Contains(s: string, t: string) {
    exists i :: 0 <= i <= |s| && OccursAt(s, t, i)
  }

  lemma ContainsEmpty(s: string)
    ensures Contains(s, "")
  {
    assert OccursAt(s, "", 0);
  }

  function LowerChar(c: char): char {
    if 'A' <= c <= 'Z' then (c as int + 32) as char else c
  }

  /** `s.toLowerCase()` on the ASCII letters. */
  function ToLower(s: string): (r: string)
    ensures |r| == |s|
  {
    seq(|s|, i requires 0 <= i < |s| => LowerChar(s[i]))
  }

  /** The characters `String.prototype.trim` removes (WhiteSpace and LineTerminator of ECMA-262). */
  predicate IsSpace(c: char) {
    || c == '\t' || c == '\n' || c == '\U{B}' || c == '\U{C}' || c == '\r' || c == ' '
    || c == '\U{A0}' || c == '\U{1680}' || ('\U{2000}' <= c <= '\U{200A}')
    || c == '\U{2028}' || c == '\U{2029}' || c == '\U{202F}' || c == '\U{205F}'
    || c == '\U{3000}' || c == '\U{FEFF}'
  }

  function TrimStart(s: string): (r: string)
    ensures |r| <= |s| && r == s[|s| - |r|..]
    ensures |r| > 0 ==> !IsSpace(r[0])
    ensures forall i :: 0 <= i < |s| - |r| ==> IsSpace(s[i])
  {
    if |s| > 0 && IsSpace(s[0]) then TrimStart(s[1..]) else s
  }

  function TrimEnd(s: string): (r: string)
    ensures |r| <= |s| && r == s[..|r|]
    ensures |r| > 0 ==> !IsSpace(r[|r| - 1])
    ensures forall i :: |r| <= i < |s| ==> IsSpace(s[i])
  {
    if |s| > 0 && IsSpace(s[|s| - 1]) then TrimEnd(s[..|s| - 1]) else s
  }

  /** `s.trim()`. */
  function Trim(s: string): string {
    TrimEnd(TrimStart(s))
  }

  /** `!s.trim()`: the string is empty after trimming. */
  predicate IsBlank(s: string) {
    Trim(s) == ""
  }

  lemma BlankIffAllSpace(s: string)
    ensures IsBlank(s) <==> forall i :: 0 <= i < |s| ==> IsSpace(s[i])
  {
  }

  /** `s.split(sep)` for a one-character separator: never empty, pieces free of `sep`. */
  function Split(s: string, sep: char): (parts: seq<string>)
    ensures |parts| >= 1
    ensures forall i :: 0 <= i < |parts| ==> sep !in parts[i]
    decreases |s|
  {
    var i := IndexOf(s, sep);
    if i == -1 then [s] else [s[..i]] + Split(s[i + 1..], sep)
  }

  /** `parts.join(sep)`. */
  function Join(parts: seq<string>, sep: char): string
  {
    if |parts| == 0 then ""
    else if |parts| == 1 then parts[0]
    else parts[0] + [sep] + Join(parts[1..], sep)
  }

  lemma {:induction false} JoinSplit(s: string, sep: char)
    ensures Join(Split(s, sep), sep) == s
    decreases |s|
  {
    var i := IndexOf(s, sep);
    if i == -1 {
      SplitNoSep(s, sep);
    } else {
      var rest := Split(s[i + 1..], sep);
      var parts := [s[..i]] + rest;
      SplitAt(s, sep, i);
      JoinSplit(s[i + 1..], sep);
      assert parts[0] == s[..i] && parts[1..] == rest;
      assert Join(parts, sep) == s[..i] + [sep] + Join(rest, sep);
      assert s == s[..i] + [sep] + s[i + 1..];
    }
  }

  lemma {:induction false} SplitJoin(parts: seq<string>, sep: char)
    requires |parts| >= 1
    requires forall i :: 0 <= i < |parts| ==> sep !in parts[i]
    ensures Split(Join(parts, sep), sep) == parts
    decreases |parts|
  {
    if |parts| == 1 {
      SplitNoSep(parts[0], sep);
    } else {
      SplitJoin(parts[1..], sep);
      SplitJoinStep(parts, sep);
    }
  }

  lemma SplitJoinStep(parts: seq<string>, sep: char)
    requires |parts| >= 2 && sep !in parts[0]
    requires Split(Join(parts[1..], sep), sep) == parts[1..]
    ensures Split(Join(parts, sep), sep) == parts
  {
    var a := parts[0];
    var tail := Join(parts[1..], sep);
    assert Join(parts, sep) == a + [sep] + tail;
    ConsSlices(a, sep, tail);
    SplitAt(a + [sep] + tail, sep, |a|);
    assert parts == [a] + parts[1..];
  }

  /** A string without the separator splits into itself. */
  lemma SplitNoSep(s: string, sep: char)
    requires sep !in s
    ensures Split(s, sep) == [s]
  {
    assert IndexOf(s, sep) == -1;
  }

  lemma ConsSlices(a: string, sep: char, b: string)
    ensures var s := a + [sep] + b; |a| < |s| && s[..|a|] == a && s[|a|] == sep && s[|a| + 1..] == b
  {
  }

  /** The position of the first `c`, pinned down by its two defining facts. */
  lemma IndexOfIs(s: string, c: char, i: nat)
    requires i < |s| && s[i] == c && c !in s[..i]
    ensures IndexOf(s, c) == i
  {
  }

  /** Splitting at a separator between two strings splits each side on its own. */
  lemma {:induction false} SplitAppend(a: string, b: string, sep: char)
    ensures Split(a + [sep] + b, sep) == Split(a, sep) + Split(b, sep)
    decreases |a|
  {
    var i := IndexOf(a, sep);
    if i == -1 {
      SplitAppendFirst(a, b, sep);
    } else {
      SplitAppend(a[i + 1..], b, sep);
      SplitAppendLater(a, b, sep, i);
    }
  }

  lemma SplitAppendFirst(a: string, b: string, sep: char)
    requires sep !in a
    ensures Split(a + [sep] + b, sep) == Split(a, sep) + Split(b, sep)
  {
    var s := a + [sep] + b;
    assert s[..|a|] == a;
    IndexOfIs(s, sep, |a|);
    assert s[|a| + 1..] == b;
  }

  lemma SplitAppendLater(a: string, b: string, sep: char, i: nat)
    requires i < |a| && a[i] == sep && sep !in a[..i]
    requires Split(a[i + 1..] + [sep] + b, sep) == Split(a[i + 1..], sep) + Split(b, sep)
    ensures Split(a + [sep] + b, sep) == Split(a, sep) + Split(b, sep)
  {
    var s := a + [sep] + b;
    SliceOfAppend(a, b, sep, i);
    SplitAt(s, sep, i);
    SplitAt(a, sep, i);
  }

  lemma SliceOfAppend(a: string, b: string, sep: char, i: nat)
    requires i < |a| && a[i] == sep && sep !in a[..i]
    ensures var s := a + [sep] + b; i < |s| && s[i] == sep && s[..i] == a[..i] && s[i + 1..] == a[i + 1..] + [sep] + b
  {
  }

  /** Unfolding `Split` at a known first separator. */
  lemma SplitAt(s: string, sep: char, i: nat)
    requires i < |s| && s[i] == sep && sep !in s[..i]
    ensures Split(s, sep) == [s[..i]] + Split(s[i + 1..], sep)
  {
    IndexOfIs(s, sep, i);
  }

  /** Joining cuts at a piece boundary: the pieces before it, a separator, the pieces after it. */
  lemma {:induction false} JoinAt(parts: seq<string>, k: nat, sep: char)
    requires 1 <= k < |parts|
    ensures Join(parts, sep) == Join(parts[..k], sep) + [sep] + Join(parts[k..], sep)
    decreases k
  {
    if k == 1 {
      assert parts[..1] == [parts[0]];
      assert parts[1..] == parts[k..];
    } else {
      JoinAt(parts[1..], k - 1, sep);
      assert parts[1..][..k - 1] == parts[..k][1..];
      assert parts[1..][k - 1..] == parts[k..];
    }
  }

  /** Appending a piece adds one separator and the piece. */
  lemma {:induction false} JoinSnoc(parts: seq<string>, x: string, sep: char)
    requires |parts| >= 1
    ensures Join(parts + [x], sep) == Join(parts, sep) + [sep] + x
    decreases |parts|
  {
    if |parts| > 1 {
      assert (parts + [x])[1..] == parts[1..] + [x];
      JoinSnoc(parts[1..], x, sep);
    }
  }

  /** Joining the first `k` pieces of a split gives a prefix of the original string. */
  lemma {:induction false} JoinSplitPrefix(s: string, sep: char, k: nat)
    requires 1 <= k <= |Split(s, sep)|
    ensures var j := Join(Split(s, sep)[..k], sep);
      && StartsWith(s, j)
      && (k < |Split(s, sep)| ==> |j| < |s| && s[|j|] == sep)
    decreases |s|
  {
    var parts := Split(s, sep);
    var i := IndexOf(s, sep);
    if i == -1 {
      SplitNoSep(s, sep);
      assert parts[..k] == [s];
    } else {
      var rest := Split(s[i + 1..], sep);
      SplitAt(s, sep, i);
      if k == 1 {
        FirstPiecePrefix(s, sep, i, rest);
      } else {
        JoinSplitPrefix(s[i + 1..], sep, k - 1);
        LaterPiecesPrefix(s, sep, i, rest, k);
      }
    }
  }

  lemma FirstPiecePrefix(s: string, sep: char, i: nat, rest: seq<string>)
    requires i < |s| && s[i] == sep
    ensures var parts := [s[..i]] + rest;
      var j := Join(parts[..1], sep);
      && StartsWith(s, j)
      && (1 < |parts| ==> |j| < |s| && s[|j|] == sep)
  {
    assert ([s[..i]] + rest)[..1] == [s[..i]];
  }

  lemma LaterPiecesPrefix(s: string, sep: char, i: nat, rest: seq<string>, k: nat)
    requires i < |s| && s[i] == sep
    requires 2 <= k <= |rest| + 1
    requires var j := Join(rest[..k - 1], sep);
      && StartsWith(s[i + 1..], j)
      && (k - 1 < |rest| ==> |j| < |s[i + 1..]| && s[i + 1..][|j|] == sep)
    ensures var parts := [s[..i]] + rest;
      var j := Join(parts[..k], sep);
      && StartsWith(s, j)
      && (k < |parts| ==> |j| < |s| && s[|j|] == sep)
  {
    assert ([s[..i]] + rest)[..k] == [s[..i]] + rest[..k - 1];
    JoinConsPrefix(s, sep, i, rest[..k - 1], k < |rest| + 1);
  }

  /** The inductive step of `JoinSplitPrefix`: a piece before the first separator, then a joined prefix of the rest. */
  lemma JoinConsPrefix(s: string, sep: char, i: nat, pieces: seq<string>, more: bool)
    requires i < |s| && s[i] == sep
    requires |pieces| >= 1
    requires StartsWith(s[i + 1..], Join(pieces, sep))
    requires more ==> |Join(pieces, sep)| < |s[i + 1..]| && s[i + 1..][|Join(pieces, sep)|] == sep
    ensures var j := Join([s[..i]] + pieces, sep);
      && StartsWith(s, j)
      && (more ==> |j| < |s| && s[|j|] == sep)
  {
    var tail := s[i + 1..];
    var j' := Join(pieces, sep);
    assert ([s[..i]] + pieces)[1..] == pieces;
    var j := s[..i] + [sep] + j';
    assert Join([s[..i]] + pieces, sep) == j;
    assert s[..|j|] == s[..i] + [sep] + tail[..|j'|];
  }

  function DigitChar(d: nat): (c: char)
    requires d < 10
    ensures '0' <= c <= '9'
  {
    ('0' as int + d) as char
  }

  predicate AllDigits(s: string) {
    forall i :: 0 <= i < |s| ==> '0' <= s[i] <= '9'
  }

  /** The decimal rendering of a natural number (`${n}`), without leading zeros. */
  function NatToString(n: nat): (s: string)
    ensures |s| >= 1 && AllDigits(s)
    ensures s[0] == '0' ==> n == 0
  {
    if n < 10 then [DigitChar(n)] else NatToString(n / 10) + [DigitChar(n % 10)]
  }

  /** The decimal rendering of an integer (`${i}`). */
  function IntToString(i: int): (s: string)
    ensures |s| >= 1
    ensures '/' !in s && '@' !in s
  {
    if i < 0 then "-" + NatToString(-i) else NatToString(i)
  }

  /** The value of a run of decimal digits. */
  function ParseNat(s: string): nat
    requires AllDigits(s)
  {
    if |s| == 0 then 0 else ParseNat(s[..|s| - 1]) * 10 + (s[|s| - 1] as int - '0' as int)
  }

  lemma {:induction false} ParseNatToString(n: nat)
    ensures ParseNat(NatToString(n)) == n
  {
    if n >= 10 {
      var s := NatToString(n);
      assert s[..|s| - 1] == NatToString(n / 10);
      ParseNatToString(n / 10);
    }
  }

  /** Distinct numbers have distinct renderings. */
  lemma NatToStringInjective(a: nat, b: nat)
    requires NatToString(a) == NatToString(b)
    ensures a == b
  {
    ParseNatToString(a);
    ParseNatToString(b);
  }

  /** Two runs of digits joined by `sep` split back apart uniquely when `sep` is not a digit. */
  lemma DigitsAroundSeparator(x: string, y: string, x': string, y': string, sep: char)
    requires AllDigits(x) && AllDigits(x') && !('0' <= sep <= '9')
    requires x + [sep] + y == x' + [sep] + y'
    ensures x == x' && y == y'
  {
    SeparatorNotInside(x, y, x', y', sep);
    SeparatorNotInside(x', y', x, y, sep);
    var s := x + [sep] + y;
    assert x == s[..|x|] == x';
    assert y == s[|x| + 1..] == y';
  }

  lemma SeparatorNotInside(x: string, y: string, x': string, y': string, sep: char)
    requires AllDigits(x') && !('0' <= sep <= '9')
    requires x + [sep] + y == x' + [sep] + y'
    ensures |x| >= |x'|
  {
    if |x| < |x'| {
      SeparatorAt(x, y, sep);
      assert false;
    }
  }

  lemma SeparatorAt(x: string, y: string, sep: char)
    ensures |x| < |x + [sep] + y| && (x + [sep] + y)[|x|] == sep
  {
  }

  /** Lexicographic order on character codes: the stand-in for `localeCompare(...) <= 0`. */
  predicate StrLe(a: string, b: string) {
    |a| == 0 || (|b| > 0 && (a[0] < b[0] || (a[0] == b[0] && StrLe(a[1..], b[1..]))))
  }

  lemma StrLeTotal(a: string, b: string)
    ensures StrLe(a, b) || StrLe(b, a)
  {
  }

  lemma StrLeTransitive(a: string, b: string, c: string)
    requires StrLe(a, b) && StrLe(b, c)
    ensures StrLe(a, c)
  {
  }

  lemma StrLeAntisymmetric(a: string, b: string)
    requires StrLe(a, b) && StrLe(b, a)
    ensures a == b
  {
  }

  /** Three-way comparison in the sense of `a.localeCompare(b)`. */
  function StrCompare(a: string, b: string): (r: int)
    ensures r == 0 <==> a == b
    ensures r < 0 <==> a != b && StrLe(a, b)
    ensures -1 <= r <= 1
  {
    if a == b then 0 else if StrLe(a, b) then -1 else 1
  }

  /** The text after the last `c` (the whole string when there is none). */
  function AfterLast(s: string, c: char): (r: string)
    ensures c !in r
    ensures |r| <= |s| && r == s[|s| - |r|..]
    ensures |r| < |s| ==> s[|s| - |r| - 1] == c
  {
    s[LastIndexOf(s, c) + 1..]
  }

  /** A `c`-free suffix that is the whole string or follows a `c`: there is only one. */
  predicate IsLastPiece(s: string, c: char, r: string) {
    && c !in r
    && |r| <= |s| && r == s[|s| - |r|..]
    && (|r| < |s| ==> s[|s| - |r| - 1] == c)
  }

  lemma LastPieceUnique(s: string, c: char, a: string, b: string)
    requires IsLastPiece(s, c, a) && IsLastPiece(s, c, b)
    ensures a == b
  {
  }

  lemma {:induction false} SplitLastIsLastPiece(s: string, c: char)
    ensures IsLastPiece(s, c, Split(s, c)[|Split(s, c)| - 1])
    decreases |s|
  {
    var parts := Split(s, c);
    var i := IndexOf(s, c);
    if i == -1 {
      assert parts == [s];
    } else {
      var tail := s[i + 1..];
      var rest := Split(tail, c);
      assert parts == [s[..i]] + rest;
      assert parts[|parts| - 1] == rest[|rest| - 1];
      SplitLastIsLastPiece(tail, c);
      LastPieceAfterSeparator(s, c, i, rest[|rest| - 1]);
    }
  }

  lemma LastPieceAfterSeparator(s: string, c: char, i: nat, l: string)
    requires i < |s| && s[i] == c
    requires IsLastPiece(s[i + 1..], c, l)
    ensures IsLastPiece(s, c, l)
  {
    var tail := s[i + 1..];
    assert s[|s| - |l|..] == tail[|tail| - |l|..];
    if |l| < |tail| {
      assert s[|s| - |l| - 1] == tail[|tail| - |l| - 1];
    }
  }

  /** `s.split(c).pop()` is the text after the last `c`. */
  lemma SplitLastIsAfterLast(s: string, c: char)
    ensures Split(s, c)[|Split(s, c)| - 1] == AfterLast(s, c)
  {
    SplitLastIsLastPiece(s, c);
    LastPieceUnique(s, c, Split(s, c)[|Split(s, c)| - 1], AfterLast(s, c));
  }

  lemma LowerCharDot(c: char)
    ensures LowerChar(c) == '.' <==> c == '.'
    ensures LowerChar(c) == '/' <==> c == '/'
  {
  }

  lemma ToLowerIdempotent(s: string)
    ensures ToLower(ToLower(s)) == ToLower(s)
  {
  }

  /** No upper-case ASCII letter, checked one character at a time. */
  predicate NoUpper(s: string) {
    |s| == 0 || (!('A' <= s[0] <= 'Z') && NoUpper(s[1..]))
  }

  lemma {:induction false} NoUpperIsLowerCase(s: string)
    requires NoUpper(s)
    ensures ToLower(s) == s
  {
    if |s| > 0 {
      NoUpperIsLowerCase(s[1..]);
      assert ToLower(s) == [LowerChar(s[0])] + ToLower(s[1..]);
    }
  }

  /** A string with no upper-case ASCII letter is its own lower-case form. */
  lemma ToLowerOfLowerCase(s: string)
    requires forall i :: 0 <= i < |s| ==> !('A' <= s[i] <= 'Z')
    ensures ToLower(s) == s
  {
  }

  /** The text after the last `c` of `stem + [c] + tail` is `tail` when `tail` has no `c`. */
  lemma AfterLastOfSuffix(stem: string, c: char, tail: string)
    requires c !in tail
    ensures AfterLast(stem + [c] + tail, c) == tail
  {
    var s := stem + [c] + tail;
    assert s[|s| - |tail|..] == tail;
    assert s[|s| - |tail| - 1] == c;
    LastPieceUnique(s, c, tail, AfterLast(s, c));
  }

  /** Lower-casing commutes with taking the text after the last '.' (the dot is not a letter). */
  lemma AfterLastToLower(s: string)
    ensures AfterLast(ToLower(s), '.') == ToLower(AfterLast(s, '.'))
  {
    var a := AfterLast(s, '.');
    var t := ToLower(s);
    var la := ToLower(a);
    assert t[|t| - |la|..] == la;
    forall i | 0 <= i < |la|
      ensures la[i] != '.'
    {
      LowerCharDot(a[i]);
    }
    if |a| < |s| {
      LowerCharDot(s[|s| - |a| - 1]);
    }
    assert IsLastPiece(t, '.', la);
    LastPieceUnique(t, '.', la, AfterLast(t, '.'));
  }
}
