/** The Kotlin and Rust standard-library string helpers the system relies on, written out
    character by character so that their edge cases are part of the model. */
module Text {

  /** `s` begins with `prefix`. */
  predicate StartsWith(s: string, prefix: string) {
    |prefix| <= |s| && s[..|prefix|] == prefix
  }

  /** `s` ends with `suffix`. */
  predicate EndsWith(s: string, suffix: string) {
    |suffix| <= |s| && s[|s| - |suffix|..] == suffix
  }

  /** `pattern` occurs in `s` starting at position `i`. */
  predicate OccursAt(s: string, pattern: string, i: int) {
    0 <= i && i + |pattern| <= |s| && s[i..i + |pattern|] == pattern
  }

  /** Kotlin `CharSequence.contains(String)` and Rust `str::contains`. */
  predicate Contains(s: string, pattern: string) {
    exists i | 0 <= i <= |s| - |pattern| :: OccursAt(s, pattern, i)
  }

  /** The index of the first occurrence of `c` in `s`, or -1 (Kotlin `indexOf`). */
  function IndexOf(s: string, c: char): (r: int)
    ensures -1 <= r < |s|
    ensures r == -1 <==> c !in s
    ensures 0 <= r ==> s[r] == c && c !in s[..r]
  {
    if |s| == 0 then -1
    else if s[0] == c then 0
    else
      var k := IndexOf(s[1..], c);
      assert s[1..][..if k < 0 then 0 else k] == s[1..if k < 0 then 1 else k + 1];
      if k < 0 then -1 else k + 1
  }

  /** The index of the last occurrence of `c` in `s`, or -1 (Kotlin `lastIndexOf`). */
  function LastIndexOf(s: string, c: char): (r: int)
    ensures -1 <= r < |s|
    ensures r == -1 ==> forall i | 0 <= i < |s| :: s[i] != c
    ensures 0 <= r ==> s[r] == c && forall i | r < i < |s| :: s[i] != c
  {
    if |s| == 0 then -1
    else
      var k := LastIndexOf(s[1..], c);
      if k >= 0 then k + 1
      else if s[0] == c then 0
      else -1
  }

  /** Kotlin `substringAfter(delimiter)`: the text after the first `delimiter`, or the whole
      string when the delimiter does not occur. */
  function SubstringAfter(s: string, delimiter: char): (r: string)
    ensures delimiter !in s ==> r == s
    ensures delimiter in s ==> exists i | 0 <= i < |s| :: s[i] == delimiter && delimiter !in s[..i] && r == s[i + 1..]
  {
    var i := IndexOf(s, delimiter);
    if i < 0 then s else s[i + 1..]
  }

  /** Kotlin `substringAfterLast(delimiter, missing)`: the text after the last `delimiter`,
      or `missing` when the delimiter does not occur. */
  function SubstringAfterLast(s: string, delimiter: char, missing: string): (r: string)
    ensures delimiter !in s ==> r == missing
    ensures delimiter in s ==> delimiter !in r && EndsWith(s, [delimiter] + r)
  {
    var i := LastIndexOf(s, delimiter);
    if i < 0 then missing
    else
      assert s[|s| - (|s| - i)..] == [delimiter] + s[i + 1..];
      s[i + 1..]
  }

  /** Kotlin `removeSurrounding(delimiter)`: strips `delimiter` from both ends, but only when
      the string is long enough to hold both copies and both are present. */
  function RemoveSurrounding(s: string, delimiter: string): (r: string)
    ensures |s| >= 2 * |delimiter| && StartsWith(s, delimiter) && EndsWith(s, delimiter) ==> s == delimiter + r + delimiter
    ensures !(|s| >= 2 * |delimiter| && StartsWith(s, delimiter) && EndsWith(s, delimiter)) ==> r == s
  {
    if |s| >= 2 * |delimiter| && StartsWith(s, delimiter) && EndsWith(s, delimiter) then
      var r := s[|delimiter|..|s| - |delimiter|];
      assert s == s[..|delimiter|] + r + s[|s| - |delimiter|..];
      r
    else s
  }

  /** Kotlin `removeSuffix(suffix)`. */
  function RemoveSuffix(s: string, suffix: string): (r: string)
    ensures EndsWith(s, suffix) ==> s == r + suffix
    ensures !EndsWith(s, suffix) ==> r == s
  {
    if EndsWith(s, suffix) then
      assert s == s[..|s| - |suffix|] + s[|s| - |suffix|..];
      s[..|s| - |suffix|]
    else s
  }

  /** Kotlin `Char.isWhitespace()` on the JVM: Java whitespace or a Unicode space separator. */
  predicate KotlinIsWhitespace(c: char) {
    var n := c as int;
    || (0x09 <= n <= 0x0D) || (0x1C <= n <= 0x20) || n == 0xA0 || n == 0x1680
    || (0x2000 <= n <= 0x200A) || n == 0x2028 || n == 0x2029 || n == 0x202F || n == 0x205F
    || n == 0x3000
  }

  /** Rust `char::is_whitespace`: the Unicode White_Space property. */
  predicate RustIsWhitespace(c: char) {
    var n := c as int;
    || (0x09 <= n <= 0x0D) || n == 0x20 || n == 0x85 || n == 0xA0 || n == 0x1680
    || (0x2000 <= n <= 0x200A) || n == 0x2028 || n == 0x2029 || n == 0x202F || n == 0x205F
    || n == 0x3000
  }

  /** Rust `char::is_control`: the Unicode general category Cc. */
  predicate RustIsControl(c: char) {
    var n := c as int;
    n <= 0x1F || (0x7F <= n <= 0x9F)
  }

  /** Removes the leading characters satisfying `strip`. */
  function TrimStart(s: string, strip: char -> bool): (r: string)
    ensures |r| <= |s| && r == s[|s| - |r|..]
    ensures forall i | 0 <= i < |s| - |r| :: strip(s[i])
    ensures |r| > 0 ==> !strip(r[0])
  {
    if |s| == 0 || !strip(s[0]) then s else TrimStart(s[1..], strip)
  }

  /** Removes the trailing characters satisfying `strip`. */
  function TrimEnd(s: string, strip: char -> bool): (r: string)
    ensures |r| <= |s| && r == s[..|r|]
    ensures forall i | |r| <= i < |s| :: strip(s[i])
    ensures |r| > 0 ==> !strip(r[|r| - 1])
  {
    if |s| == 0 || !strip(s[|s| - 1]) then s else TrimEnd(s[..|s| - 1], strip)
  }

  /** Kotlin `trim()` (with `KotlinIsWhitespace`) and Rust `str::trim` (with `RustIsWhitespace`). */
  function Trim(s: string, strip: char -> bool): (r: string)
    ensures |r| > 0 ==> !strip(r[0]) && !strip(r[|r| - 1])
    ensures exists i, j | 0 <= i <= j <= |s| :: r == s[i..j]
  {
    var t := TrimStart(s, strip);
    var r := TrimEnd(t, strip);
    assert r == s[|s| - |t|..|s| - |t| + |r|];
    r
  }

  /** Trimming keeps any property every character of the input has. */
  lemma TrimKeepsAll(s: string, strip: char -> bool, keep: char -> bool)
    requires forall i | 0 <= i < |s| :: keep(s[i])
    ensures forall i | 0 <= i < |Trim(s, strip)| :: keep(Trim(s, strip)[i])
  {
    var t := TrimStart(s, strip);
    assert forall i | 0 <= i < |t| :: t[i] == s[|s| - |t| + i];
    var r := TrimEnd(t, strip);
    assert forall i | 0 <= i < |r| :: r[i] == t[i];
  }

  /** Trimming a string whose ends are not stripped characters leaves it unchanged. */
  lemma TrimKeeps(s: string, strip: char -> bool)
    requires |s| > 0 && !strip(s[0]) && !strip(s[|s| - 1])
    ensures Trim(s, strip) == s
  {
  }

  /** Trimming removes exactly a run of stripped characters before a string that does not
      itself start with one. */
  lemma {:induction false} TrimAfterPadding(pad: string, s: string, strip: char -> bool)
    requires forall i | 0 <= i < |pad| :: strip(pad[i])
    requires |s| > 0 && !strip(s[0]) && !strip(s[|s| - 1])
    ensures Trim(pad + s, strip) == s
  {
    TrimStartPadding(pad, s, strip);
  }

  lemma {:induction false} TrimStartPadding(pad: string, s: string, strip: char -> bool)
    requires forall i | 0 <= i < |pad| :: strip(pad[i])
    requires |s| > 0 && !strip(s[0])
    ensures TrimStart(pad + s, strip) == s
    decreases |pad|
  {
    if |pad| == 0 {
      assert pad + s == s;
    } else {
      assert (pad + s)[1..] == pad[1..] + s;
      TrimStartPadding(pad[1..], s, strip);
    }
  }

  /** A line break as Kotlin's `lines()` recognises it. */
  predicate IsLineBreak(c: char) {
    c == '\n' || c == '\r'
  }

  /** `s` holds no line break. */
  predicate SingleLine(s: string) {
    forall i | 0 <= i < |s| :: !IsLineBreak(s[i])
  }

  lemma SingleLineConcat(a: string, b: string)
    requires SingleLine(a) && SingleLine(b)
    ensures SingleLine(a + b)
  {
    assert forall i | |a| <= i < |a + b| :: (a + b)[i] == b[i - |a|];
  }

  /** The position of the first line break in `s`, or -1. */
  function LineBreakIndex(s: string): (r: int)
    ensures -1 <= r < |s|
    ensures r == -1 <==> SingleLine(s)
    ensures 0 <= r ==> IsLineBreak(s[r]) && SingleLine(s[..r])
  {
    if |s| == 0 then -1
    else if IsLineBreak(s[0]) then 0
    else
      var k := LineBreakIndex(s[1..]);
      assert k >= 0 ==> s[..k + 1] == [s[0]] + s[1..][..k];
      if k < 0 then -1 else k + 1
  }

  /** Kotlin `lines()`: splits on "\r\n", "\n" and "\r"; a trailing break yields a final
      empty line and the empty string is one empty line. */
  function Lines(s: string): (r: seq<string>)
    ensures |r| >= 1
    ensures forall i | 0 <= i < |r| :: SingleLine(r[i])
    decreases |s|
  {
    var i := LineBreakIndex(s);
    if i < 0 then [s]
    else
      var skip := if s[i] == '\r' && i + 1 < |s| && s[i + 1] == '\n' then 2 else 1;
      [s[..i]] + Lines(s[i + skip..])
  }

  /** Joins lines with "\n" (Kotlin `joinToString("\n")` and multi-line string literals). */
  function JoinLines(ls: seq<string>): string
  {
    if |ls| == 0 then ""
    else if |ls| == 1 then ls[0]
    else ls[0] + "\n" + JoinLines(ls[1..])
  }

  /** Splitting joined lines gives the lines back, provided none of them holds a break. */
  lemma {:induction false} LinesOfJoin(ls: seq<string>)
    requires |ls| >= 1
    requires forall i | 0 <= i < |ls| :: SingleLine(ls[i])
    ensures Lines(JoinLines(ls)) == ls
    decreases |ls|
  {
    if |ls| == 1 {
      assert LineBreakIndex(ls[0]) == -1;
    } else {
      LinesAfterBreak(ls[0], JoinLines(ls[1..]));
      LinesOfJoin(ls[1..]);
      assert ls == [ls[0]] + ls[1..];
    }
  }

  /** A line followed by "\n" is split off as the first line. */
  lemma LinesAfterBreak(head: string, tail: string)
    requires SingleLine(head)
    ensures Lines(head + "\n" + tail) == [head] + Lines(tail)
  {
    var s := head + "\n" + tail;
    LineBreakAfter(head, tail);
    assert s[..|head|] == head;
    assert s[|head| + 1..] == tail;
  }

  lemma LineBreakAfter(head: string, tail: string)
    requires SingleLine(head)
    ensures LineBreakIndex(head + "\n" + tail) == |head|
  {
    var s := head + "\n" + tail;
    assert s[..|head|] == head;
    assert IsLineBreak(s[|head|]);
    var k := LineBreakIndex(s);
    assert k >= 0;
  }

  /** Number of bytes in the UTF-8 encoding of one character. */
  function Utf8CharLength(c: char): (n: nat)
    ensures 1 <= n <= 4
  {
    if c as int < 0x80 then 1
    else if c as int < 0x800 then 2
    else if c as int < 0x10000 then 3
    else 4
  }

  /** Rust `str::len()`: the UTF-8 byte length. */
  function Utf8Length(s: string): (n: nat)
    ensures |s| <= n <= 4 * |s|
  {
    if |s| == 0 then 0 else Utf8CharLength(s[0]) + Utf8Length(s[1..])
  }

  /** A string of ASCII characters has as many bytes as characters. */
  lemma {:induction false} Utf8LengthAscii(s: string)
    requires forall i | 0 <= i < |s| :: s[i] as int < 0x80
    ensures Utf8Length(s) == |s|
  {
    if |s| > 0 {
      Utf8LengthAscii(s[1..]);
    }
  }

  /** Lexicographic order on code points (Kotlin `sorted()` on strings, `compareTo`). */
  predicate LessOrEqual(a: string, b: string)
    decreases |a|
  {
    if |a| == 0 then true
    else if |b| == 0 then false
    else if a[0] != b[0] then a[0] < b[0]
    else LessOrEqual(a[1..], b[1..])
  }

  lemma {:induction false} LessOrEqualTotal(a: string, b: string)
    ensures LessOrEqual(a, b) || LessOrEqual(b, a)
    decreases |a|
  {
    if |a| > 0 && |b| > 0 && a[0] == b[0] {
      LessOrEqualTotal(a[1..], b[1..]);
    }
  }

  lemma {:induction false} LessOrEqualAntisymmetric(a: string, b: string)
    requires LessOrEqual(a, b) && LessOrEqual(b, a)
    ensures a == b
    decreases |a|
  {
    if |a| > 0 && |b| > 0 && a[0] == b[0] {
      LessOrEqualAntisymmetric(a[1..], b[1..]);
      assert a == [a[0]] + a[1..] && b == [b[0]] + b[1..];
    }
  }
}
