/** The hand-rolled JSON the Kotlin components write and read back.

    Writing fills a template with one `"key": value` member per line; `trimIndent()` leaves
    "{", each member indented by four spaces (a comma after every member but the last), and
    "}". Reading splits the text into lines, trims each, takes the first line containing
    `"key":`, keeps what follows the first colon, trims it, and strips quotes and a trailing
    comma. Nothing is escaped, so the round trip is only meaningful for values without quotes,
    colons or line breaks; `WellFormed` states exactly that. */
module JsonLines {
  import opened Wrappers
  import opened Text
  import opened Decimal

  /** One member as written: its key and the text of its value (already quoted or not). */
  datatype Member = Member(key: string, rendered: string)

  function Quote(s: string): string {
    "\"" + s + "\""
  }

  /** Text the layout carries unchanged: no quote, colon or line break. */
  predicate SafeText(s: string) {
    forall i | 0 <= i < |s| :: s[i] != '"' && s[i] != ':' && !IsLineBreak(s[i])
  }

  /** No quote directly followed by a colon: the only place `":` may appear is after a key. */
  predicate NoQuoteColon(s: string) {
    forall j | 0 <= j < |s| - 1 :: !(s[j] == '"' && s[j + 1] == ':')
  }

  /** A rendered value the reader can find the end of. */
  predicate SafeValue(v: string) {
    && |v| > 0 && SingleLine(v) && NoQuoteColon(v)
    && !KotlinIsWhitespace(v[0]) && !KotlinIsWhitespace(v[|v| - 1]) && v[|v| - 1] != ','
  }

  /** Distinct safe keys with safe values. */
  predicate WellFormed(ms: seq<Member>) {
    && (forall i | 0 <= i < |ms| :: SafeText(ms[i].key) && SafeValue(ms[i].rendered))
    && (forall i, j | 0 <= i < j < |ms| :: ms[i].key != ms[j].key)
  }

  /** What the reader searches for. */
  function Pattern(key: string): string {
    "\"" + key + "\":"
  }

  /** The text of a member line after indentation. */
  function MemberLine(key: string, value: string): string {
    "\"" + key + "\": " + value
  }

  /** A member's value followed by the comma every member but the last carries. */
  function Terminated(ms: seq<Member>, i: nat): string
    requires i < |ms|
  {
    ms[i].rendered + (if i == |ms| - 1 then "" else ",")
  }

  /** Member `i` as written, indented. */
  function IndentedLine(ms: seq<Member>, i: nat): string
    requires i < |ms|
  {
    "    " + MemberLine(ms[i].key, Terminated(ms, i))
  }

  /** Member `i` as the reader sees it after trimming. */
  function TrimmedLine(ms: seq<Member>, i: nat): string
    requires i < |ms|
  {
    MemberLine(ms[i].key, Terminated(ms, i))
  }

  /** The lines of the layout, as `trimIndent()` leaves them. */
  function LayoutLines(ms: seq<Member>): (ls: seq<string>)
    ensures |ls| == |ms| + 2
  {
    ["{"] + seq(|ms|, i requires 0 <= i < |ms| => IndentedLine(ms, i)) + ["}"]
  }

  /** The same lines without indentation. */
  function TrimmedLayout(ms: seq<Member>): (ls: seq<string>)
    ensures |ls| == |ms| + 2
  {
    ["{"] + seq(|ms|, i requires 0 <= i < |ms| => TrimmedLine(ms, i)) + ["}"]
  }

  /** The text written for a sequence of members. */
  function Layout(ms: seq<Member>): string {
    JoinLines(LayoutLines(ms))
  }

  /** `json.lines().map { it.trim() }`. */
  function ParsedLines(json: string): (ls: seq<string>)
    ensures |ls| == |Lines(json)|
  {
    var raw := Lines(json);
    seq(|raw|, i requires 0 <= i < |raw| => Trim(raw[i], KotlinIsWhitespace))
  }

  /** Kotlin `find`: the index of the first line containing `pattern`. */
  function FindLine(lines: seq<string>, pattern: string): (r: Option<nat>)
    ensures r.Some? ==> r.value < |lines| && Contains(lines[r.value], pattern)
    ensures r.Some? ==> forall j | 0 <= j < r.value :: !Contains(lines[j], pattern)
    ensures r.None? ==> forall j | 0 <= j < |lines| :: !Contains(lines[j], pattern)
  {
    if |lines| == 0 then None
    else if Contains(lines[0], pattern) then Some(0)
    else
      match FindLine(lines[1..], pattern)
      case None => None
      case Some(k) => Some(k + 1)
  }

  /** The value text after the key: after the first colon, trimmed. */
  function RawValue(line: string): string {
    Trim(SubstringAfter(line, ':'), KotlinIsWhitespace)
  }

  /** `extractJsonValue` as written: surrounding quotes are removed before the trailing
      comma, so a quoted value followed by a comma keeps its quotes. */
  function ExtractJsonValue(lines: seq<string>, key: string): (r: Result<string, string>)
    ensures r.Failure? <==> FindLine(lines, Pattern(key)).None?
    ensures r.Failure? ==> r.error == "Key " + key + " not found"
  {
    match FindLine(lines, Pattern(key))
    case None => Failure("Key " + key + " not found")
    case Some(i) => Success(RemoveSuffix(RemoveSurrounding(RawValue(lines[i]), "\""), ","))
  }

  /** The extractor the layout calls for: the trailing comma first, then the quotes. */
  function ExtractJsonValueFixed(lines: seq<string>, key: string): (r: Result<string, string>)
    ensures r.Failure? <==> FindLine(lines, Pattern(key)).None?
  {
    match FindLine(lines, Pattern(key))
    case None => Failure("Key " + key + " not found")
    case Some(i) => Success(RemoveSurrounding(RemoveSuffix(RawValue(lines[i]), ","), "\""))
  }

  /** Which of the two extractors a reader uses: the code as written, or the corrected
      order of the two removals. */
  datatype Extractor = AsWritten | Corrected

  function Extract(x: Extractor, lines: seq<string>, key: string): Result<string, string> {
    match x
    case AsWritten => ExtractJsonValue(lines, key)
    case Corrected => ExtractJsonValueFixed(lines, key)
  }

  /** What a reader returns for the quoted text `s` of a member other than the last. */
  function Reads(x: Extractor, s: string): string {
    if x == AsWritten then Quote(s) else s
  }

  /** A quoted member other than the last: the as-written reader keeps the quotes, the
      corrected one removes them. */
  lemma ReadQuoted(ms: seq<Member>, i: nat, s: string, x: Extractor)
    requires WellFormed(ms) && i < |ms| - 1 && ms[i].rendered == Quote(s)
    ensures Extract(x, ParsedLines(Layout(ms)), ms[i].key) == Success(Reads(x, s))
  {
    ExtractMember(ms, i);
    AsWrittenQuoted(s);
  }

  /** A quoted last member: both readers remove the quotes; the as-written one then also
      removes a final comma of the text. */
  lemma ReadQuotedLast(ms: seq<Member>, i: nat, s: string, x: Extractor)
    requires WellFormed(ms) && i == |ms| - 1 && ms[i].rendered == Quote(s)
    ensures Extract(x, ParsedLines(Layout(ms)), ms[i].key)
            == Success(if x == AsWritten then RemoveSuffix(s, ",") else s)
  {
    ExtractMember(ms, i);
    AsWrittenQuoted(s);
  }

  /** An unquoted member comes back unchanged from both readers. */
  lemma ReadPlain(ms: seq<Member>, i: nat, x: Extractor)
    requires WellFormed(ms) && i < |ms| && ms[i].rendered[0] != '"'
    ensures Extract(x, ParsedLines(Layout(ms)), ms[i].key) == Success(ms[i].rendered)
  {
    ExtractMember(ms, i);
    AsWrittenPlain(ms[i].rendered, i == |ms| - 1);
  }

  /** What the as-written extractor returns for a member whose value text is `v`. */
  function AsWrittenValue(v: string, last: bool): string {
    RemoveSuffix(RemoveSurrounding(v + (if last then "" else ","), "\""), ",")
  }

  /** Reading a layout back: every member is found, the as-written extractor returns
      `AsWrittenValue` and the fixed one returns the value without its quotes. */
  lemma ExtractMember(ms: seq<Member>, i: nat)
    requires WellFormed(ms) && i < |ms|
    ensures ExtractJsonValue(ParsedLines(Layout(ms)), ms[i].key)
            == Success(AsWrittenValue(ms[i].rendered, i == |ms| - 1))
    ensures ExtractJsonValueFixed(ParsedLines(Layout(ms)), ms[i].key)
            == Success(RemoveSurrounding(ms[i].rendered, "\""))
  {
    var lines := ParsedLines(Layout(ms));
    var t := Terminated(ms, i);
    ParsedLayout(ms);
    FindMember(ms, i);
    assert FindLine(lines, Pattern(ms[i].key)) == Some(i + 1);
    assert lines[i + 1] == MemberLine(ms[i].key, t);
    TerminatedSafe(ms, i);
    RawValueOfMember(ms[i].key, t);
    assert RawValue(lines[i + 1]) == t;
    TerminatedValues(ms[i].rendered, i == |ms| - 1);
  }

  /** The comma added after a value comes off again; the fixed extractor then strips quotes. */
  lemma TerminatedValues(v: string, last: bool)
    requires SafeValue(v)
    ensures RemoveSuffix(v + (if last then "" else ","), ",") == v
  {
    assert !EndsWith(v, ",") by {
      assert v[|v| - 1..][0] == v[|v| - 1];
    }
    if !last {
      assert (v + ",")[..|v|] == v;
    }
  }

  /** Facts about a terminated value that the line-level lemmas need. */
  lemma TerminatedSafe(ms: seq<Member>, i: nat)
    requires WellFormed(ms) && i < |ms|
    ensures SafeText(ms[i].key)
    ensures var t := Terminated(ms, i);
      && |t| > 0 && SingleLine(t) && NoQuoteColon(t)
      && !KotlinIsWhitespace(t[0]) && !KotlinIsWhitespace(t[|t| - 1])
  {
    var v := ms[i].rendered;
    var t := Terminated(ms, i);
    assert forall j | 0 <= j < |v| :: t[j] == v[j];
  }

  /** A member line is one line, and trimming removes exactly its indentation. */
  lemma MemberLineFacts(key: string, t: string)
    requires SafeText(key)
    requires |t| > 0 && SingleLine(t) && !KotlinIsWhitespace(t[|t| - 1])
    ensures SingleLine("    " + MemberLine(key, t))
    ensures Trim("    " + MemberLine(key, t), KotlinIsWhitespace) == MemberLine(key, t)
  {
    var line := MemberLine(key, t);
    assert SingleLine(key);
    SingleLineConcat("    \"", key);
    SingleLineConcat("    \"" + key, "\": ");
    SingleLineConcat("    \"" + key + "\": ", t);
    assert "    " + line == "    \"" + key + "\": " + t;
    assert line[|line| - 1] == t[|t| - 1];
    TrimAfterPadding("    ", line, KotlinIsWhitespace);
  }

  /** The trimmed lines of a layout are the member lines without indentation. */
  lemma ParsedLayout(ms: seq<Member>)
    requires WellFormed(ms)
    ensures ParsedLines(Layout(ms)) == TrimmedLayout(ms)
  {
    var raw := LayoutLines(ms);
    var trimmed := TrimmedLayout(ms);
    forall k | 0 <= k < |raw|
      ensures SingleLine(raw[k])
      ensures Trim(raw[k], KotlinIsWhitespace) == trimmed[k]
    {
      LayoutLineFacts(ms, k);
    }
    LinesOfJoin(raw);
    var got := ParsedLines(Layout(ms));
    assert |got| == |trimmed|;
    assert forall k | 0 <= k < |got| :: got[k] == Trim(raw[k], KotlinIsWhitespace);
  }

  /** Each layout line is one line and trims to the line the reader expects. */
  lemma LayoutLineFacts(ms: seq<Member>, k: nat)
    requires WellFormed(ms) && k < |ms| + 2
    ensures SingleLine(LayoutLines(ms)[k])
    ensures Trim(LayoutLines(ms)[k], KotlinIsWhitespace) == TrimmedLayout(ms)[k]
  {
    if k == 0 || k == |ms| + 1 {
      BracesTrim();
    } else {
      assert LayoutLines(ms)[k] == IndentedLine(ms, k - 1);
      assert TrimmedLayout(ms)[k] == TrimmedLine(ms, k - 1);
      TerminatedSafe(ms, k - 1);
      MemberLineFacts(ms[k - 1].key, Terminated(ms, k - 1));
    }
  }

  lemma BracesTrim()
    ensures Trim("{", KotlinIsWhitespace) == "{" && Trim("}", KotlinIsWhitespace) == "}"
  {
    BraceTrim('{');
    BraceTrim('}');
  }

  lemma BraceTrim(c: char)
    requires c == '{' || c == '}'
    ensures Trim([c], KotlinIsWhitespace) == [c]
  {
    assert !KotlinIsWhitespace(c);
    TrimKeeps([c], KotlinIsWhitespace);
  }

  /** The reader finds member `i` on line `i + 1`. */
  lemma FindMember(ms: seq<Member>, i: nat)
    requires WellFormed(ms) && i < |ms|
    ensures FindLine(TrimmedLayout(ms), Pattern(ms[i].key)) == Some(i + 1)
  {
    var lines := TrimmedLayout(ms);
    var pattern := Pattern(ms[i].key);
    assert lines[i + 1] == MemberLine(ms[i].key, Terminated(ms, i));
    assert OccursAt(lines[i + 1], pattern, 0);
    forall j | 1 <= j < i + 1
      ensures !Contains(lines[j], pattern)
    {
      TerminatedSafe(ms, j - 1);
      NotContainsOtherKey(ms[j - 1].key, Terminated(ms, j - 1), ms[i].key);
    }
    FindFirst(lines, pattern, i + 1);
  }

  /** The value read from a member line is the terminated value. */
  lemma RawValueOfMember(key: string, t: string)
    requires SafeText(key)
    requires |t| > 0 && !KotlinIsWhitespace(t[0]) && !KotlinIsWhitespace(t[|t| - 1])
    ensures RawValue(MemberLine(key, t)) == t
  {
    assert MemberLine(key, t) == "\"" + key + "\":" + (" " + t);
    ColonAfterKey(key, " " + t);
    TrimAfterPadding(" ", t, KotlinIsWhitespace);
  }

  /** `FindLine` picks the first line that contains the pattern. */
  lemma FindFirst(lines: seq<string>, pattern: string, n: nat)
    requires n < |lines| && Contains(lines[n], pattern)
    requires forall j | 0 <= j < n :: !Contains(lines[j], pattern)
    ensures FindLine(lines, pattern) == Some(n)
  {
  }

  /** The first colon of a member line is the one after its key. */
  lemma ColonAfterKey(key: string, rest: string)
    requires SafeText(key)
    ensures SubstringAfter("\"" + key + "\":" + rest, ':') == rest
  {
    var line := "\"" + key + "\":" + rest;
    var head := "\"" + key + "\"";
    assert line == head + ":" + rest;
    assert line[..|head|] == head;
    assert ':' !in head;
    assert line[|head|] == ':';
    var r := IndexOf(line, ':');
    assert r == |head|;
    assert line[|head| + 1..] == rest;
  }

  /** A member line contains the pattern of a different key nowhere. */
  lemma NotContainsOtherKey(key: string, value: string, other: string)
    requires SafeText(key) && SafeText(other) && key != other
    requires NoQuoteColon(value)
    ensures !Contains(MemberLine(key, value), Pattern(other))
  {
    var line := MemberLine(key, value);
    forall x | 0 <= x <= |line| - |Pattern(other)|
      ensures !OccursAt(line, Pattern(other), x)
    {
      PatternOnlyAtKey(key, value, other, x);
    }
  }

  /** `"k":` occurs in a member line only at its start and only for the line's own key. */
  lemma PatternOnlyAtKey(key: string, value: string, other: string, x: int)
    requires SafeText(key) && SafeText(other) && NoQuoteColon(value)
    ensures OccursAt(MemberLine(key, value), Pattern(other), x) ==> x == 0 && key == other
  {
    var line := MemberLine(key, value);
    var p := Pattern(other);
    var n := |key|;
    assert forall j | 1 <= j <= n :: line[j] == key[j - 1];
    assert forall j | n + 4 <= j < |line| :: line[j] == value[j - n - 4];
    assert line[n + 1] == '"' && line[n + 2] == ':' && line[n + 3] == ' ';
    assert forall j | n + 4 <= j < |line| - 1 :: !(line[j] == '"' && line[j + 1] == ':');
    if OccursAt(line, p, x) {
      var y := x + |other| + 1;
      assert line[x..x + |p|][0] == p[0] == '"';
      assert line[x..x + |p|][|other| + 1] == p[|other| + 1] == '"';
      assert line[x..x + |p|][|other| + 2] == p[|other| + 2] == ':';
      assert line[y] == '"' && line[y + 1] == ':';
      assert y == n + 1;
      assert line[x] == '"';
      assert x == 0;
      assert line[1..n + 1] == key;
      assert line[x..x + |p|][1..|other| + 1] == other;
    }
  }

  /** Well-formedness from facts about the keys, proved apart from the values. */
  lemma WellFormedOf(ms: seq<Member>, keys: seq<string>)
    requires |keys| == |ms| && forall i | 0 <= i < |ms| :: ms[i].key == keys[i]
    requires forall i, j | 0 <= i < j < |keys| :: keys[i] != keys[j]
    requires forall i | 0 <= i < |keys| :: SafeText(keys[i])
    requires forall i | 0 <= i < |ms| :: SafeValue(ms[i].rendered)
    ensures WellFormed(ms)
  {
  }

  /** Quoted safe text, decimal integers and booleans are safe values. */
  lemma QuotedIsSafe(s: string)
    requires SafeText(s)
    ensures SafeValue(Quote(s))
  {
    var v := Quote(s);
    assert forall j | 1 <= j < |v| - 1 :: v[j] == s[j - 1];
  }

  lemma IntegerIsSafe(n: int)
    ensures SafeValue(IntToString(n))
  {
  }

  lemma BooleanIsSafe(b: bool)
    ensures SafeValue(BoolToString(b))
  {
  }

  /** The as-written extractor returns quoted text still quoted, except for the last member,
      whose quotes are removed (and then a final comma of the text itself). */
  lemma AsWrittenQuoted(s: string)
    ensures AsWrittenValue(Quote(s), false) == Quote(s)
    ensures AsWrittenValue(Quote(s), true) == RemoveSuffix(s, ",")
    ensures RemoveSurrounding(Quote(s), "\"") == s
  {
    var q := Quote(s);
    assert (q + ",")[|q + ","| - 1] == ',';
    assert q[..1] == "\"" && q[|q| - 1..] == "\"";
    assert q[1..|q| - 1] == s;
  }

  /** Unquoted values come back unchanged from both extractors. */
  lemma AsWrittenPlain(v: string, last: bool)
    requires SafeValue(v) && v[0] != '"'
    ensures AsWrittenValue(v, last) == v
    ensures RemoveSurrounding(v, "\"") == v
  {
    var t := v + (if last then "" else ",");
    assert !StartsWith(t, "\"") by {
      assert t[..1][0] == v[0];
    }
    assert !StartsWith(v, "\"") by {
      assert v[..1][0] == v[0];
    }
    TerminatedValues(v, last);
  }
}
