/** The relay's per-user rate limiter, content sanitiser and request validators
    (`MessageHandler` and `SecurityMiddleware`). */
module RelayChecks {
  import opened Wrappers
  import opened Text
  import opened Relay

  // ---------------------------------------------------------------- rate limiter

  /** Calls allowed per window. */
  const MaxPerWindow: int := 60
  /** A window ends once more than this many whole seconds have passed since it began. */
  const WindowSeconds: int := 60
  /** `message_count` is a `u32`. */
  const U32Modulus: int := 0x1_0000_0000

  /** One user's window: when it began (ms) and how many calls it has seen. */
  datatype Window = Window(start: int, count: int)

  type Limits = map<ClientId, Window>

  /** chrono's `num_seconds()` of a duration given in milliseconds: whole seconds, truncated
      toward zero. */
  function WholeSeconds(ms: int): (r: int)
    ensures ms >= 0 ==> 0 <= r && r * 1000 <= ms < r * 1000 + 1000
    ensures ms < 0 ==> r <= 0 && -r * 1000 <= -ms < -r * 1000 + 1000
  {
    if ms >= 0 then ms / 1000 else -((-ms) / 1000)
  }

  /** `check_rate_limit(user)` at time `now`: a first call opens a window; a call more than
      60 s after the window began opens a new one; the count is increased (wrapping as a
      `u32`) whether or not the call is then refused for exceeding 60. */
  function CheckRateLimit(limits: Limits, user: ClientId, now: int): (r: (bool, Limits))
    ensures r.1.Keys == limits.Keys + {user}
    ensures forall u | u in limits && u != user :: r.1[u] == limits[u]
    ensures r.0 <==> r.1[user].count <= MaxPerWindow
    ensures user in limits && WholeSeconds(now - limits[user].start) <= WindowSeconds ==>
              r.1[user] == Window(limits[user].start, (limits[user].count + 1) % U32Modulus)
    ensures user !in limits || WholeSeconds(now - limits[user].start) > WindowSeconds ==>
              r.1[user] == Window(now, 1)
  {
    var w := if user in limits then limits[user] else Window(now, 0);
    var current := if WholeSeconds(now - w.start) > WindowSeconds then Window(now, 0) else w;
    var next := current.(count := (current.count + 1) % U32Modulus);
    (next.count <= MaxPerWindow, limits[user := next])
  }

  /** The answers to a series of calls by one user at the given times. */
  function CheckAll(limits: Limits, user: ClientId, times: seq<int>): (r: (seq<bool>, Limits))
    ensures |r.0| == |times|
    ensures r.1.Keys == limits.Keys + (if |times| > 0 then {user} else {})
    decreases |times|
  {
    if |times| == 0 then ([], limits)
    else
      var (ok, next) := CheckRateLimit(limits, user, times[0]);
      var (oks, last) := CheckAll(next, user, times[1..]);
      ([ok] + oks, last)
  }

  /** Within one window, with `c` calls counted so far, the i-th further call is allowed
      exactly when it is among the first 60. */
  lemma {:induction false} CheckAllInWindow(limits: Limits, user: ClientId, times: seq<int>)
    requires user in limits && 0 <= limits[user].count
    requires limits[user].count + |times| < U32Modulus
    requires forall i | 0 <= i < |times| :: WholeSeconds(times[i] - limits[user].start) <= WindowSeconds
    ensures var r := CheckAll(limits, user, times);
            && (forall i | 0 <= i < |times| :: r.0[i] <==> limits[user].count + i + 1 <= MaxPerWindow)
            && r.1[user] == Window(limits[user].start, limits[user].count + |times|)
    decreases |times|
  {
    if |times| > 0 {
      var (ok, next) := CheckRateLimit(limits, user, times[0]);
      assert next[user] == Window(limits[user].start, limits[user].count + 1);
      CheckAllInWindow(next, user, times[1..]);
    }
  }

  /** A user's calls within 60 s of its first call: the first 60 are allowed and every later
      one is refused. */
  lemma FirstSixtyAllowed(limits: Limits, user: ClientId, times: seq<int>)
    requires user !in limits && 0 < |times| < U32Modulus
    requires forall i | 0 <= i < |times| :: WholeSeconds(times[i] - times[0]) <= WindowSeconds
    ensures forall i | 0 <= i < |times| :: CheckAll(limits, user, times).0[i] <==> i < MaxPerWindow
  {
    var (ok, next) := CheckRateLimit(limits, user, times[0]);
    assert next[user] == Window(times[0], 1);
    CheckAllInWindow(next, user, times[1..]);
    var r := CheckAll(limits, user, times);
    assert forall i | 1 <= i < |times| :: r.0[i] == CheckAll(next, user, times[1..]).0[i - 1];
  }

  /** Sixty calls at the same instant are allowed and the sixty-first is refused. */
  lemma SixtyFirstRefused(user: ClientId, now: int)
    ensures var r := CheckAll(map[], user, seq(61, _ => now));
            && (forall i | 0 <= i < 60 :: r.0[i])
            && !r.0[60]
  {
    FirstSixtyAllowed(map[], user, seq(61, _ => now));
  }

  // ---------------------------------------------------------------- sanitiser

  /** Characters the sanitiser keeps: everything but control characters, except line feed,
      carriage return and tab. */
  predicate Kept(c: char) {
    !RustIsControl(c) || c == '\n' || c == '\r' || c == '\t'
  }

  /** The `filter` step of `sanitize_content`. */
  function DropControls(s: string): (r: string)
    ensures forall i | 0 <= i < |r| :: Kept(r[i])
    ensures |r| <= |s|
    ensures (forall i | 0 <= i < |s| :: Kept(s[i])) ==> r == s
  {
    if |s| == 0 then s
    else
      var rest := DropControls(s[1..]);
      if Kept(s[0]) then
        assert s == [s[0]] + s[1..];
        [s[0]] + rest
      else rest
  }

  /** Dropping control characters distributes over concatenation. */
  lemma {:induction false} DropControlsAppend(a: string, b: string)
    ensures DropControls(a + b) == DropControls(a) + DropControls(b)
  {
    if |a| > 0 {
      assert (a + b)[1..] == a[1..] + b;
      DropControlsAppend(a[1..], b);
    } else {
      assert a + b == b;
    }
  }

  /** `sanitize_content`: drop control characters, then trim Unicode white space. */
  function Sanitize(s: string): (r: string)
    ensures |r| > 0 ==> !RustIsWhitespace(r[0]) && !RustIsWhitespace(r[|r| - 1])
  {
    Trim(DropControls(s), RustIsWhitespace)
  }

  /** Every character of sanitised text is one the sanitiser keeps. */
  lemma SanitizedKept(s: string)
    ensures forall k | 0 <= k < |Sanitize(s)| :: Kept(Sanitize(s)[k])
  {
    TrimKeepsAll(DropControls(s), RustIsWhitespace, Kept);
  }

  /** Sanitising sanitised text changes nothing. */
  lemma SanitizeIdempotent(s: string)
    ensures Sanitize(Sanitize(s)) == Sanitize(s)
  {
    var r := Sanitize(s);
    SanitizedKept(s);
    assert DropControls(r) == r;
    if |r| > 0 {
      TrimKeeps(r, RustIsWhitespace);
    }
  }

  /** `DropControls(a + c + b)` for a control character `c` that is dropped. */
  lemma DropControlsBetween(a: string, c: char, b: string)
    requires !Kept(c)
    ensures DropControls(a + [c] + b) == DropControls(a) + DropControls(b)
  {
    DropControlsAppend(a, [c] + b);
    assert a + [c] + b == a + ([c] + b);
    assert ([c] + b)[1..] == b;
  }

  /** A control character other than line feed, carriage return and tab makes no
      difference wherever it stands (as the NUL and unit separator of "Hello\0World\x1F"). */
  lemma SanitizeIgnoresControl(a: string, c: char, b: string)
    requires RustIsControl(c) && c != '\n' && c != '\r' && c != '\t'
    ensures Sanitize(a + [c] + b) == Sanitize(a + b)
  {
    DropControlsBetween(a, c, b);
    DropControlsAppend(a, b);
  }

  /** Text without control characters and without white space at either end is already
      sanitised. */
  lemma SanitizeKeepsClean(s: string)
    requires forall i | 0 <= i < |s| :: !RustIsControl(s[i])
    requires |s| > 0 ==> !RustIsWhitespace(s[0]) && !RustIsWhitespace(s[|s| - 1])
    ensures Sanitize(s) == s
  {
    assert DropControls(s) == s;
    if |s| > 0 {
      TrimKeeps(s, RustIsWhitespace);
    }
  }

  // ---------------------------------------------------------------- validators

  const MaxContentBytes: int := 10000
  const MaxEncryptedBytes: int := 50000

  /** `validate_message`: the first failing check, in order, names the error. */
  function ValidateMessage(msg: ClientMessage): (r: Result<(), string>)
    ensures r.Success? <==>
              && |msg.messageType| > 0
              && (msg.content.Some? ==> Utf8Length(msg.content.value) <= MaxContentBytes)
              && (msg.encryptedContent.Some? ==> Utf8Length(msg.encryptedContent.value) <= MaxEncryptedBytes)
    ensures |msg.messageType| == 0 ==> r == Failure("Message type cannot be empty")
    ensures |msg.messageType| > 0 && msg.content.Some? && Utf8Length(msg.content.value) > MaxContentBytes ==>
              r == Failure("Message content too large")
    ensures && |msg.messageType| > 0
            && (msg.content.Some? ==> Utf8Length(msg.content.value) <= MaxContentBytes)
            && msg.encryptedContent.Some? && Utf8Length(msg.encryptedContent.value) > MaxEncryptedBytes
            ==> r == Failure("Encrypted content too large")
  {
    if |msg.messageType| == 0 then Failure("Message type cannot be empty")
    else if msg.content.Some? && Utf8Length(msg.content.value) > MaxContentBytes then Failure("Message content too large")
    else if msg.encryptedContent.Some? && Utf8Length(msg.encryptedContent.value) > MaxEncryptedBytes then
      Failure("Encrypted content too large")
    else Success(())
  }

  /** The limits count UTF-8 bytes: content of at most 2500 characters always fits, and
      content of more than 10000 characters never does. */
  lemma ContentLimitInCharacters(msg: ClientMessage)
    requires |msg.messageType| > 0 && msg.content.Some? && msg.encryptedContent.None?
    ensures |msg.content.value| <= 2500 ==> ValidateMessage(msg).Success?
    ensures |msg.content.value| > 10000 ==> ValidateMessage(msg) == Failure("Message content too large")
  {
  }

  /** Markup that `validate_request` refuses in content. */
  predicate Suspicious(content: string) {
    Contains(content, "<script") || Contains(content, "javascript:")
  }

  /** `validate_request`. `isAlphanumeric` is Rust's `char::is_alphanumeric`, the Unicode
      Alphabetic and Numeric properties, whose table is not part of this model. */
  function ValidateRequest(msg: ClientMessage, isAlphanumeric: char -> bool): (r: Result<(), string>)
    ensures msg.content.Some? && Suspicious(msg.content.value) ==>
              r == Failure("Potentially malicious content detected")
    ensures r.Success? <==>
              && (msg.content.Some? ==> !Suspicious(msg.content.value))
              && (msg.roomId.Some? ==>
                    && Utf8Length(msg.roomId.value) <= 100
                    && forall i | 0 <= i < |msg.roomId.value| ::
                         isAlphanumeric(msg.roomId.value[i]) || msg.roomId.value[i] == '-')
    ensures r.Failure? && !(msg.content.Some? && Suspicious(msg.content.value)) ==>
              r == Failure("Invalid room ID format")
  {
    if msg.content.Some? && Suspicious(msg.content.value) then
      Failure("Potentially malicious content detected")
    else if msg.roomId.Some? &&
            (|| Utf8Length(msg.roomId.value) > 100
             || !forall i | 0 <= i < |msg.roomId.value| ::
                   isAlphanumeric(msg.roomId.value[i]) || msg.roomId.value[i] == '-') then
      Failure("Invalid room ID format")
    else Success(())
  }

  predicate IsHexDigit(c: char) {
    '0' <= c <= '9' || 'a' <= c <= 'f'
  }

  /** The text form of a UUID, as the server generates room ids. */
  predicate IsUuidText(s: string) {
    && |s| == 36
    && forall i | 0 <= i < 36 ::
         if i == 8 || i == 13 || i == 18 || i == 23 then s[i] == '-' else IsHexDigit(s[i])
  }

  /** A room id the server itself generated passes room-id validation (given that ASCII
      letters and digits are alphanumeric). */
  lemma GeneratedRoomIdIsValid(msg: ClientMessage, isAlphanumeric: char -> bool)
    requires forall c: char | '0' <= c <= '9' || 'a' <= c <= 'z' :: isAlphanumeric(c)
    requires msg.roomId.Some? && IsUuidText(msg.roomId.value)
    requires msg.content.None?
    ensures ValidateRequest(msg, isAlphanumeric).Success?
  {
    var id := msg.roomId.value;
    assert forall i | 0 <= i < |id| :: id[i] as int < 0x80;
    Utf8LengthAscii(id);
  }
}
