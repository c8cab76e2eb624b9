/** The client's connection to the signalling server: connect, the reconnect back-off, sending,
    and disconnecting.

    The outcome of every connection attempt is read from a script, consumed front to back, so
    that the mutual recursion of `connect` and `scheduleReconnect` is a function of its
    inputs; a run ends when the script is exhausted. The status events, delays and messages
    the client produces are returned, in order, as effects. */
module Signaling {
  import opened Wrappers
  import opened Protocol

  const ConnectionTimeout: int := 30000
  const HeartbeatInterval: int := 15000
  const ReconnectDelay: int := 5000
  const MaxReconnectAttempts: int := 5
  /** The reason reported for an exception without a message ("unknown error"). */
  const UnknownError: string := "خطأ غير معروف"

  datatype ConnectionStatus =
    | Connected
    | Disconnected
    | NoInternet
    | PermanentFailure
    | Failed(reason: string)
    | Reconnecting(attempt: int)

  /** How one call of `connect` turns out: no network; a session whose REGISTER message is
      sent; a session whose REGISTER send throws inside `sendMessage`, which swallows the
      exception; a null session; or an exception (with its message, if any). */
  datatype Attempt = NoNetwork | Session | SessionUnregistered | NoSession | Throws(message: Option<string>)

  /** Whether an attempt opens a session. */
  predicate Opens(a: Attempt) {
    a.Session? || a.SessionUnregistered?
  }

  /** What the client does that others can observe. */
  datatype Effect = Emit(status: ConnectionStatus) | Wait(ms: int) | Sent(msgType: MessageType)

  datatype Link = Link(connected: bool, reconnectAttempts: int, currentUserId: string)

  /** The result of a run: final state, effects, return value, unconsumed attempts. */
  datatype Run = Run(link: Link, effects: seq<Effect>, ok: bool, rest: seq<Attempt>)

  predicate AttemptsInRange(link: Link) {
    0 <= link.reconnectAttempts <= MaxReconnectAttempts
  }

  /** The status event and delay that precede attempt `k` of a reconnect. */
  function Announce(k: int): seq<Effect> {
    [Emit(Reconnecting(k)), Wait(ReconnectDelay * k)]
  }

  /** `connect(userId)`. An exception reports `Failed` and then runs `scheduleReconnect`
      itself before returning false. */
  function Connect(link: Link, userId: string, script: seq<Attempt>): (r: Run)
    ensures |r.rest| <= |script| && (|script| > 0 ==> |r.rest| < |script|)
    ensures AttemptsInRange(link) ==> AttemptsInRange(r.link)
    ensures r.link.currentUserId == userId
    ensures r.ok ==> r.link.connected && r.link.reconnectAttempts == 0
    ensures |script| == 0 ==> !r.ok && r.effects == [] && r.rest == []
    ensures |script| > 0 ==> (r.ok <==> Opens(script[0]))
    ensures |script| > 0 && script[0] in {NoNetwork, NoSession} ==> r.rest == script[1..] && r.link == link.(currentUserId := userId)
    ensures |script| > 0 && script[0] == NoNetwork ==> r.effects == [Emit(NoInternet)]
    ensures |script| > 0 && script[0] == NoSession ==> r.effects == []
    ensures |script| > 0 && script[0] == Session ==> r.effects == [Sent(REGISTER), Emit(Connected)] && r.rest == script[1..]
    ensures |script| > 0 && script[0] == SessionUnregistered ==> r.effects == [Emit(Connected)] && r.rest == script[1..]
    ensures |script| > 0 && script[0].Throws? ==>
              |r.effects| >= 1 && r.effects[0] == Emit(Failed(script[0].message.GetOr(UnknownError)))
    decreases |script|, 0
  {
    var l := link.(currentUserId := userId);
    if |script| == 0 then Run(l, [], false, [])
    else
      match script[0]
      case NoNetwork => Run(l, [Emit(NoInternet)], false, script[1..])
      case NoSession => Run(l, [], false, script[1..])
      case Session =>
        Run(l.(connected := true, reconnectAttempts := 0), [Sent(REGISTER), Emit(Connected)], true, script[1..])
      case SessionUnregistered =>
        Run(l.(connected := true, reconnectAttempts := 0), [Emit(Connected)], true, script[1..])
      case Throws(message) =>
        var s := ScheduleReconnect(l, script[1..]);
        Run(s.link, [Emit(Failed(message.GetOr(UnknownError)))] + s.effects, false, s.rest)
  }

  /** `scheduleReconnect()`: below the attempt limit, count the attempt, announce it, wait
      5000 ms times its number, and connect; a failed connect schedules again. At the limit,
      report permanent failure. */
  function ScheduleReconnect(link: Link, script: seq<Attempt>): (r: Run)
    ensures |r.rest| <= |script|
    ensures AttemptsInRange(link) ==> AttemptsInRange(r.link)
    ensures r.link.currentUserId == link.currentUserId
    ensures link.reconnectAttempts >= MaxReconnectAttempts ==>
              r == Run(link, [Emit(PermanentFailure)], false, script)
    decreases |script|, 1
  {
    if link.reconnectAttempts < MaxReconnectAttempts then
      var k := link.reconnectAttempts + 1;
      var l := link.(reconnectAttempts := k);
      if |script| == 0 then Run(l, Announce(k), false, [])
      else
        var c := Connect(l, l.currentUserId, script);
        if c.ok then Run(c.link, Announce(k) + c.effects, true, c.rest)
        else
          var s := ScheduleReconnect(c.link, c.rest);
          Run(s.link, Announce(k) + c.effects + s.effects, s.ok, s.rest)
    else Run(link, [Emit(PermanentFailure)], false, script)
  }

  /** `handleDisconnection()`: mark the link down, report it, schedule a reconnect. */
  function HandleDisconnection(link: Link, script: seq<Attempt>): (r: Run)
    ensures AttemptsInRange(link) ==> AttemptsInRange(r.link)
    ensures |r.effects| >= 1 && r.effects[0] == Emit(Disconnected)
    ensures var s := ScheduleReconnect(link.(connected := false), script);
            r.effects == [Emit(Disconnected)] + s.effects && r.link == s.link && r.ok == s.ok && r.rest == s.rest
  {
    var s := ScheduleReconnect(link.(connected := false), script);
    Run(s.link, [Emit(Disconnected)] + s.effects, s.ok, s.rest)
  }

  /** No attempt of the script opens a session. */
  predicate NoneOpens(script: seq<Attempt>) {
    forall i | 0 <= i < |script| :: !Opens(script[i])
  }

  /** While no attempt opens a session, however the attempts fail, a disconnected client
      stays down and the reconnect reports failure. */
  lemma DisconnectionStaysDown(link: Link, script: seq<Attempt>)
    requires NoneOpens(script)
    ensures var r := HandleDisconnection(link, script);
            !r.ok && !IsConnectedToServer(r.link)
  {
    ScheduleStaysDown(link.(connected := false), script);
  }

  lemma {:induction false} ScheduleStaysDown(link: Link, script: seq<Attempt>)
    requires !link.connected && NoneOpens(script)
    ensures var r := ScheduleReconnect(link, script);
            !r.ok && !r.link.connected && NoneOpens(r.rest)
    decreases |script|, 1
  {
    if link.reconnectAttempts < MaxReconnectAttempts && |script| > 0 {
      var l := link.(reconnectAttempts := link.reconnectAttempts + 1);
      ConnectStaysDown(l, l.currentUserId, script);
      var c := Connect(l, l.currentUserId, script);
      ScheduleStaysDown(c.link, c.rest);
    }
  }

  lemma {:induction false} ConnectStaysDown(link: Link, userId: string, script: seq<Attempt>)
    requires !link.connected && NoneOpens(script)
    ensures var r := Connect(link, userId, script);
            !r.ok && !r.link.connected && NoneOpens(r.rest)
    decreases |script|, 0
  {
    if |script| > 0 {
      assert !Opens(script[0]);
      if script[0].Throws? {
        ScheduleStaysDown(link.(currentUserId := userId), script[1..]);
      }
    }
  }

  /** `isConnectedToServer()`. */
  predicate IsConnectedToServer(link: Link) {
    link.connected
  }

  /** `sendMessage(message)`: refused while not connected; `sendOk` is false when the
      send throws. */
  function SendMessage(link: Link, msgType: MessageType, sendOk: bool): (r: (bool, seq<Effect>))
    ensures r.0 <==> IsConnectedToServer(link) && sendOk
    ensures r.1 == (if r.0 then [Sent(msgType)] else [])
  {
    if !link.connected || !sendOk then (false, []) else (true, [Sent(msgType)])
  }

  /** `disconnect()` as written: the link is marked down before the UNREGISTER message is
      sent, so `sendMessage` refuses it. `closeOk` is false when closing the session throws,
      in which case no event is reported. */
  function Disconnect(link: Link, closeOk: bool): (r: (Link, seq<Effect>))
    ensures !IsConnectedToServer(r.0)
    ensures r.0 == link.(connected := false)
    ensures r.1 == (if closeOk then [Emit(Disconnected)] else [])
  {
    var down := link.(connected := false);
    var (_, sent) := SendMessage(down, UNREGISTER, true);
    (down, sent + (if closeOk then [Emit(Disconnected)] else []))
  }

  /** The as-written `disconnect()` never tells the server it is leaving, whatever the state. */
  lemma DisconnectNeverUnregisters(link: Link, closeOk: bool)
    ensures Sent(UNREGISTER) !in Disconnect(link, closeOk).1
  {
  }

  /** `disconnect()` with the unregistration sent while the link is still up. */
  function DisconnectFixed(link: Link, sendOk: bool, closeOk: bool): (r: (Link, seq<Effect>))
    ensures !IsConnectedToServer(r.0)
    ensures IsConnectedToServer(link) && sendOk ==> |r.1| >= 1 && r.1[0] == Sent(UNREGISTER)
    ensures closeOk <==> Emit(Disconnected) in r.1
  {
    var (_, sent) := SendMessage(link, UNREGISTER, sendOk);
    (link.(connected := false), sent + (if closeOk then [Emit(Disconnected)] else []))
  }

  // ---------------------------------------------------------------- back-off

  /** The announcements of attempts `from` up to the limit. */
  function Backoff(from: int): seq<Effect>
    decreases MaxReconnectAttempts + 1 - from
  {
    if from > MaxReconnectAttempts then [] else Announce(from) + Backoff(from + 1)
  }

  /** `n` attempts that each open no session. */
  function NoSessions(n: nat): (s: seq<Attempt>)
    ensures |s| == n && forall i | 0 <= i < n :: s[i] == NoSession
  {
    seq(n, _ => NoSession)
  }

  /** When every attempt fails quietly, a reconnect announces attempts k+1..5 with delays of
      5000·k ms, then reports permanent failure once, having used exactly the remaining
      attempts. */
  lemma {:induction false} QuietFailuresBackOff(link: Link, n: nat)
    requires AttemptsInRange(link)
    requires n >= MaxReconnectAttempts - link.reconnectAttempts
    ensures var r := ScheduleReconnect(link, NoSessions(n));
            && r.effects == Backoff(link.reconnectAttempts + 1) + [Emit(PermanentFailure)]
            && r.link.reconnectAttempts == MaxReconnectAttempts
            && |r.rest| == n - (MaxReconnectAttempts - link.reconnectAttempts)
            && !r.ok
    decreases MaxReconnectAttempts - link.reconnectAttempts
  {
    var a := link.reconnectAttempts;
    if a < MaxReconnectAttempts {
      var k := a + 1;
      var l := link.(reconnectAttempts := k);
      QuietFailureStep(link, n);
      QuietFailuresBackOff(l, n - 1);
      var s := ScheduleReconnect(l, NoSessions(n - 1));
      var tail := Backoff(k + 1);
      assert Backoff(k) == Announce(k) + tail;
      assert Announce(k) + s.effects == Backoff(k) + [Emit(PermanentFailure)] by {
        assert Announce(k) + (tail + [Emit(PermanentFailure)]) == (Announce(k) + tail) + [Emit(PermanentFailure)];
      }
    } else {
      assert Backoff(a + 1) == [];
      assert ScheduleReconnect(link, NoSessions(n)) == Run(link, [Emit(PermanentFailure)], false, NoSessions(n));
    }
  }

  /** One quiet failure: the attempt is counted and announced, and the rest of the script
      goes to the next reconnect. */
  lemma QuietFailureStep(link: Link, n: nat)
    requires AttemptsInRange(link) && link.reconnectAttempts < MaxReconnectAttempts && n >= 1
    ensures var l := link.(reconnectAttempts := link.reconnectAttempts + 1);
            var s := ScheduleReconnect(l, NoSessions(n - 1));
            ScheduleReconnect(link, NoSessions(n)) == Run(s.link, Announce(l.reconnectAttempts) + s.effects, s.ok, s.rest)
  {
    var l := link.(reconnectAttempts := link.reconnectAttempts + 1);
    var script := NoSessions(n);
    assert script[0] == NoSession && script[1..] == NoSessions(n - 1);
    assert Connect(l, l.currentUserId, script) == Run(l, [], false, NoSessions(n - 1));
    assert Announce(l.reconnectAttempts) + [] == Announce(l.reconnectAttempts);
  }

  // ---------------------------------------------------------------- the double reconnect

  /** The status `Connected` appears at most as the very last status of a run. */
  predicate ConnectedOnlyLast(effects: seq<Effect>) {
    forall i | 0 <= i < |effects| - 1 :: effects[i] != Emit(Connected)
  }

  /** A reconnect whose first attempt throws and whose second opens a session: the nested
      `connect` reports failure although the link is up again. */
  lemma NestedConnectSucceeds()
    ensures Connect(Link(false, 1, "u"), "u", [Throws(Some("x")), Session, Session])
         == Run(Link(true, 0, "u"), [Emit(Failed("x"))] + Announce(2) + [Sent(REGISTER), Emit(Connected)], false, [Session])
  {
    var up := Link(true, 0, "u");
    assert Connect(Link(false, 2, "u"), "u", [Session, Session]) == Run(up, [Sent(REGISTER), Emit(Connected)], true, [Session]);
    assert ScheduleReconnect(Link(false, 1, "u"), [Session, Session])
        == Run(up, Announce(2) + [Sent(REGISTER), Emit(Connected)], true, [Session]);
    assert [Throws(Some("x")), Session, Session][1..] == [Session, Session];
  }

  /** As written, an exception inside a reconnect makes the nested `connect` schedule its own
      reconnect; when that one succeeds, the outer one still sees `false` and reconnects a
      second time although the link is up: `Connected` is followed by `Reconnecting(1)` and a
      second session. */
  lemma ReconnectsAfterConnected()
    ensures var r := HandleDisconnection(Link(true, 0, "u"), [Throws(Some("x")), Session, Session]);
            && r.effects == [Emit(Disconnected), Emit(Reconnecting(1)), Wait(5000), Emit(Failed("x")),
                             Emit(Reconnecting(2)), Wait(10000), Sent(REGISTER), Emit(Connected),
                             Emit(Reconnecting(1)), Wait(5000), Sent(REGISTER), Emit(Connected)]
            && !ConnectedOnlyLast(r.effects)
  {
    OuterReconnectRepeats();
    var r := HandleDisconnection(Link(true, 0, "u"), [Throws(Some("x")), Session, Session]);
    assert r.effects[7] == Emit(Connected);
  }

  /** The outer reconnect of `ReconnectsAfterConnected`, which runs a second attempt after
      the nested one has connected. */
  lemma OuterReconnectRepeats()
    ensures ScheduleReconnect(Link(false, 0, "u"), [Throws(Some("x")), Session, Session])
         == Run(Link(true, 0, "u"),
                Announce(1) + ([Emit(Failed("x"))] + Announce(2) + [Sent(REGISTER), Emit(Connected)])
                + (Announce(1) + [Sent(REGISTER), Emit(Connected)]), true, [])
  {
    var up := Link(true, 0, "u");
    NestedConnectSucceeds();
    assert ScheduleReconnect(up, [Session]) == Run(up, Announce(1) + [Sent(REGISTER), Emit(Connected)], true, []);
  }

  /** One attempt without any rescheduling of its own. */
  function ConnectOnce(link: Link, userId: string, attempt: Attempt): (r: (Link, seq<Effect>, bool))
    ensures r.2 <==> Opens(attempt)
    ensures r.0.reconnectAttempts == (if Opens(attempt) then 0 else link.reconnectAttempts)
    ensures r.0.currentUserId == userId
    ensures r.2 ==> r.0.connected && r.1 == (if attempt == Session then [Sent(REGISTER)] else []) + [Emit(Connected)]
    ensures !r.2 ==> Emit(Connected) !in r.1
  {
    var l := link.(currentUserId := userId);
    match attempt
    case NoNetwork => (l, [Emit(NoInternet)], false)
    case NoSession => (l, [], false)
    case Session => (l.(connected := true, reconnectAttempts := 0), [Sent(REGISTER), Emit(Connected)], true)
    case SessionUnregistered => (l.(connected := true, reconnectAttempts := 0), [Emit(Connected)], true)
    case Throws(message) => (l, [Emit(Failed(message.GetOr(UnknownError)))], false)
  }

  /** `connect` makes exactly the attempt `ConnectOnce` describes, and only an exception goes
      on to the reconnect loop. */
  lemma ConnectFirstAttempt(link: Link, userId: string, script: seq<Attempt>)
    requires |script| > 0
    ensures var (l, effects, ok) := ConnectOnce(link, userId, script[0]);
            var r := Connect(link, userId, script);
            && r.ok == ok
            && (!script[0].Throws? ==> r == Run(l, effects, ok, script[1..]))
            && (script[0].Throws? ==>
                  var s := ScheduleReconnect(l, script[1..]);
                  r == Run(s.link, effects + s.effects, false, s.rest))
  {
  }

  /** `scheduleReconnect()` as intended: the reconnect loop alone decides whether to try
      again, so a run stops at its first success. */
  function ScheduleReconnectFixed(link: Link, script: seq<Attempt>): (r: Run)
    requires AttemptsInRange(link)
    ensures AttemptsInRange(r.link)
    ensures ConnectedOnlyLast(r.effects)
    ensures r.ok <==> Emit(Connected) in r.effects
    ensures r.ok ==> r.link.connected
    ensures Emit(PermanentFailure) in r.effects ==> r.effects[|r.effects| - 1] == Emit(PermanentFailure)
    decreases |script|
  {
    if link.reconnectAttempts < MaxReconnectAttempts then
      var k := link.reconnectAttempts + 1;
      var l := link.(reconnectAttempts := k);
      if |script| == 0 then Run(l, Announce(k), false, [])
      else
        var (l2, effects, ok) := ConnectOnce(l, l.currentUserId, script[0]);
        if ok then Run(l2, Announce(k) + effects, true, script[1..])
        else
          var s := ScheduleReconnectFixed(l2, script[1..]);
          var all := Announce(k) + effects + s.effects;
          assert forall i | 0 <= i < |Announce(k) + effects| :: all[i] != Emit(Connected) && all[i] != Emit(PermanentFailure);
          assert forall i | |Announce(k) + effects| <= i < |all| :: all[i] == s.effects[i - |Announce(k) + effects|];
          Run(s.link, all, s.ok, s.rest)
    else Run(link, [Emit(PermanentFailure)], false, script)
  }

  /** `handleDisconnection()` over the intended reconnect loop: whatever the attempts bring,
      the client never reconnects after it is connected again. */
  function HandleDisconnectionFixed(link: Link, script: seq<Attempt>): (r: Run)
    requires AttemptsInRange(link)
    ensures ConnectedOnlyLast(r.effects)
    ensures |r.effects| >= 1 && r.effects[0] == Emit(Disconnected)
    ensures r.ok <==> Emit(Connected) in r.effects
  {
    var s := ScheduleReconnectFixed(link.(connected := false), script);
    var all := [Emit(Disconnected)] + s.effects;
    assert forall i | 1 <= i < |all| :: all[i] == s.effects[i - 1];
    Run(s.link, all, s.ok, s.rest)
  }
}
