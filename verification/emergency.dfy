/** The emergency manager: a shake counter that triggers emergency mode after three quick
    shakes, the detection switch, and the emergency contacts kept in preferences.
    The accelerometer magnitude is reduced to whether it exceeds the threshold, the clock is a
    parameter, and the alerting, wiping, notification and vibration side effects are
    reported as a flag rather than performed. */
module Emergency {
  import opened Wrappers
  import opened Decimal

  /** Shakes further apart than this many milliseconds start a new count. */
  const ShakeTimeLapse: int := 1000
  /** Shakes that trigger emergency mode. */
  const RequiredShakes: int := 3

  datatype PanicGesture = ShakeThreeTimes | VolumeButtons | PowerButtonSequence | ScreenTapPattern

  /** The detector's state. `listening` is whether the accelerometer listener is registered. */
  datatype Detector = Detector(
    detectionActive: bool,
    listening: bool,
    emergencyActive: bool,
    lastShakeTime: int,
    shakeCount: int,
    gesture: PanicGesture
  )

  /** The count is a Kotlin `Int`. */
  predicate CountInRange(d: Detector) {
    Int32Min <= d.shakeCount <= Int32Max
  }

  /** `triggerEmergencyMode()`: the second component is whether the emergency procedures
      were launched. */
  function TriggerEmergencyMode(d: Detector): (r: (Detector, bool))
    ensures r.0.emergencyActive
    ensures r.1 <==> !d.emergencyActive
    ensures r.0 == d.(emergencyActive := true)
  {
    if d.emergencyActive then (d, false) else (d.(emergencyActive := true), true)
  }

  /** Triggering twice is triggering once, and the second time launches nothing. */
  lemma TriggerIdempotent(d: Detector)
    ensures TriggerEmergencyMode(TriggerEmergencyMode(d).0) == (TriggerEmergencyMode(d).0, false)
  {
  }

  /** `detectShakeGesture`, given whether the acceleration exceeds the threshold. */
  function DetectShakeGesture(d: Detector, aboveThreshold: bool, now: int): (r: (Detector, bool))
    requires CountInRange(d)
    ensures CountInRange(r.0)
    ensures !aboveThreshold ==> r == (d, false)
    ensures aboveThreshold ==>
              && r.0.lastShakeTime == now
              && (now - d.lastShakeTime > ShakeTimeLapse ==> r.0.shakeCount == 1)
              && (now - d.lastShakeTime <= ShakeTimeLapse && d.shakeCount < Int32Max ==> r.0.shakeCount == d.shakeCount + 1)
              && (r.0.emergencyActive <==> d.emergencyActive || r.0.shakeCount >= RequiredShakes)
              && (r.1 <==> !d.emergencyActive && r.0.shakeCount >= RequiredShakes)
    ensures r.0.detectionActive == d.detectionActive && r.0.listening == d.listening && r.0.gesture == d.gesture
  {
    if !aboveThreshold then (d, false)
    else
      var base := if now - d.lastShakeTime > ShakeTimeLapse then 0 else d.shakeCount;
      var counted := d.(lastShakeTime := now, shakeCount := WrapInt32(base + 1));
      if counted.shakeCount >= RequiredShakes then TriggerEmergencyMode(counted) else (counted, false)
  }

  /** The accelerometer listener: events reach the detector only while it is registered. */
  function OnSensorChanged(d: Detector, aboveThreshold: bool, now: int): (r: (Detector, bool))
    requires CountInRange(d)
    ensures CountInRange(r.0)
    ensures !d.listening ==> r == (d, false)
  {
    if d.listening then DetectShakeGesture(d, aboveThreshold, now) else (d, false)
  }

  /** Three shakes, each within the time lapse of the one before, trigger emergency mode
      from a fresh count; the first two do not. */
  lemma ThreeQuickShakesTrigger(d: Detector, t1: int, t2: int, t3: int)
    requires CountInRange(d) && !d.emergencyActive
    requires t1 - d.lastShakeTime > ShakeTimeLapse
    requires 0 <= t2 - t1 <= ShakeTimeLapse && 0 <= t3 - t2 <= ShakeTimeLapse
    ensures var a := DetectShakeGesture(d, true, t1);
            var b := DetectShakeGesture(a.0, true, t2);
            var c := DetectShakeGesture(b.0, true, t3);
            && !a.0.emergencyActive && !b.0.emergencyActive && !a.1 && !b.1
            && c.0.emergencyActive && c.1 && c.0.shakeCount == 3
  {
  }

  /** A shake after a pause longer than the time lapse never triggers by itself: the count
      starts again at one. */
  lemma SlowShakeRestarts(d: Detector, now: int)
    requires CountInRange(d) && !d.emergencyActive
    requires now - d.lastShakeTime > ShakeTimeLapse
    ensures var r := DetectShakeGesture(d, true, now);
            r.0.shakeCount == 1 && !r.0.emergencyActive && !r.1
  {
  }

  /** `resetEmergencyMode()`. */
  function ResetEmergencyMode(d: Detector): (r: Detector)
    ensures !r.emergencyActive && r.shakeCount == 0 && r.lastShakeTime == 0
    ensures r.detectionActive == d.detectionActive && r.listening == d.listening && r.gesture == d.gesture
  {
    d.(emergencyActive := false, shakeCount := 0, lastShakeTime := 0)
  }

  /** After a reset, three quick shakes trigger again. */
  lemma ResetRearms(d: Detector, t1: int, t2: int, t3: int)
    requires t1 > ShakeTimeLapse
    requires 0 <= t2 - t1 <= ShakeTimeLapse && 0 <= t3 - t2 <= ShakeTimeLapse
    ensures var z := ResetEmergencyMode(d);
            var c := DetectShakeGesture(DetectShakeGesture(DetectShakeGesture(z, true, t1).0, true, t2).0, true, t3);
            c.0.emergencyActive && c.1
  {
    ThreeQuickShakesTrigger(ResetEmergencyMode(d), t1, t2, t3);
  }

  /** `startPanicDetection()`: only the shake gesture registers a listener, and only on a
      device with an accelerometer. */
  function StartPanicDetection(d: Detector, hasAccelerometer: bool): (r: Detector)
    ensures d.detectionActive ==> r == d
    ensures !d.detectionActive ==>
              r == d.(detectionActive := true, listening := d.gesture == ShakeThreeTimes && hasAccelerometer)
  {
    if d.detectionActive then d
    else d.(detectionActive := true, listening := d.gesture == ShakeThreeTimes && hasAccelerometer)
  }

  /** `stopPanicDetection()`. */
  function StopPanicDetection(d: Detector): (r: Detector)
    ensures !d.detectionActive ==> r == d
    ensures d.detectionActive ==> !r.detectionActive && !r.listening && r.shakeCount == 0
    ensures r.emergencyActive == d.emergencyActive && r.lastShakeTime == d.lastShakeTime
  {
    if !d.detectionActive then d
    else d.(detectionActive := false, listening := false, shakeCount := 0)
  }

  /** Starting and stopping are idempotent, and a stopped detector ignores shakes. */
  lemma StartStopIdempotent(d: Detector, hasAccelerometer: bool, aboveThreshold: bool, now: int)
    requires CountInRange(d)
    ensures StartPanicDetection(StartPanicDetection(d, hasAccelerometer), hasAccelerometer) == StartPanicDetection(d, hasAccelerometer)
    ensures StopPanicDetection(StopPanicDetection(d)) == StopPanicDetection(d)
    ensures d.detectionActive || !d.listening ==>
              OnSensorChanged(StopPanicDetection(d), aboveThreshold, now) == (StopPanicDetection(d), false)
  {
  }

  // ---------------------------------------------------------------- contacts

  datatype ContactType = SMS | EMAIL | WEBHOOK | TELEGRAM

  datatype Contact = Contact(name: string, contactType: ContactType, value: string, enabled: bool)

  /** Kotlin's `Enum.name`. */
  function TypeName(t: ContactType): string {
    match t
    case SMS => "SMS"
    case EMAIL => "EMAIL"
    case WEBHOOK => "WEBHOOK"
    case TELEGRAM => "TELEGRAM"
  }

  /** One contact object; the text is inserted without escaping. */
  function ContactJson(c: Contact): (r: string)
    ensures |r| >= 2 && r[0] == '{' && r[|r| - 1] == '}'
  {
    "{" + "\"name\":\"" + c.name + "\"," + "\"type\":\"" + TypeName(c.contactType) + "\","
      + "\"value\":\"" + c.value + "\"," + "\"enabled\":" + BoolToString(c.enabled) + "}"
  }

  /** Texts separated by commas. */
  function JoinComma(xs: seq<string>): (r: string)
    ensures xs == [] ==> r == ""
  {
    if xs == [] then "" else xs[0] + (if |xs| > 1 then "," + JoinComma(xs[1..]) else "")
  }

  /** One more text is appended after a comma, or alone when there was none. */
  lemma {:induction false} JoinCommaAppend(xs: seq<string>, x: string)
    ensures JoinComma(xs + [x]) == JoinComma(xs) + (if xs == [] then "" else ",") + x
  {
    if xs != [] {
      assert (xs + [x])[0] == xs[0];
      assert (xs + [x])[1..] == xs[1..] + [x];
      JoinCommaAppend(xs[1..], x);
    }
  }

  /** The contact objects in list order. */
  function ContactObjects(cs: seq<Contact>): (r: seq<string>)
    ensures |r| == |cs| && forall i | 0 <= i < |cs| :: r[i] == ContactJson(cs[i])
  {
    seq(|cs|, i requires 0 <= i < |cs| => ContactJson(cs[i]))
  }

  lemma ContactObjectsAppend(cs: seq<Contact>, c: Contact)
    ensures ContactObjects(cs + [c]) == ContactObjects(cs) + [ContactJson(c)]
  {
    var a, b := ContactObjects(cs + [c]), ContactObjects(cs) + [ContactJson(c)];
    forall i | 0 <= i < |a| ensures a[i] == b[i] {
      if i < |cs| {
        assert (cs + [c])[i] == cs[i];
      }
    }
  }

  /** `emergencyContactsToJson`. */
  function EmergencyContactsToJson(cs: seq<Contact>): (r: string)
    ensures |r| >= 2 && r[0] == '[' && r[|r| - 1] == ']'
    ensures r == "[]" <==> cs == []
  {
    var objs := ContactObjects(cs);
    assert cs != [] ==> |JoinComma(objs)| >= 2 by {
      if cs != [] {
        assert |objs[0]| >= 2;
      }
    }
    "[" + JoinComma(objs) + "]"
  }

  /** Adding a contact appends its object, after a comma when the list was not empty. */
  lemma ContactsToJsonAppend(cs: seq<Contact>, c: Contact)
    ensures EmergencyContactsToJson(cs + [c])
            == "[" + JoinComma(ContactObjects(cs)) + (if cs == [] then "" else ",") + ContactJson(c) + "]"
  {
    ContactObjectsAppend(cs, c);
    JoinCommaAppend(ContactObjects(cs), ContactJson(c));
  }

  /** `parseEmergencyContacts`: the body is a stub that returns an empty list. */
  function ParseEmergencyContacts(json: string): (r: seq<Contact>)
    ensures r == []
  {
    []
  }

  /** `addEmergencyContact`: appended, and the preference rewritten. */
  function AddEmergencyContact(cs: seq<Contact>, c: Contact): (r: (seq<Contact>, string))
    ensures r.0 == cs + [c] && r.1 == EmergencyContactsToJson(r.0)
  {
    (cs + [c], EmergencyContactsToJson(cs + [c]))
  }

  /** The position of the first element equal to `c`, or |cs|. */
  function FirstIndex(cs: seq<Contact>, c: Contact): (k: nat)
    ensures k <= |cs|
    ensures forall j | 0 <= j < k :: cs[j] != c
    ensures k < |cs| ==> cs[k] == c
  {
    if |cs| == 0 then 0
    else if cs[0] == c then 0
    else FirstIndex(cs[1..], c) + 1
  }

  /** `removeEmergencyContact`: the first equal contact removed, and the preference
      rewritten. */
  function RemoveEmergencyContact(cs: seq<Contact>, c: Contact): (r: (seq<Contact>, string))
    ensures c !in cs ==> r.0 == cs
    ensures c in cs ==> |r.0| == |cs| - 1 && multiset(r.0) == multiset(cs) - multiset{c}
    ensures r.1 == EmergencyContactsToJson(r.0)
  {
    var k := FirstIndex(cs, c);
    if k == |cs| then (cs, EmergencyContactsToJson(cs))
    else
      assert cs == cs[..k] + [cs[k]] + cs[k + 1..];
      (cs[..k] + cs[k + 1..], EmergencyContactsToJson(cs[..k] + cs[k + 1..]))
  }

  /** Adding a contact and then removing it restores a list that did not hold it. */
  lemma RemoveAfterAdd(cs: seq<Contact>, c: Contact)
    requires c !in cs
    ensures RemoveEmergencyContact(AddEmergencyContact(cs, c).0, c).0 == cs
  {
    var k := FirstIndex(cs + [c], c);
    assert (cs + [c])[|cs|] == c;
    assert (cs + [c])[..k] == cs;
  }

  /** The preferences `loadSettings` reads; `None` is a missing key. */
  datatype StoredPrefs = StoredPrefs(
    contacts: Option<string>,
    message: Option<string>,
    autoDelete: Option<bool>,
    gesture: Option<int>,
    silent: Option<bool>
  )

  datatype Settings = Settings(
    contacts: seq<Contact>,
    message: string,
    autoDelete: bool,
    gesture: PanicGesture,
    silent: bool
  )

  /** The message sent when no other is configured ("Emergency! I need help...", sent
      automatically by the app). */
  const DefaultMessage: string := "حالة طوارئ! أحتاج المساعدة. تم إرسال هذه الرسالة تلقائياً من تطبيق Crypta."

  /** `loadSettings()`, with `gestures` the enumeration's constants in declaration order. A
      gesture index out of range throws, which leaves that and the later settings at their
      initial values. */
  function LoadSettings(stored: StoredPrefs, gestures: seq<PanicGesture>): (r: Settings)
    ensures r.contacts == []
    ensures r.message == stored.message.GetOr(DefaultMessage) && r.autoDelete == stored.autoDelete.GetOr(true)
    ensures var i := stored.gesture.GetOr(0);
            && (0 <= i < |gestures| ==> r.gesture == gestures[i] && r.silent == stored.silent.GetOr(false))
            && (!(0 <= i < |gestures|) ==> r.gesture == ShakeThreeTimes && !r.silent)
  {
    var contacts := ParseEmergencyContacts(stored.contacts.GetOr("[]"));
    var i := stored.gesture.GetOr(0);
    var base := Settings(contacts, stored.message.GetOr(DefaultMessage), stored.autoDelete.GetOr(true), ShakeThreeTimes, false);
    if 0 <= i < |gestures| then base.(gesture := gestures[i], silent := stored.silent.GetOr(false)) else base
  }

  /** Saved contacts are not restored: whatever list was saved, loading yields none. */
  lemma SavedContactsAreLost(cs: seq<Contact>, c: Contact, stored: StoredPrefs, gestures: seq<PanicGesture>)
    ensures LoadSettings(stored.(contacts := Some(AddEmergencyContact(cs, c).1)), gestures).contacts == []
  {
  }
}
