/** The app shell's lock: the PIN pad, the PIN the lock screen accumulates, and the
    locked flag and current screen of the top-level composable. Rendering is left out; a
    user's click is an event applied to the state. */
module LockScreen {
  import opened Wrappers

  /** The PIN that unlocks the app. */
  const DefaultPin: string := "1234"
  /** PIN length at which the entry is checked. */
  const PinLength: nat := 4
  /** The delete key's text. */
  const DeleteLabel: string := "⌫"

  /** The pad's labels row by row; the empty text is not drawn. */
  const PadRows: seq<seq<string>> := [["1", "2", "3"], ["4", "5", "6"], ["7", "8", "9"], ["", "0", DeleteLabel]]

  /** What a drawn pad key does. */
  datatype Key = Number(text: string) | Delete

  /** The pad's click handler; the empty text has no card and so no handler. */
  function Dispatch(text: string): (r: Option<Key>)
    ensures text == "" <==> r.None?
    ensures text == DeleteLabel ==> r == Some(Delete)
    ensures text != "" && text != DeleteLabel ==> r == Some(Number(text))
  {
    if text == "" then None else if text == DeleteLabel then Some(Delete) else Some(Number(text))
  }

  predicate IsDigit(c: char) {
    '0' <= c <= '9'
  }

  predicate AllDigits(s: string) {
    forall i | 0 <= i < |s| :: IsDigit(s[i])
  }

  /** A text on the pad. */
  predicate OnPad(text: string) {
    exists row | row in PadRows :: text in row
  }

  /** Every text the pad sends to the number handler is a single digit. */
  lemma PadNumbersAreDigits(text: string)
    requires OnPad(text)
    ensures Dispatch(text).Some? && Dispatch(text).value.Number? ==>
              |text| == 1 && IsDigit(text[0])
  {
    var row :| row in PadRows && text in row;
    assert row == PadRows[0] || row == PadRows[1] || row == PadRows[2] || row == PadRows[3];
  }

  /** The lock screen's own state. */
  datatype Entry = Entry(pin: string, isShaking: bool)

  /** `onNumberClick`: the result's flag is whether `onUnlock` was called. */
  function OnNumberClick(e: Entry, number: string): (r: (Entry, bool))
    ensures |e.pin| >= PinLength ==> r == (e, false)
    ensures |e.pin| < PinLength && |e.pin + number| != PinLength ==> r == (e.(pin := e.pin + number), false)
    ensures |e.pin| < PinLength && |e.pin + number| == PinLength ==>
              (r.1 <==> e.pin + number == DefaultPin)
              && (!r.1 ==> r.0 == Entry("", true))
  {
    if |e.pin| < PinLength then
      var pin := e.pin + number;
      if |pin| == PinLength then
        if pin == DefaultPin then (e.(pin := pin), true) else (Entry("", true), false)
      else (e.(pin := pin), false)
    else (e, false)
  }

  /** `onDelete`. */
  function OnDelete(e: Entry): (r: Entry)
    ensures |e.pin| == 0 ==> r == e
    ensures |e.pin| > 0 ==> r.pin + [e.pin[|e.pin| - 1]] == e.pin && r.isShaking == e.isShaking
  {
    if |e.pin| > 0 then e.(pin := e.pin[..|e.pin| - 1]) else e
  }

  /** The shake animation's end clears the flag. */
  function ShakeEnded(e: Entry): (r: Entry)
    ensures r.pin == e.pin && !r.isShaking
  {
    e.(isShaking := false)
  }

  /** The top-level state. The lock screen's entry lives only while the lock screen is
      composed: unlocking discards it and locking again starts with an empty one. */
  datatype App = App(currentScreen: string, isLocked: bool, entry: Entry)

  const Start: App := App("home", true, Entry("", false))

  datatype Event =
    | Press(text: string)
    | Shaken
    | Navigate(route: string)
    | Back
    | Lock

  /** What is drawn. */
  datatype Shown = LockView | Home | Messages | VaultView | Settings | Nothing

  function ShownOf(a: App): (r: Shown)
    ensures a.isLocked <==> r == LockView
  {
    if a.isLocked then LockView
    else if a.currentScreen == "home" then Home
    else if a.currentScreen == "messages" then Messages
    else if a.currentScreen == "vault" then VaultView
    else if a.currentScreen == "settings" then Settings
    else Nothing
  }

  /** One user action. Pad keys and the shake timer exist only on the lock screen; home's
      cards navigate; the other screens go back home; only settings locks. */
  function Step(a: App, ev: Event): (r: App)
    ensures !a.isLocked && ev.Press? ==> r == a
    ensures a.isLocked && !ev.Press? && !ev.Shaken? ==> r == a
    ensures r.isLocked && !a.isLocked ==> ShownOf(a) == Settings && ev == Lock && r.entry == Entry("", false)
    ensures !r.isLocked && a.isLocked ==> r.currentScreen == "home" && ev.Press? && a.entry.pin + ev.text == DefaultPin
  {
    match ev
    case Press(text) =>
      if !a.isLocked then a
      else
        (match Dispatch(text)
         case None => a
         case Some(Delete) => a.(entry := OnDelete(a.entry))
         case Some(Number(n)) =>
           var (e, unlocked) := OnNumberClick(a.entry, n);
           if unlocked then App("home", false, Entry("", false)) else a.(entry := e))
    case Shaken => if a.isLocked then a.(entry := ShakeEnded(a.entry)) else a
    case Navigate(route) => if ShownOf(a) == Home then a.(currentScreen := route) else a
    case Back =>
      var s := ShownOf(a);
      if s == Messages || s == VaultView || s == Settings then a.(currentScreen := "home") else a
    case Lock => if ShownOf(a) == Settings then a.(isLocked := true, entry := Entry("", false)) else a
  }

  /** What the lock screen may hold while it is shown: a short PIN of digits. */
  predicate Good(a: App) {
    a.isLocked ==> |a.entry.pin| < PinLength && AllDigits(a.entry.pin)
  }

  /** Pressing pad keys keeps the PIN short and made of digits. */
  lemma StepKeepsGood(a: App, ev: Event)
    requires Good(a)
    requires ev.Press? ==> OnPad(ev.text)
    ensures Good(Step(a, ev))
  {
    if ev.Press? && a.isLocked {
      PadNumbersAreDigits(ev.text);
      var pin := a.entry.pin;
      if ev.text == DeleteLabel {
        if |pin| > 0 {
          var q := pin[..|pin| - 1];
          forall i | 0 <= i < |q| ensures IsDigit(q[i]) {
            assert q[i] == pin[i];
          }
        }
      } else if ev.text != "" {
        forall i | 0 <= i < |pin + ev.text| ensures IsDigit((pin + ev.text)[i]) {
          if i < |pin| {
            assert (pin + ev.text)[i] == pin[i];
          }
        }
      }
    }
  }

  /** The app unlocks exactly on the fourth digit of the right PIN, always to home. */
  lemma UnlockExactly(a: App, text: string)
    requires Good(a) && a.isLocked && OnPad(text)
    ensures !Step(a, Press(text)).isLocked <==> a.entry.pin + text == DefaultPin
    ensures !Step(a, Press(text)).isLocked ==> ShownOf(Step(a, Press(text))) == Home
  {
    PadNumbersAreDigits(text);
    var s := a.entry.pin + text;
    if text == DeleteLabel {
      assert s[|s| - 1] != DefaultPin[3];
    } else if text == "" {
      assert s == a.entry.pin;
    }
  }

  /** Typing 1, 2, 3, 4 on a fresh lock screen unlocks. */
  lemma TypingDefaultPinUnlocks()
    ensures var a := Step(Step(Step(Step(Start, Press("1")), Press("2")), Press("3")), Press("4"));
            !a.isLocked && ShownOf(a) == Home
  {
    var a1 := Step(Start, Press("1"));
    assert a1.entry.pin == "1";
    var a2 := Step(a1, Press("2"));
    assert a2.entry.pin == "12";
    var a3 := Step(a2, Press("3"));
    assert a3.entry.pin == "123";
    assert a3.entry.pin + "4" == DefaultPin;
  }

  /** A wrong fourth digit keeps the app locked, clears the PIN and starts the shake. */
  lemma WrongPinShakes(a: App, text: string)
    requires Good(a) && a.isLocked && OnPad(text)
    requires Dispatch(text) == Some(Number(text))
    requires |a.entry.pin| == PinLength - 1 && a.entry.pin + text != DefaultPin
    ensures Step(a, Press(text)) == a.(entry := Entry("", true))
  {
    PadNumbersAreDigits(text);
  }
}
