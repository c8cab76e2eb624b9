/** Decimal text for integers and booleans as the JVM and Rust write and read it:
    `Long.toString`, `String.toLong()`, `toInt()`, `toIntOrNull()`, `toBoolean()`. */
module Decimal {
  import opened Wrappers

  const Int32Min: int := -0x8000_0000
  const Int32Max: int := 0x7FFF_FFFF
  const Int64Min: int := -0x8000_0000_0000_0000
  const Int64Max: int := 0x7FFF_FFFF_FFFF_FFFF

  predicate IsDigit(c: char) {
    '0' <= c <= '9'
  }

  predicate AllDigits(s: string) {
    forall i | 0 <= i < |s| :: IsDigit(s[i])
  }

  function DigitValue(c: char): (d: nat)
    requires IsDigit(c)
    ensures d < 10
  {
    c as int - '0' as int
  }

  function DigitChar(d: nat): (c: char)
    requires d < 10
    ensures IsDigit(c) && DigitValue(c) == d
  {
    ('0' as int + d) as char
  }

  /** The number a string of decimal digits denotes (leading zeros allowed). */
  function DigitsValue(s: string): nat
    requires AllDigits(s)
    decreases |s|
  {
    if |s| == 0 then 0 else 10 * DigitsValue(s[..|s| - 1]) + DigitValue(s[|s| - 1])
  }

  /** The shortest decimal digits of `n`. */
  function NatToString(n: nat): (r: string)
    ensures |r| >= 1 && AllDigits(r)
    ensures DigitsValue(r) == n
    ensures |r| > 1 ==> r[0] != '0'
  {
    if n < 10 then [DigitChar(n)]
    else
      var r := NatToString(n / 10) + [DigitChar(n % 10)];
      assert r[..|r| - 1] == NatToString(n / 10);
      r
  }

  /** `Long.toString` / `Int.toString` / Rust `Display` for integers: an optional minus sign
      followed by the shortest digits. */
  function IntToString(n: int): (r: string)
    ensures |r| >= 1
    ensures n < 0 <==> r[0] == '-'
    ensures forall i | 0 <= i < |r| :: IsDigit(r[i]) || (i == 0 && r[i] == '-')
    ensures IsDigit(r[|r| - 1])
  {
    if n < 0 then "-" + NatToString(-n) else NatToString(n)
  }

  /** JVM `Int` arithmetic: the result reduced into the 32-bit two's-complement range. */
  function WrapInt32(n: int): (r: int)
    ensures Int32Min <= r <= Int32Max
    ensures (r - n) % 0x1_0000_0000 == 0
    ensures Int32Min <= n <= Int32Max ==> r == n
  {
    (n - Int32Min) % 0x1_0000_0000 + Int32Min
  }

  /** The digits after an optional leading sign. */
  function Magnitude(s: string): (m: string)
    ensures |m| <= |s| && m == s[|s| - |m|..]
  {
    if |s| > 0 && (s[0] == '+' || s[0] == '-') then s[1..] else s
  }

  /** `String.toLong()` / `toInt()` / `toIntOrNull()` with the target range [lo, hi]: an
      optional sign, at least one ASCII digit, nothing else, and a value inside the range.
      `None` stands for the thrown `NumberFormatException` or the returned `null`. */
  function ParseInteger(s: string, lo: int, hi: int): (r: Option<int>)
    ensures r.Some? ==> lo <= r.value <= hi
    ensures r.Some? ==> |Magnitude(s)| > 0 && AllDigits(Magnitude(s))
    ensures r.Some? && |s| > 0 && s[0] == '-' ==> r.value <= 0
    ensures r.Some? && !(|s| > 0 && s[0] == '-') ==> r.value >= 0
  {
    var m := Magnitude(s);
    if |m| == 0 || !AllDigits(m) then None
    else
      var d: int := DigitsValue(m);
      var v := if s[0] == '-' then -d else d;
      if lo <= v <= hi then Some(v) else None
  }

  /** `String.toLong()`. */
  function ParseLong(s: string): (r: Option<int>)
    ensures r.Some? ==> Int64Min <= r.value <= Int64Max
  {
    ParseInteger(s, Int64Min, Int64Max)
  }

  /** `String.toInt()` and `String.toIntOrNull()`. */
  function ParseInt(s: string): (r: Option<int>)
    ensures r.Some? ==> Int32Min <= r.value <= Int32Max
  {
    ParseInteger(s, Int32Min, Int32Max)
  }

  /** Reading back what `IntToString` wrote gives the number, whenever it is in range. */
  lemma ParseIntToString(n: int, lo: int, hi: int)
    requires lo <= n <= hi
    ensures ParseInteger(IntToString(n), lo, hi) == Some(n)
  {
    var s := IntToString(n);
    if n < 0 {
      assert Magnitude(s) == NatToString(-n);
    } else {
      assert Magnitude(s) == NatToString(n);
    }
  }

  /** `Boolean.toString()`. */
  function BoolToString(b: bool): (r: string)
    ensures |r| >= 4 && r[0] != ' ' && r[|r| - 1] == 'e'
    ensures forall i | 0 <= i < |r| :: 'a' <= r[i] <= 'z'
  {
    if b then "true" else "false"
  }

  /** ASCII letter comparison ignoring case. */
  predicate SameLetterIgnoringCase(a: char, b: char) {
    a == b || (('a' <= b <= 'z') && a as int == b as int - 32)
  }

  /** Kotlin `String.toBoolean()`: true exactly for "true" in any letter case. */
  function ToBoolean(s: string): (r: bool)
    ensures r ==> |s| == 4
    ensures s == "true" ==> r
  {
    |s| == 4 && forall i | 0 <= i < 4 :: SameLetterIgnoringCase(s[i], "true"[i])
  }

  /** Reading back what `BoolToString` wrote gives the boolean. */
  lemma ToBooleanOfString(b: bool)
    ensures ToBoolean(BoolToString(b)) == b
  {
    if !b {
      assert !SameLetterIgnoringCase("false"[0], "true"[0]);
    }
  }
}
