/** The few JavaScript built-ins the trading front end leans on, modelled on
    strings: truthiness of optional strings, `charAt(0)`, `substring(1)`,
    `String(n)` for integers, the global `parseInt` (section 19.2.5 of
    ECMA-262) and `toFixed(2)` on amounts held as whole cents. */
module Js {

  datatype Option<+T> = None | Some(value: T) {
    function GetOr(default: T): T {
      match this
      case Some(v) => v
      case None => default
    }
  }

  /** A string-valued property read from JSON: missing (undefined) and ""
      are falsy, every other string is truthy. */
  predicate Truthy(s: Option<string>) {
    s.Some? && s.value != ""
  }

  /** `s || fallback` */
  function OrElse(s: Option<string>, fallback: string): string {
    if Truthy(s) then s.value else fallback
  }

  /** `s.charAt(0)`: the first character, or "" for the empty string. */
  function FirstChar(s: string): string {
    if s == [] then [] else [s[0]]
  }

  /** `s.substring(1)`: everything after the first character. */
  function DropFirst(s: string): string {
    if s == [] then [] else s[1..]
  }

  predicate StartsWith(s: string, prefix: string) {
    |prefix| <= |s| && s[..|prefix|] == prefix
  }

  predicate EndsWith(s: string, suffix: string) {
    |suffix| <= |s| && s[|s| - |suffix|..] == suffix
  }

  /** The value of `c` as a digit in radices up to 36 (letters in either
      case count 10..35), or -1 when it is not a digit at all. */
  function DigitOf(c: char): int {
    if '0' <= c <= '9' then c as int - '0' as int
    else if 'a' <= c <= 'z' then c as int - 'a' as int + 10
    else if 'A' <= c <= 'Z' then c as int - 'A' as int + 10
    else -1
  }

  predicate IsDigitIn(c: char, radix: nat) {
    0 <= DigitOf(c) < radix
  }

  function DigitChar(d: nat): (c: char)
    requires d < 10
    ensures DigitOf(c) == d
  {
    ('0' as int + d) as char
  }

  /** `String(n)` for a natural number: its decimal digits, most significant
      first, without leading zeros. */
  function Digits(n: nat): (r: string)
    ensures |r| >= 1
    ensures forall i :: 0 <= i < |r| ==> IsDigitIn(r[i], 10)
    ensures r[0] == '0' <==> n == 0
    decreases n
  {
    if n < 10 then [DigitChar(n)] else Digits(n / 10) + [DigitChar(n % 10)]
  }

  /** `String(n)` for an integer, in the digit form JavaScript uses below
      10^21 (from there on it prints exponent form, which is not modelled). */
  function DecimalText(n: int): string {
    if n < 0 then "-" + Digits(-n) else Digits(n)
  }

  /** `(c / 100).toFixed(2)` for an amount of `c` cents. Zero prints without a
      sign, as `(-0).toFixed(2)` does. This is JavaScript's output below
      10^21; from there on it prints exponent form, which is not modelled. */
  function ToFixed2(cents: int): string {
    var a := if cents < 0 then -cents else cents;
    (if cents < 0 then "-" else "")
    + Digits(a / 100) + "." + [DigitChar(a % 100 / 10), DigitChar(a % 100 % 10)]
  }

  /** The StrWhiteSpaceChar set of ECMA-262: white space and line terminators. */
  predicate IsJsWhitespace(c: char) {
    || '\t' <= c <= '\r'                 // tab, line feed, vertical tab, form feed, carriage return
    || c == ' ' || c == '\U{A0}' || c == '\U{1680}'
    || '\U{2000}' <= c <= '\U{200A}'
    || c == '\U{2028}' || c == '\U{2029}' || c == '\U{202F}' || c == '\U{205F}'
    || c == '\U{3000}' || c == '\U{FEFF}'
  }

  function TrimStart(s: string): string {
    if s != [] && IsJsWhitespace(s[0]) then TrimStart(s[1..]) else s
  }

  /** Length of the longest prefix of `s` made of radix digits. */
  function LeadingDigits(s: string, radix: nat): (n: nat)
    ensures n <= |s|
    ensures forall i :: 0 <= i < n ==> IsDigitIn(s[i], radix)
    ensures n < |s| ==> !IsDigitIn(s[n], radix)
  {
    if s == [] || !IsDigitIn(s[0], radix) then 0 else 1 + LeadingDigits(s[1..], radix)
  }

  /** The number a string of radix digits denotes (most significant digit
      first); only ever applied to runs that LeadingDigits accepted. */
  function ValueOf(z: string, radix: nat): int {
    if z == [] then 0 else ValueOf(z[..|z| - 1], radix) * radix + DigitOf(z[|z| - 1])
  }

  /** `parseInt(s)` with no radix argument; `None` stands for NaN. Leading
      white space is skipped, one sign is accepted, a `0x`/`0X` prefix
      switches to radix 16, and parsing stops at the first non-digit. */
  function ParseInt(s: string): Option<int> {
    ParseSigned(TrimStart(s))
  }

  function ParseSigned(t: string): Option<int> {
    if t != [] && t[0] == '-' then
      match ParseUnsigned(t[1..])
      case Some(n) => Some(-n)
      case None => None
    else if t != [] && t[0] == '+' then ParseUnsigned(t[1..])
    else ParseUnsigned(t)
  }

  function ParseUnsigned(u: string): Option<int> {
    if |u| >= 2 && u[0] == '0' && (u[1] == 'x' || u[1] == 'X') then ParseRun(u[2..], 16)
    else ParseRun(u, 10)
  }

  /** The value of the longest leading run of radix digits, NaN if it is empty. */
  function ParseRun(v: string, radix: nat): Option<int> {
    var z := v[..LeadingDigits(v, radix)];
    if z == [] then None else Some(ValueOf(z, radix))
  }

  /** A number as `URLSearchParams` writes it: NaN prints as "NaN". */
  function NumberText(n: Option<int>): string {
    match n
    case Some(k) => DecimalText(k)
    case None => "NaN"
  }

  // ---------------------------------------------------------------------
  // Round trips between the printers and parseInt.
  // ---------------------------------------------------------------------

  lemma {:induction false} DigitsValue(n: nat)
    ensures ValueOf(Digits(n), 10) == n
    decreases n
  {
    if n >= 10 {
      var d := Digits(n);
      assert d[..|d| - 1] == Digits(n / 10);
      DigitsValue(n / 10);
    }
  }

  lemma DecimalDigitIsPlain(c: char)
    requires IsDigitIn(c, 10)
    ensures '0' <= c <= '9'
  {
  }

  lemma TrimStartNoop(s: string)
    requires s != [] && (s[0] == '-' || '0' <= s[0] <= '9')
    ensures TrimStart(s) == s
  {
  }

  /** An unsigned run of decimal digits parses to its value. */
  lemma ParseUnsignedDigits(z: string)
    requires z != []
    requires forall i :: 0 <= i < |z| ==> IsDigitIn(z[i], 10)
    ensures ParseUnsigned(z) == Some(ValueOf(z, 10))
  {
    assert LeadingDigits(z, 10) == |z|;
    assert z[..|z|] == z;
    if |z| >= 2 {
      DecimalDigitIsPlain(z[1]);
    }
  }

  /** A minus sign in front of a digit run negates what the run parses to. */
  lemma ParseSignedRun(sign: string, z: string, v: int)
    requires sign == "" || sign == "-"
    requires z != [] && '0' <= z[0] <= '9'
    requires ParseUnsigned(z) == Some(v)
    ensures ParseInt(sign + z) == Some(if sign == "" then v else -v)
  {
    var s := sign + z;
    if sign == "-" {
      assert s[0] == '-' && s[1..] == z;
      TrimStartNoop(s);
      assert ParseSigned(s) == Some(-v);
    } else {
      assert s == z;
      TrimStartNoop(s);
      assert s[0] != '-' && s[0] != '+';
      assert ParseSigned(s) == ParseUnsigned(z);
    }
  }

  lemma ParseDigitsOf(m: nat)
    ensures '0' <= Digits(m)[0] <= '9'
    ensures ParseUnsigned(Digits(m)) == Some(m)
  {
    var z := Digits(m);
    DigitsValue(m);
    DecimalDigitIsPlain(z[0]);
    ParseUnsignedDigits(z);
  }

  /** parseInt reads back what String(n) prints. */
  lemma ParseIntDecimalText(n: int)
    ensures ParseInt(DecimalText(n)) == Some(n)
  {
    var m := if n < 0 then -n else n;
    ParseDigitsOf(m);
    if n < 0 {
      ParseSignedRun("-", Digits(m), m);
    } else {
      ParseSignedRun("", Digits(m), m);
      assert "" + Digits(m) == Digits(m);
    }
  }

  lemma ValueOfSnoc(z: string, c: char, radix: nat)
    ensures ValueOf(z + [c], radix) == ValueOf(z, radix) * radix + DigitOf(c)
  {
    assert (z + [c])[..|z|] == z;
  }

  /** The digits of the whole part followed by the two cent digits denote
      the cent count. */
  lemma CentDigits(a: nat)
    ensures var z := Digits(a / 100) + [DigitChar(a % 100 / 10), DigitChar(a % 100 % 10)];
      && (forall i :: 0 <= i < |z| ==> IsDigitIn(z[i], 10))
      && ValueOf(z, 10) == a
  {
    var d := Digits(a / 100);
    var c1 := DigitChar(a % 100 / 10);
    var c2 := DigitChar(a % 100 % 10);
    var z := d + [c1, c2];
    assert z == (d + [c1]) + [c2];
    DigitsValue(a / 100);
    ValueOfSnoc(d, c1, 10);
    ValueOfSnoc(d + [c1], c2, 10);
    assert ValueOf(z, 10) == (a / 100 * 10 + a % 100 / 10) * 10 + a % 100 % 10;
    forall i | 0 <= i < |z| ensures IsDigitIn(z[i], 10) {
      if i < |d| { assert z[i] == d[i]; }
    }
  }

  /** toFixed(2) of a cent amount is a minus sign exactly for a negative
      amount, then a whole part with no leading zero (other than a lone
      "0"), a point and exactly two digits; removing the point leaves the
      cent count itself. */
  lemma ToFixed2Digits(cents: int)
    ensures var r := ToFixed2(cents);
      var lead := if cents < 0 then 1 else 0;
      && |r| >= lead + 4 && r[|r| - 3] == '.'
      && (r[0] == '-' <==> cents < 0)
      && (forall i :: lead <= i < |r| && i != |r| - 3 ==> '0' <= r[i] <= '9')
      && (r[lead] == '0' ==> |r| == lead + 4)
      && ParseInt(r[..|r| - 3] + r[|r| - 2..]) == Some(cents)
  {
    var a := if cents < 0 then -cents else cents;
    var sign := if cents < 0 then "-" else "";
    var lead := |sign|;
    var d := Digits(a / 100);
    var tail := [DigitChar(a % 100 / 10), DigitChar(a % 100 % 10)];
    var p := sign + d;
    var r := ToFixed2(cents);
    assert r == p + "." + tail;
    assert r[..|r| - 3] == p;
    assert r[|r| - 2..] == tail;
    forall i | lead <= i < |r| && i != |r| - 3
      ensures '0' <= r[i] <= '9'
    {
      if i < |r| - 3 {
        assert r[i] == d[i - lead];
        DecimalDigitIsPlain(d[i - lead]);
      } else {
        assert r[i] == tail[i - |r| + 2];
        DecimalDigitIsPlain(tail[i - |r| + 2]);
      }
    }
    assert r[lead] == d[0];
    if cents >= 0 {
      DecimalDigitIsPlain(d[0]);
    }
    var z := d + tail;
    assert p + tail == sign + z;
    CentDigits(a);
    DecimalDigitIsPlain(z[0]);
    ParseUnsignedDigits(z);
    ParseSignedRun(sign, z, a);
  }
}
