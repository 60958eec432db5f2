/**
 * The pieces of JavaScript's built-in semantics that the plugin's code relies on:
 * truthiness of strings, `a || b`, `startsWith`/`slice`,
 * `[a, b].filter(Boolean).join(' ')`, and the `Number(string)` conversion.
 */
module Js {
  import opened Wrappers

  /** Truthiness of a string that may be absent: only a present, non-empty string is truthy. */
  predicate Truthy(s: Option<string>) {
    s.Some? && s.value != ""
  }

  /** `a || b` for a possibly absent string `a` and a string `b`. */
  function Or(a: Option<string>, b: string): string {
    if Truthy(a) then a.value else b
  }

  /** `a || b` where both sides may be absent. */
  function OrElse(a: Option<string>, b: Option<string>): Option<string> {
    if Truthy(a) then a else b
  }

  /** `s.startsWith(p)` */
  predicate StartsWith(s: string, p: string) {
    |p| <= |s| && s[..|p|] == p
  }

  /** `s.slice(n)` for a non-negative `n`: an index past the end is clamped to the end. */
  function Slice(s: string, n: nat): string {
    if n <= |s| then s[n..] else ""
  }

  /** `parts.join(sep)` */
  function Join(parts: seq<string>, sep: string): string
    decreases |parts|
  {
    if parts == [] then ""
    else if |parts| == 1 then parts[0]
    else parts[0] + sep + Join(parts[1..], sep)
  }

  /**
   * `[a, b].filter(Boolean).join(' ') || null`: the truthy names joined by
   * exactly one space, or `null` when neither is truthy.
   */
  function JoinNames(a: Option<string>, b: Option<string>): (r: Option<string>)
    ensures Truthy(a) && Truthy(b) ==> r == Some(a.value + " " + b.value)
    ensures Truthy(a) && !Truthy(b) ==> r == Some(a.value)
    ensures !Truthy(a) && Truthy(b) ==> r == Some(b.value)
    ensures r == None <==> !Truthy(a) && !Truthy(b)
    ensures r.Some? ==> r.value != ""
  {
    var parts := (if Truthy(a) then [a.value] else []) + (if Truthy(b) then [b.value] else []);
    var joined := Join(parts, " ");
    assert |parts| == 2 ==> joined == parts[0] + " " + Join(parts[1..], " ");
    if joined == "" then None else Some(joined)
  }

  // ---------- Number(string) ----------

  /** An IEEE double as far as this model needs it: a finite value, an infinity, or NaN. */
  datatype Number = Finite(value: real) | Infinite(positive: bool) | NaN

  /** `a === b` on numbers: NaN equals nothing, not even itself. */
  predicate StrictEquals(a: Number, b: Number) {
    match (a, b)
    case (Finite(x), Finite(y)) => x == y
    case (Infinite(p), Infinite(q)) => p == q
    case _ => false
  }

  function Negate(n: Number): Number {
    match n
    case Finite(x) => Finite(-x)
    case Infinite(p) => Infinite(!p)
    case NaN => NaN
  }

  /** `Number(n)` for a number `n` that is a non-negative integer. */
  function FromNat(n: nat): Number {
    Finite(n as real)
  }

  /** The white space and line terminators that `Number(s)` strips from both ends. */
  predicate IsWhiteSpace(c: char) {
    c in {' ', '\t', '\n', '\r', '\U{000B}', '\U{000C}', '\U{00A0}', '\U{FEFF}', '\U{2028}', '\U{2029}'}
  }

  function TrimStart(s: string): string
    decreases |s|
  {
    if s != [] && IsWhiteSpace(s[0]) then TrimStart(s[1..]) else s
  }

  function TrimEnd(s: string): string
    decreases |s|
  {
    if s != [] && IsWhiteSpace(s[|s| - 1]) then TrimEnd(s[..|s| - 1]) else s
  }

  /** The value of `c` as a digit of any radix up to 36. */
  function DigitOf(c: char): Option<nat> {
    if '0' <= c <= '9' then Some(c as int - '0' as int)
    else if 'a' <= c <= 'z' then Some(c as int - 'a' as int + 10)
    else if 'A' <= c <= 'Z' then Some(c as int - 'A' as int + 10)
    else None
  }

  predicate IsDigitIn(c: char, radix: nat) {
    DigitOf(c).Some? && DigitOf(c).value < radix
  }

  predicate AllDigitsIn(s: string, radix: nat) {
    forall i :: 0 <= i < |s| ==> IsDigitIn(s[i], radix)
  }

  /** The value of a digit string, most significant digit first. */
  function DigitsValue(s: string, radix: nat): nat
    requires AllDigitsIn(s, radix)
    decreases |s|
  {
    if s == [] then 0
    else DigitsValue(s[..|s| - 1], radix) * radix + DigitOf(s[|s| - 1]).value
  }

  function Pow10(k: nat): nat
    ensures Pow10(k) > 0
  {
    if k == 0 then 1 else 10 * Pow10(k - 1)
  }

  /** `10^k` for an integer exponent. */
  function Scale(k: int): real {
    if k >= 0 then Pow10(k) as real else 1.0 / (Pow10(-k) as real)
  }

  /** The index of the first character of `s` in `cs`, or `|s|` if there is none. */
  function IndexOfAny(s: string, cs: set<char>): (k: nat)
    ensures k <= |s|
    ensures k < |s| ==> s[k] in cs
    ensures forall j :: 0 <= j < k ==> s[j] !in cs
    decreases |s|
  {
    if s == [] then 0
    else if s[0] in cs then 0
    else 1 + IndexOfAny(s[1..], cs)
  }

  /** `0x…`, `0o…` or `0b…`: at least one digit of the radix, nothing else. */
  function RadixInteger(digits: string, radix: nat): Number {
    if digits != [] && AllDigitsIn(digits, radix) then Finite(DigitsValue(digits, radix) as real)
    else NaN
  }

  /** A decimal mantissa: `ddd`, `ddd.`, `.ddd` or `ddd.ddd`, with at least one digit. */
  function Mantissa(m: string): Option<real> {
    var dot := IndexOfAny(m, {'.'});
    if dot == |m| then
      if m != [] && AllDigitsIn(m, 10) then Some(DigitsValue(m, 10) as real) else None
    else
      var whole := m[..dot];
      var fraction := m[dot + 1..];
      if (whole != [] || fraction != []) && AllDigitsIn(whole, 10) && AllDigitsIn(fraction, 10) then
        Some(DigitsValue(whole, 10) as real + DigitsValue(fraction, 10) as real / Pow10(|fraction|) as real)
      else None
  }

  /** The exponent after `e`/`E`: decimal digits with an optional sign. */
  function Exponent(x: string): Option<int> {
    if x != [] && (x[0] == '+' || x[0] == '-') then
      var rest := x[1..];
      if rest != [] && AllDigitsIn(rest, 10) then
        var v: int := DigitsValue(rest, 10);
        Some(if x[0] == '-' then -v else v)
      else None
    else if x != [] && AllDigitsIn(x, 10) then Some(DigitsValue(x, 10))
    else None
  }

  /** An unsigned decimal literal: `Infinity`, or a mantissa with an optional exponent. */
  function UnsignedDecimal(t: string): Number {
    if t == "Infinity" then Infinite(true)
    else
      var e := IndexOfAny(t, {'e', 'E'});
      var m := Mantissa(t[..e]);
      var x := if e == |t| then Some(0) else Exponent(t[e + 1..]);
      if m.Some? && x.Some? then Finite(m.value * Scale(x.value)) else NaN
  }

  /**
   * `Number(s)` for a string `s`: surrounding white space is ignored, the empty
   * string is 0, `0x`/`0o`/`0b` prefixes select a radix (no sign allowed), and
   * otherwise a signed decimal literal is read. Anything else is NaN.
   */
  function ToNumber(s: string): Number {
    var t := TrimEnd(TrimStart(s));
    if t == [] then Finite(0.0)
    else if |t| >= 2 && t[0] == '0' && (t[1] == 'x' || t[1] == 'X') then RadixInteger(t[2..], 16)
    else if |t| >= 2 && t[0] == '0' && (t[1] == 'o' || t[1] == 'O') then RadixInteger(t[2..], 8)
    else if |t| >= 2 && t[0] == '0' && (t[1] == 'b' || t[1] == 'B') then RadixInteger(t[2..], 2)
    else if t[0] == '+' then UnsignedDecimal(t[1..])
    else if t[0] == '-' then Negate(UnsignedDecimal(t[1..]))
    else UnsignedDecimal(t)
  }

  // ---------- decimal rendering, the partner of Number(string) ----------

  function DigitChar(d: nat): char
    requires d < 10
  {
    ('0' as int + d) as char
  }

  /** `String(n)` for a non-negative integer: its shortest decimal rendering. */
  function DecimalString(n: nat): (s: string)
    ensures s != []
    ensures AllDigitsIn(s, 10)
  {
    if n < 10 then [DigitChar(n)] else DecimalString(n / 10) + [DigitChar(n % 10)]
  }

  lemma {:induction false} DecimalStringValue(n: nat)
    ensures DigitsValue(DecimalString(n), 10) == n
    decreases n
  {
    var s := DecimalString(n);
    if n >= 10 {
      DecimalStringValue(n / 10);
      assert s[..|s| - 1] == DecimalString(n / 10);
    }
  }

  /** A string of decimal digits has nothing for `trim` to strip. */
  lemma DigitsAreTrimmed(s: string)
    requires s != [] && AllDigitsIn(s, 10)
    ensures TrimEnd(TrimStart(s)) == s
  {
    assert IsDigitIn(s[0], 10) && IsDigitIn(s[|s| - 1], 10);
  }

  /** A plain run of decimal digits, read as an unsigned decimal literal, is its value. */
  lemma UnsignedDecimalOfDigits(t: string)
    requires t != [] && AllDigitsIn(t, 10)
    ensures UnsignedDecimal(t) == Finite(DigitsValue(t, 10) as real)
  {
    assert t != "Infinity" by { assert IsDigitIn(t[0], 10); }
    forall j | 0 <= j < |t|
      ensures t[j] != 'e' && t[j] != 'E' && t[j] != '.'
    {
      assert IsDigitIn(t[j], 10);
    }
    var e := IndexOfAny(t, {'e', 'E'});
    assert e == |t| && t[..e] == t;
    MantissaOfDigits(t);
    assert Scale(0) == 1.0;
  }

  lemma MantissaOfDigits(m: string)
    requires m != [] && AllDigitsIn(m, 10)
    ensures Mantissa(m) == Some(DigitsValue(m, 10) as real)
  {
    forall j | 0 <= j < |m|
      ensures m[j] != '.'
    {
      assert IsDigitIn(m[j], 10);
    }
    assert IndexOfAny(m, {'.'}) == |m|;
  }

  /** A string that trims to a plain run of decimal digits reads as their value. */
  lemma ToNumberOfDigits(s: string, t: string)
    requires TrimEnd(TrimStart(s)) == t && t != [] && AllDigitsIn(t, 10)
    ensures ToNumber(s) == Finite(DigitsValue(t, 10) as real)
  {
    assert IsDigitIn(t[0], 10);
    if |t| >= 2 {
      assert IsDigitIn(t[1], 10);
    }
    assert ToNumber(s) == UnsignedDecimal(t);
    UnsignedDecimalOfDigits(t);
  }

  /**
   * Reading back the decimal rendering of `n` gives `n`: `Number(String(n)) === n`.
   */
  lemma {:induction false} ToNumberDecimalString(n: nat)
    ensures ToNumber(DecimalString(n)) == FromNat(n)
  {
    var s := DecimalString(n);
    DigitsAreTrimmed(s);
    DecimalStringValue(n);
    ToNumberOfDigits(s, s);
  }

  /** Distinct naturals never compare equal after the round trip through their decimal rendering. */
  lemma ToNumberDecimalStringInjective(m: nat, n: nat)
    ensures StrictEquals(ToNumber(DecimalString(m)), FromNat(n)) <==> m == n
  {
    ToNumberDecimalString(m);
  }
}
