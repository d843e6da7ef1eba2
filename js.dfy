/** The pieces of JavaScript's value semantics that the bot and the storefront depend on:
    dynamically typed values with their truthiness and `String(v)`, the decimal rendering of
    integers, `parseInt` without a radix, and `Array.prototype.find` / `findIndex`. */
module Js {
  import opened Wrappers
  import opened Strings

  /** A JavaScript value as it arrives in a JSON body or a query result.
      Numbers are integers; fractional numbers are not part of this model. */
  datatype Value = Undefined | Null | Bool(b: bool) | Number(n: int) | NaN | Str(s: string)

  /** `!!v`: the values an `if (v)` or `a || b` treats as true. */
  predicate Truthy(v: Value) {
    match v
    case Undefined => false
    case Null => false
    case Bool(b) => b
    case Number(n) => n != 0
    case NaN => false
    case Str(s) => s != ""
  }

  // ---------------------------------------------------------------- digits

  /** The value of `c` as a hexadecimal digit, or 16 when it is not one. */
  function DigitValue(c: char): (d: nat)
    ensures d <= 16
  {
    if '0' <= c <= '9' then (c as int) - ('0' as int)
    else if 'a' <= c <= 'f' then (c as int) - ('a' as int) + 10
    else if 'A' <= c <= 'F' then (c as int) - ('A' as int) + 10
    else 16
  }

  /** `c` is a digit of base `radix` (10 or 16). */
  predicate IsDigitIn(c: char, radix: nat) {
    DigitValue(c) < radix
  }

  /** An ASCII decimal digit: what a regular expression's `\d` matches. */
  predicate IsDecimalDigit(c: char) {
    '0' <= c <= '9'
  }

  predicate AllDigitsIn(s: string, radix: nat) {
    forall i :: 0 <= i < |s| ==> IsDigitIn(s[i], radix)
  }

  /** The number a string of base-`radix` digits denotes, most significant digit first. */
  function DigitsValue(ds: string, radix: nat): nat
    requires AllDigitsIn(ds, radix)
  {
    if |ds| == 0 then 0 else DigitsValue(ds[..|ds| - 1], radix) * radix + DigitValue(ds[|ds| - 1])
  }

  /** The longest prefix of `s` made of base-`radix` digits. */
  function TakeDigits(s: string, radix: nat): (z: string)
    ensures |z| <= |s| && z == s[..|z|]
    ensures AllDigitsIn(z, radix)
    ensures |z| < |s| ==> !IsDigitIn(s[|z|], radix)
  {
    if |s| == 0 || !IsDigitIn(s[0], radix) then ""
    else
      var z := TakeDigits(s[1..], radix);
      assert [s[0]] + z == s[..|z| + 1];
      [s[0]] + z
  }

  // ---------------------------------------------------------------- number to string

  function DigitChar(d: int): (c: char)
    requires 0 <= d < 10
    ensures IsDecimalDigit(c) && DigitValue(c) == d
  {
    "0123456789"[d]
  }

  /** The decimal digits of a natural number, without leading zeros. */
  function NatToDecimal(n: nat): (s: string)
    ensures |s| >= 1
    ensures forall i :: 0 <= i < |s| ==> IsDecimalDigit(s[i])
    ensures s[0] == '0' ==> n == 0
  {
    if n < 10 then [DigitChar(n)] else NatToDecimal(n / 10) + [DigitChar(n % 10)]
  }

  /** `String(n)` for an integer `n`. */
  function Decimal(n: int): string {
    if n < 0 then "-" + NatToDecimal(-n) else NatToDecimal(n)
  }

  /** `String(v)`, also what a template literal `${v}` produces. */
  function ToString(v: Value): string {
    match v
    case Undefined => "undefined"
    case Null => "null"
    case Bool(b) => if b then "true" else "false"
    case Number(n) => Decimal(n)
    case NaN => "NaN"
    case Str(s) => s
  }

  // ---------------------------------------------------------------- parseInt

  /** The characters `parseInt` skips at the start: white space and line terminators. */
  predicate IsJsWhiteSpace(c: char) {
    c == '\t' || c == '\n' || c == '\U{000B}' || c == '\U{000C}' || c == '\r' || c == ' '
    || c == '\U{00A0}' || c == '\U{1680}' || ('\U{2000}' <= c <= '\U{200A}')
    || c == '\U{2028}' || c == '\U{2029}' || c == '\U{202F}' || c == '\U{205F}'
    || c == '\U{3000}' || c == '\U{FEFF}'
  }

  /** `s` without its leading white space. */
  function TrimStart(s: string): (t: string)
    ensures |t| <= |s| && t == s[|s| - |t|..]
    ensures |t| > 0 ==> !IsJsWhiteSpace(t[0])
  {
    if |s| > 0 && IsJsWhiteSpace(s[0]) then TrimStart(s[1..]) else s
  }

  /** `parseInt(s)` without a radix: skip white space, take an optional sign, then read
      the magnitude. */
  function ParseInt(s: string): (r: Value)
    ensures r.Number? || r.NaN?
  {
    var t := TrimStart(s);
    var signed := |t| > 0 && (t[0] == '-' || t[0] == '+');
    var r := ParseMagnitude(if signed then t[1..] else t);
    if signed && t[0] == '-' && r.Number? then Number(-r.n) else r
  }

  /** The unsigned part of `parseInt`: a hexadecimal number after `0x`/`0X`, a decimal one
      otherwise, read up to the first character that is not a digit; NaN when no digit was read. */
  function ParseMagnitude(u: string): (r: Value)
    ensures r.NaN? || (r.Number? && r.n >= 0)
  {
    var hex := |u| >= 2 && u[0] == '0' && (u[1] == 'x' || u[1] == 'X');
    var radix := if hex then 16 else 10;
    var z := TakeDigits(if hex then u[2..] else u, radix);
    if |z| == 0 then NaN else Number(DigitsValue(z, radix))
  }

  lemma {:induction false} DigitsValueOfDecimal(n: nat)
    ensures AllDigitsIn(NatToDecimal(n), 10) && DigitsValue(NatToDecimal(n), 10) == n
  {
    var s := NatToDecimal(n);
    if n >= 10 {
      DigitsValueOfDecimal(n / 10);
      assert s[..|s| - 1] == NatToDecimal(n / 10);
    }
  }

  lemma {:induction false} TakeDigitsOfDigits(ds: string, rest: string, radix: nat)
    requires AllDigitsIn(ds, radix)
    requires rest == [] || !IsDigitIn(rest[0], radix)
    ensures TakeDigits(ds + rest, radix) == ds
    decreases |ds|
  {
    if |ds| > 0 {
      assert (ds + rest)[1..] == ds[1..] + rest;
      TakeDigitsOfDigits(ds[1..], rest, radix);
    }
  }

  lemma {:induction false} MagnitudeOfDecimal(m: nat, rest: string)
    requires rest == [] || (!IsDigitIn(rest[0], 10) && rest[0] != 'x' && rest[0] != 'X')
    ensures ParseMagnitude(NatToDecimal(m) + rest) == Number(m)
  {
    var ds := NatToDecimal(m);
    DigitsValueOfDecimal(m);
    TakeDigitsOfDigits(ds, rest, 10);
    var u := ds + rest;
    assert u[0] == '0' ==> ds == "0";
  }

  /** Reading back the decimal text of an integer gives that integer, whatever follows it,
      as long as the next character is neither a digit nor the `x` of a hex prefix. */
  lemma {:induction false} ParseIntOfDecimal(n: int, rest: string)
    requires rest == [] || (!IsDigitIn(rest[0], 10) && rest[0] != 'x' && rest[0] != 'X')
    ensures ParseInt(Decimal(n) + rest) == Number(n)
  {
    if n < 0 {
      ParseIntOfNegative(n, rest);
    } else {
      var u := NatToDecimal(n) + rest;
      MagnitudeOfDecimal(n, rest);
      assert Decimal(n) + rest == u;
      NoWhiteSpaceAhead(u);
    }
  }

  lemma {:induction false} ParseIntOfNegative(n: int, rest: string)
    requires n < 0
    requires rest == [] || (!IsDigitIn(rest[0], 10) && rest[0] != 'x' && rest[0] != 'X')
    ensures ParseInt(Decimal(n) + rest) == Number(n)
  {
    var m: nat := -n;
    var d := NatToDecimal(m);
    assert Decimal(n) == "-" + d;
    var t := Decimal(n) + rest;
    assert t == "-" + (d + rest);
    ParseIntOfMinusDecimal(t, m, rest);
  }

  lemma {:induction false} ParseIntOfMinusDecimal(t: string, m: nat, rest: string)
    requires t == "-" + (NatToDecimal(m) + rest)
    requires rest == [] || (!IsDigitIn(rest[0], 10) && rest[0] != 'x' && rest[0] != 'X')
    ensures ParseInt(t) == Number(-(m as int))
  {
    var u := NatToDecimal(m) + rest;
    MagnitudeOfDecimal(m, rest);
    assert u[0] == NatToDecimal(m)[0];
    ParseIntOfMinus(t, u);
  }

  lemma {:induction false} ParseIntOfMinus(t: string, u: string)
    requires t == "-" + u
    requires |u| > 0 && IsDecimalDigit(u[0])
    requires ParseMagnitude(u).Number?
    ensures ParseInt(t) == Number(-ParseMagnitude(u).n)
  {
    assert t[1..] == u;
    MinusNotTrimmed(u);
    ParseIntSigned(t);
  }

  lemma {:induction false} MinusNotTrimmed(u: string)
    requires |u| > 0 && IsDecimalDigit(u[0])
    ensures TrimStart("-" + u) == "-" + u
  {
  }

  lemma {:induction false} ParseIntSigned(t: string)
    requires |t| > 1 && t[0] == '-' && TrimStart(t) == t
    requires ParseMagnitude(t[1..]).Number?
    ensures ParseInt(t) == Number(-ParseMagnitude(t[1..]).n)
  {
  }

  lemma {:induction false} NoWhiteSpaceAhead(t: string)
    requires |t| > 0 && (t[0] == '-' || IsDecimalDigit(t[0]))
    ensures TrimStart(t) == t
  {
  }

  // ---------------------------------------------------------------- arrays

  /** `s.findIndex(f)`: the first index whose element satisfies `f`, or -1. */
  function FindIndex<T>(s: seq<T>, f: T -> bool): (r: int)
    ensures -1 <= r < |s|
    ensures r >= 0 ==> f(s[r]) && forall j :: 0 <= j < r ==> !f(s[j])
    ensures r == -1 <==> forall j :: 0 <= j < |s| ==> !f(s[j])
  {
    if |s| == 0 then -1
    else if f(s[0]) then 0
    else
      var k := FindIndex(s[1..], f);
      if k == -1 then -1 else k + 1
  }

  /** `s.find(f)`: the first element satisfying `f`, or undefined. */
  function Find<T>(s: seq<T>, f: T -> bool): (r: Option<T>)
    ensures r.None? <==> forall j :: 0 <= j < |s| ==> !f(s[j])
    ensures r.Some? ==> exists i :: 0 <= i < |s| && s[i] == r.value && f(s[i]) && forall j :: 0 <= j < i ==> !f(s[j])
  {
    var i := FindIndex(s, f);
    if i < 0 then None else Some(s[i])
  }
}
