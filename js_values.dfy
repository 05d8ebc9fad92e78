/**
  JavaScript values as the route handlers and projectors see them, with the
  few coercions the code relies on: truthiness, `Number(x)`, `parseInt(x, 10)`,
  the query language's `toInteger` and `toLower`, and `String(n)` for a count.
  Only a decimal subset of the numeric grammars is modelled (see README).
*/
module JsValues {

  datatype Option<T> = None | Some(value: T)

  /** JSON-like values; `NaN` is kept apart from the numbers, which are reals. */
  datatype Value =
    | Undefined
    | Null
    | Bool(b: bool)
    | Num(n: real)
    | NaN
    | Str(s: string)
    | Arr(elems: seq<Value>)
    | Obj(fields: map<string, Value>)

  /** A property bag: the properties of a graph node, or a plain JS object. */
  type Props = map<string, Value>

  /** A call that either returns a value or throws a JS value. */
  datatype Result<T> = Ok(value: T) | Thrown(error: Value)

  /** Reading a property; a missing key reads as `undefined`. */
  function Get(p: Props, k: string): Value {
    if k in p then p[k] else Undefined
  }

  /** `null` or `undefined`: reading a property of either throws a TypeError. */
  predicate Nullish(v: Value) {
    v == Undefined || v == Null
  }

  /** JavaScript truthiness. */
  predicate Truthy(v: Value) {
    match v
    case Undefined => false
    case Null => false
    case Bool(b) => b
    case Num(n) => n != 0.0
    case NaN => false
    case Str(s) => s != ""
    case Arr(_) => true
    case Obj(_) => true
  }

  /** The six falsy values of JavaScript, and nothing else, are not truthy. */
  lemma FalsyValues(v: Value)
    ensures !Truthy(v) <==>
      v == Undefined || v == Null || v == Bool(false) || v == Num(0.0) || v == NaN || v == Str("")
  {
  }

  /** `{message, status}`-style thrown objects: one text field under `key` plus `status`. */
  function ErrorObject(key: string, text: string, status: nat): (e: Value)
    ensures e.Obj? && e.fields.Keys == {key, "status"}
    ensures key != "status" ==> Get(e.fields, key) == Str(text)
    ensures Get(e.fields, "status") == Num(status as real)
  {
    Obj(map[key := Str(text), "status" := Num(status as real)])
  }

  // ---------------------------------------------------------------- digits

  predicate IsDigit(c: char) {
    '0' <= c <= '9'
  }

  predicate AllDigits(s: string) {
    forall i :: 0 <= i < |s| ==> IsDigit(s[i])
  }

  function DigitValue(c: char): nat
    requires IsDigit(c)
  {
    c as int - '0' as int
  }

  function DigitChar(d: nat): (c: char)
    requires d < 10
    ensures IsDigit(c) && DigitValue(c) == d
  {
    ('0' as int + d) as char
  }

  /** The value of a string of decimal digits, most significant first. */
  function DigitsValue(ds: string): nat
    requires AllDigits(ds)
  {
    if ds == [] then 0 else DigitsValue(ds[..|ds| - 1]) * 10 + DigitValue(ds[|ds| - 1])
  }

  function Pow10(k: nat): (p: nat)
    ensures p >= 1
  {
    if k == 0 then 1 else 10 * Pow10(k - 1)
  }

  /** `String(n)` for a natural number: its shortest decimal form. */
  function NatToString(n: nat): (s: string)
    ensures |s| >= 1 && AllDigits(s)
    ensures s[0] == '0' ==> n == 0
  {
    if n < 10 then [DigitChar(n)] else NatToString(n / 10) + [DigitChar(n % 10)]
  }

  /** Reading back the decimal form of `n` gives `n`. */
  lemma {:induction false} NatToStringValue(n: nat)
    ensures DigitsValue(NatToString(n)) == n
  {
    var s := NatToString(n);
    if n >= 10 {
      NatToStringValue(n / 10);
      assert s[..|s| - 1] == NatToString(n / 10);
    } else {
      assert s[..|s| - 1] == [];
    }
  }

  // ---------------------------------------------------------------- whitespace

  /**
    The white space and line terminators that `Number` and `parseInt` skip:
    tab, line feed, vertical tab, form feed, carriage return, space, U+00A0,
    U+1680, U+2000 to U+200A, U+2028, U+2029, U+202F, U+205F, U+3000 and U+FEFF.
  */
  predicate IsSpace(c: char) {
    var n := c as int;
    (0x09 <= n <= 0x0D) || n == 0x20 || n == 0xA0 || n == 0x1680 || (0x2000 <= n <= 0x200A) ||
    n == 0x2028 || n == 0x2029 || n == 0x202F || n == 0x205F || n == 0x3000 || n == 0xFEFF
  }

  function TrimStart(s: string): (r: string)
    ensures |r| <= |s| && r == s[|s| - |r|..]
    ensures r != [] ==> !IsSpace(r[0])
  {
    if s != [] && IsSpace(s[0]) then TrimStart(s[1..]) else s
  }

  /** Nothing is trimmed from a string that starts with a non-blank. */
  lemma TrimStartOfNonSpace(s: string)
    requires s != [] && !IsSpace(s[0])
    ensures TrimStart(s) == s
  {
  }

  function TrimEnd(s: string): (r: string)
    ensures |r| <= |s| && r == s[..|r|]
    ensures r != [] ==> !IsSpace(r[|r| - 1])
  {
    if s != [] && IsSpace(s[|s| - 1]) then TrimEnd(s[..|s| - 1]) else s
  }

  function Trim(s: string): string {
    TrimEnd(TrimStart(s))
  }

  // ---------------------------------------------------------------- parsing

  /** The longest prefix of `s` made of decimal digits. */
  function LeadingDigits(s: string): (r: string)
    ensures |r| <= |s| && r == s[..|r|] && AllDigits(r)
    ensures |r| < |s| ==> !IsDigit(s[|r|])
  {
    if s != [] && IsDigit(s[0]) then [s[0]] + LeadingDigits(s[1..]) else []
  }

  /** A string of digits followed by anything that does not start with a digit. */
  lemma {:induction false} LeadingDigitsOfDigits(ds: string, rest: string)
    requires AllDigits(ds)
    requires rest != [] ==> !IsDigit(rest[0])
    ensures LeadingDigits(ds + rest) == ds
  {
    if ds != [] {
      assert (ds + rest)[1..] == ds[1..] + rest;
      LeadingDigitsOfDigits(ds[1..], rest);
    }
  }

  /** Truncation toward zero, as `parseInt` and `toInteger` apply to a number. */
  function Trunc(x: real): (t: int)
    ensures x >= 0.0 ==> 0 <= t && t as real <= x < t as real + 1.0
    ensures x < 0.0 ==> t <= 0 && t as real - 1.0 < x <= t as real
  {
    if x >= 0.0 then x.Floor else -((-x).Floor)
  }

  /** On the non-negative ratings the handlers forward, truncation is the floor. */
  lemma TruncOfNonNegativeIsFloor(x: real)
    requires x >= 0.0
    ensures Trunc(x) == x.Floor
  {
  }

  /** Applies a sign read from a leading `+` or `-`. */
  function Signed(negative: bool, x: int): int {
    if negative then -x else x
  }

  /**
    `parseInt(s, 10)` on a string: skip leading white space, read an optional
    sign and the longest run of digits after it; no digit at all gives NaN
    (here None).
  */
  function ParseIntString(s: string): (r: Option<int>)
    ensures r.None? <==> LeadingDigits(SignStripped(TrimStart(s))) == []
  {
    var t := TrimStart(s);
    var ds := LeadingDigits(SignStripped(t));
    if ds == [] then None
    else Some(Signed(t != [] && t[0] == '-', DigitsValue(ds)))
  }

  /** Drops one leading `+` or `-`. */
  function SignStripped(t: string): (r: string)
    ensures |r| <= |t|
  {
    if t != [] && (t[0] == '+' || t[0] == '-') then t[1..] else t
  }

  /** A run of digits followed by a non-digit parses to the run's value. */
  lemma ParseIntStringOfDigits(ds: string, rest: string)
    requires ds != [] && AllDigits(ds)
    requires rest != [] ==> !IsDigit(rest[0])
    ensures ParseIntString(ds + rest) == Some(DigitsValue(ds))
  {
    var s := ds + rest;
    assert IsDigit(ds[0]) && s[0] == ds[0];
    TrimStartOfNonSpace(s);
    assert SignStripped(s) == s;
    LeadingDigitsOfDigits(ds, rest);
  }

  /** The decimal form of a natural number reads back through `parseInt`,
      whatever follows it, provided that does not start with a digit. */
  lemma ParseIntOfNatToString(n: nat, rest: string)
    requires rest != [] ==> !IsDigit(rest[0])
    ensures ParseIntString(NatToString(n) + rest) == Some(n)
  {
    ParseIntStringOfDigits(NatToString(n), rest);
    NatToStringValue(n);
  }

  /**
    `parseInt(v, 10)` on any value. A number is truncated (its decimal form is
    taken to carry no exponent) and a string is parsed. An array is read
    through its string form, its elements joined by commas: the comma ends
    the numeral, so only the first element counts (`ParseIntStopsAtComma`),
    and an empty array gives "", hence NaN. `undefined`, `null`, booleans,
    NaN and objects stringify to words without a digit and give NaN.
  */
  function ParseInt(v: Value): (r: Option<int>)
    ensures v.Num? ==> r == Some(Trunc(v.n))
    ensures v.Str? ==> r == ParseIntString(v.s)
    ensures v.Arr? ==> r == if v.elems == [] then None else ParseInt(v.elems[0])
    ensures !(v.Num? || v.Str? || v.Arr?) ==> r.None?
  {
    match v
    case Num(x) => Some(Trunc(x))
    case Str(s) => ParseIntString(s)
    case Arr(es) => if es == [] then None else ParseInt(es[0])
    case _ => None
  }

  /** Skipping leading blanks stops at a non-blank, whatever follows it. */
  lemma {:induction false} TrimStartAppend(a: string, x: string)
    requires x != [] && !IsSpace(x[0])
    ensures TrimStart(a + x) == TrimStart(a) + x
  {
    if a != [] {
      assert (a + x)[0] == a[0] && (a + x)[1..] == a[1..] + x;
      if IsSpace(a[0]) {
        TrimStartAppend(a[1..], x);
      }
    }
  }

  /** The run of digits stops at a non-digit, whatever follows it. */
  lemma {:induction false} LeadingDigitsAppend(u: string, x: string)
    requires x != [] && !IsDigit(x[0])
    ensures LeadingDigits(u + x) == LeadingDigits(u)
  {
    if u != [] {
      assert (u + x)[0] == u[0] && (u + x)[1..] == u[1..] + x;
      if IsDigit(u[0]) {
        LeadingDigitsAppend(u[1..], x);
      }
    }
  }

  /** A sign is only dropped from the front, whatever follows. */
  lemma SignStrippedAppend(t: string, x: string)
    requires x != [] && x[0] != '+' && x[0] != '-'
    ensures SignStripped(t + x) == SignStripped(t) + x
  {
    if t != [] {
      assert (t + x)[0] == t[0] && (t + x)[1..] == t[1..] + x;
    }
  }

  /** `parseInt(a + "," + b)` is `parseInt(a)`: the array case of `ParseInt` reads its first element only. */
  lemma ParseIntStopsAtComma(a: string, b: string)
    ensures ParseIntString(a + [','] + b) == ParseIntString(a)
  {
    var x := [','] + b;
    var s := a + x;
    assert a + [','] + b == s;
    TrimStartAppend(a, x);
    var t := TrimStart(a);
    assert TrimStart(s) == t + x;
    SignStrippedAppend(t, x);
    LeadingDigitsAppend(SignStripped(t), x);
    var ds := LeadingDigits(SignStripped(t));
    assert LeadingDigits(SignStripped(TrimStart(s))) == ds;
    if ds != [] {
      assert t != [];
      assert (t + x)[0] == t[0];
    }
  }

  /** The fraction `.ds` as a real. */
  function Fraction(ds: string): real
    requires AllDigits(ds)
  {
    DigitsValue(ds) as real / Pow10(|ds|) as real
  }

  /**
    A decimal literal: an optional sign, then digits, a point and digits,
    with digits on at least one side of the point ("5", "5.", ".5", "-2.25").
  */
  function ParseDecimal(s: string): (r: Option<real>)
    ensures r.Some? ==> exists i :: 0 <= i < |s| && IsDigit(s[i])
    ensures s != [] && AllDigits(s) ==> r == Some(DigitsValue(s) as real)
  {
    var neg := s != [] && s[0] == '-';
    var body := SignStripped(s);
    var ip := LeadingDigits(body);
    var rest := body[|ip|..];
    var whole := DigitsValue(ip) as real;
    if s != [] && AllDigits(s) then
      LeadingDigitsOfDigits(s, []);
      assert s + [] == s && body == s;
      Some(whole)
    else if rest == [] then
      if ip == [] then None
      else
        assert body[0] in body;
        Some(if neg then -whole else whole)
    else if rest[0] == '.' && AllDigits(rest[1..]) && (ip != [] || |rest| >= 2) then
      assert ip != [] ==> body[0] in body;
      assert ip == [] ==> body[1] in body;
      var frac := Fraction(rest[1..]);
      Some(if neg then -(whole + frac) else whole + frac)
    else None
  }

  /**
    `Number(v)`: numbers stay, booleans and null become 1/0/0, a blank string
    is 0, a decimal literal (after trimming white space) is its value. An
    array is converted through its string form: the empty array is "", hence
    0, an array of two or more elements has a comma, hence NaN, and a
    one-element array converts as its element would, with `null` and
    `undefined` written as "" and a boolean or an object as a word. Every
    other value is NaN.
  */
  function ToNumber(v: Value): (r: Value)
    ensures r.Num? || r.NaN?
    ensures v.Num? ==> r == v
    ensures v.Arr? && |v.elems| == 1 && (v.elems[0].Num? || v.elems[0].Str?) ==> r == ToNumber(v.elems[0])
    ensures v.Arr? && |v.elems| >= 2 ==> r == NaN
  {
    match v
    case Undefined => NaN
    case Null => Num(0.0)
    case Bool(b) => Num(if b then 1.0 else 0.0)
    case Num(x) => v
    case NaN => NaN
    case Str(s) =>
      var t := Trim(s);
      if t == [] then Num(0.0)
      else (match ParseDecimal(t) case Some(x) => Num(x) case None => NaN)
    case Arr(es) =>
      if es == [] then Num(0.0)
      else if |es| >= 2 then NaN
      else if Nullish(es[0]) then Num(0.0)
      else if es[0].Bool? || es[0].Obj? then NaN
      else ToNumber(es[0])
    case Obj(_) => NaN
  }

  /** Converting twice is converting once. */
  lemma ToNumberIdempotent(v: Value)
    ensures ToNumber(ToNumber(v)) == ToNumber(v)
  {
  }

  /** The query language's `toInteger`: strings are parsed as decimals and truncated. */
  function ToInteger(v: Value): (r: Option<int>)
    ensures v.Num? ==> r == Some(Trunc(v.n))
    ensures v.Str? && v.s != [] && AllDigits(v.s) ==> r == Some(DigitsValue(v.s))
    ensures v.Str? && r.Some? ==> exists i :: 0 <= i < |v.s| && IsDigit(v.s[i])
    ensures v.Str? ==> (r.Some? <==> ParseDecimal(v.s).Some?)
    ensures v.Str? && r.Some? ==> r.value == Trunc(ParseDecimal(v.s).value)
    ensures !(v.Num? || v.Str?) ==> r.None?
  {
    match v
    case Num(x) => Some(Trunc(x))
    case Str(s) => (match ParseDecimal(s) case Some(x) => Some(Trunc(x)) case None => None)
    case _ => None
  }

  /** ASCII lower case; other characters are left alone. */
  function LowerChar(c: char): char {
    if 'A' <= c <= 'Z' then (c as int - 'A' as int + 'a' as int) as char else c
  }

  function ToLower(s: string): (r: string)
    ensures |r| == |s|
  {
    if s == [] then [] else [LowerChar(s[0])] + ToLower(s[1..])
  }

  /** Two strings that differ only in the case of ASCII letters lower-case alike. */
  lemma {:induction false} ToLowerIgnoresCase(s: string, t: string)
    requires |s| == |t|
    requires forall i :: 0 <= i < |s| ==> LowerChar(s[i]) == LowerChar(t[i])
    ensures ToLower(s) == ToLower(t)
  {
    if s != [] {
      ToLowerIgnoresCase(s[1..], t[1..]);
    }
  }
}
