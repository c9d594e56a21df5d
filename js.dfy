/**
 * The JavaScript values that flow through request bodies, database rows and
 * form state, with the conversions the code applies to them: truthiness,
 * `??`, `Number(...)`, `parseInt(..., 10)`, and the way node-postgres and
 * express-validator read a value.
 */
module Js {
  import opened Wrappers
  import opened Text

  /** A JSON-ish JavaScript value. Numbers are integers (fractions are not modelled). */
  datatype Value = Undefined | Null | Bool(b: bool) | Num(n: int) | NaN | Str(s: string)

  /** The result of a numeric conversion: a finite integer or a non-finite number (NaN, Infinity). */
  datatype JsNumber = Finite(n: int) | NotFinite

  /** `!!v` */
  predicate Truthy(v: Value) {
    match v
    case Undefined => false
    case Null => false
    case Bool(b) => b
    case Num(n) => n != 0
    case NaN => false
    case Str(s) => s != ""
  }

  /** `v === null || v === undefined`, the test behind `??`. */
  predicate Nullish(v: Value) {
    v == Undefined || v == Null
  }

  /** `a ?? b`: `a` unless it is null or undefined. */
  function Coalesce(a: Value, b: Value): (r: Value)
    ensures Nullish(a) ==> r == b
    ensures !Nullish(a) ==> r == a
  {
    if Nullish(a) then b else a
  }

  /** `a || b`: `a` when it is truthy, otherwise `b`. */
  function Or(a: Value, b: Value): (r: Value)
    ensures Truthy(a) ==> r == a
    ensures !Truthy(a) ==> r == b
    ensures Truthy(r) <==> Truthy(a) || Truthy(b)
  {
    if Truthy(a) then a else b
  }

  predicate IsDigit(c: char) {
    '0' <= c <= '9'
  }

  predicate AllDigits(s: string) {
    forall i :: 0 <= i < |s| ==> IsDigit(s[i])
  }

  /** The value of a decimal digit string (leading zeros allowed). */
  function DigitsValue(s: string): nat
    requires AllDigits(s)
  {
    if s == [] then 0 else DigitsValue(s[..|s| - 1]) * 10 + (s[|s| - 1] as int - '0' as int)
  }

  /** Length of the longest prefix of `s` made of decimal digits. */
  function DigitPrefix(s: string): (n: nat)
    ensures n <= |s| && AllDigits(s[..n])
    ensures n == |s| || !IsDigit(s[n])
  {
    if s != [] && IsDigit(s[0]) then
      var k := DigitPrefix(s[1..]);
      assert s[..1 + k] == [s[0]] + s[1..][..k];
      1 + k
    else
      0
  }

  /** The shortest decimal digit string of a natural number. */
  function NatString(n: nat): (s: string)
    ensures |s| >= 1 && AllDigits(s)
    ensures DigitsValue(s) == n
    ensures s[0] == '0' ==> n == 0
  {
    var d := [('0' as int + n % 10) as char];
    if n < 10 then
      d
    else
      var p := NatString(n / 10);
      assert (p + d)[..|p + d| - 1] == p;
      p + d
  }

  /** `String(n)` for an integer. */
  function DecimalString(n: int): (s: string)
    ensures s != []
  {
    if n < 0 then "-" + NatString(-n) else NatString(n)
  }

  /**
   * A whole string that is an optional sign followed by at least one digit
   * (the shape `/^[-+]?[0-9]+$/`), with its value; None for any other string.
   */
  function IntLiteral(s: string): (r: Option<int>)
    ensures r.Some? <==>
      (s != [] && AllDigits(s)) || (|s| >= 2 && (s[0] == '-' || s[0] == '+') && AllDigits(s[1..]))
    ensures s != [] && AllDigits(s) ==> r == Some(DigitsValue(s))
    ensures |s| >= 2 && s[0] == '-' && AllDigits(s[1..]) ==> r == Some(-(DigitsValue(s[1..]) as int))
    ensures |s| >= 2 && s[0] == '+' && AllDigits(s[1..]) ==> r == Some(DigitsValue(s[1..]) as int)
  {
    if s != [] && (s[0] == '-' || s[0] == '+') then
      var body := s[1..];
      if body != [] && AllDigits(body) then
        Some(if s[0] == '-' then -(DigitsValue(body) as int) else DigitsValue(body))
      else
        None
    else if s != [] && AllDigits(s) then
      Some(DigitsValue(s))
    else
      None
  }

  /** The decimal form of an integer is an integer literal with that value. */
  lemma DecimalStringLiteral(n: int)
    ensures IntLiteral(DecimalString(n)) == Some(n)
  {
    if n < 0 {
      var s := DecimalString(n);
      assert s[1..] == NatString(-n);
    }
  }

  /**
   * `Number(v)`. Strings are trimmed; the empty string is 0; an integer
   * literal is its value; every other string is non-finite here.
   */
  function ToNumber(v: Value): (r: JsNumber)
    ensures v == Null ==> r == Finite(0)
    ensures v == Undefined || v == NaN ==> r == NotFinite
    ensures v.Num? ==> r == Finite(v.n)
    ensures v.Bool? ==> r == Finite(if v.b then 1 else 0)
    ensures v.Str? && Trim(v.s) == "" ==> r == Finite(0)
    ensures v.Str? && IntLiteral(Trim(v.s)).Some? ==> r == Finite(IntLiteral(Trim(v.s)).value)
    ensures v.Str? && Trim(v.s) != "" && IntLiteral(Trim(v.s)).None? ==> r == NotFinite
  {
    match v
    case Undefined => NotFinite
    case Null => Finite(0)
    case Bool(b) => Finite(if b then 1 else 0)
    case Num(n) => Finite(n)
    case NaN => NotFinite
    case Str(s) =>
      var t := Trim(s);
      if t == "" then Finite(0)
      else match IntLiteral(t)
        case Some(n) => Finite(n)
        case None => NotFinite
  }

  /** `Number(v)` as a value again: a number, or NaN. */
  function ToNumberValue(v: Value): (r: Value)
    ensures r.Num? || r == NaN
    ensures ToNumber(v).Finite? ==> r == Num(ToNumber(v).n)
    ensures ToNumber(v).NotFinite? ==> r == NaN
  {
    match ToNumber(v)
    case Finite(n) => Num(n)
    case NotFinite => NaN
  }

  /**
   * `parseInt(s, 10)`: skip leading whitespace, read an optional sign and
   * the longest run of digits after it; NaN when there is no digit.
   */
  function ParseInt(s: string): (r: JsNumber)
    ensures var t := TrimStart(s);
      var signed := t != [] && (t[0] == '-' || t[0] == '+');
      var rest := if signed then t[1..] else t;
      && (r.Finite? <==> rest != [] && IsDigit(rest[0]))
      && (r.Finite? && !(t != [] && t[0] == '-') ==> r.n >= 0)
      && (r.Finite? && t[0] == '-' ==> r.n <= 0)
  {
    var t := TrimStart(s);
    var neg := t != [] && t[0] == '-';
    var rest := if t != [] && (t[0] == '-' || t[0] == '+') then t[1..] else t;
    var n := DigitPrefix(rest);
    if n == 0 then NotFinite
    else Finite(if neg then -(DigitsValue(rest[..n]) as int) else DigitsValue(rest[..n]))
  }

  /** A string that is exactly an integer literal parses to its value. */
  lemma {:induction false} ParseIntOfLiteral(s: string)
    requires IntLiteral(s).Some?
    ensures ParseInt(s) == Finite(IntLiteral(s).value)
  {
    assert LeadingSpaces(s) == 0;
    assert TrimStart(s) == s;
    var rest := if s[0] == '-' || s[0] == '+' then s[1..] else s;
    assert AllDigits(rest);
    DigitPrefixAll(rest);
    assert rest[..|rest|] == rest;
  }

  lemma {:induction false} DigitPrefixAll(s: string)
    requires AllDigits(s)
    ensures DigitPrefix(s) == |s|
  {
    if s != [] {
      DigitPrefixAll(s[1..]);
    }
  }

  /** Round trip: `parseInt(String(n), 10) === n` for every integer. */
  lemma ParseIntDecimal(n: int)
    ensures ParseInt(DecimalString(n)) == Finite(n)
  {
    DecimalStringLiteral(n);
    ParseIntOfLiteral(DecimalString(n));
  }

  /** node-postgres sends `undefined` parameters as SQL NULL. */
  function SqlParam(v: Value): (r: Value)
    ensures r != Undefined
    ensures v != Undefined ==> r == v
  {
    if v == Undefined then Null else v
  }

  /** The range of a PostgreSQL `integer` (int4) column. */
  predicate Int4(n: int) {
    -0x8000_0000 <= n < 0x8000_0000
  }

  /** The characters PostgreSQL's integer input skips around a number (C `isspace`). */
  predicate IsPgSpace(c: char) {
    c == ' ' || c == '\t' || c == '\n' || c == '\U{000B}' || c == '\U{000C}' || c == '\r'
  }

  predicate PgUnpadded(s: string) {
    s == [] || (!IsPgSpace(s[0]) && !IsPgSpace(s[|s| - 1]))
  }

  /** `s` without the leading and trailing whitespace PostgreSQL's integer input skips. */
  function PgTrim(s: string): (r: string)
    ensures |r| <= |s| && PgUnpadded(r)
    ensures PgUnpadded(s) ==> r == s
    decreases |s|
  {
    if s != [] && IsPgSpace(s[0]) then PgTrim(s[1..])
    else if s != [] && IsPgSpace(s[|s| - 1]) then PgTrim(s[..|s| - 1])
    else s
  }

  /** `PgTrim` removes exactly the padding around an unpadded string. */
  lemma {:induction false} PgTrimPadded(p: string, t: string, q: string)
    requires forall i :: 0 <= i < |p| ==> IsPgSpace(p[i])
    requires forall i :: 0 <= i < |q| ==> IsPgSpace(q[i])
    requires PgUnpadded(t)
    ensures PgTrim(p + t + q) == t
    decreases |p| + |q|
  {
    var s := p + t + q;
    if p != [] {
      assert s[1..] == p[1..] + t + q;
      PgTrimPadded(p[1..], t, q);
    } else if q != [] {
      if t == [] {
        assert s == q && s[1..] == [] + [] + q[1..];
        PgTrimPadded([], [], q[1..]);
      } else {
        assert s[0] == t[0] && s[|s| - 1] == q[|q| - 1];
        assert s[..|s| - 1] == [] + t + q[..|q| - 1];
        PgTrimPadded([], t, q[..|q| - 1]);
      }
    } else {
      assert s == t;
    }
  }

  /**
   * The integer PostgreSQL reads from a parameter bound to an integer
   * column; None when the text is not an integer or the value lies outside
   * the int4 range (the statement then fails). Text is read after skipping
   * C whitespace only, as an optional sign and decimal digits.
   */
  function SqlInt(v: Value): (r: Option<int>)
    ensures r.Some? ==> Int4(r.value)
    ensures v.Num? ==> (r == Some(v.n) <==> Int4(v.n))
    ensures v.Num? && !Int4(v.n) ==> r == None
    ensures v.Str? && r.Some? ==> IntLiteral(PgTrim(v.s)) == Some(r.value)
    ensures v.Str? && IntLiteral(PgTrim(v.s)).Some? && Int4(IntLiteral(PgTrim(v.s)).value) ==>
      r == IntLiteral(PgTrim(v.s))
    ensures v.Str? && (IntLiteral(PgTrim(v.s)).None? || !Int4(IntLiteral(PgTrim(v.s)).value)) ==> r == None
    ensures !v.Num? && !v.Str? ==> r == None
  {
    match v
    case Num(n) => if Int4(n) then Some(n) else None
    case Str(s) =>
      var t := IntLiteral(PgTrim(s));
      if t.Some? && Int4(t.value) then t else None
    case _ => None
  }

  /** Round trip: an int4 integer sent as its decimal text, padded with C whitespace, is read back. */
  lemma SqlIntDecimal(n: int, p: string, q: string)
    requires Int4(n)
    requires forall i :: 0 <= i < |p| ==> IsPgSpace(p[i])
    requires forall i :: 0 <= i < |q| ==> IsPgSpace(q[i])
    ensures SqlInt(Str(p + DecimalString(n) + q)) == Some(n)
  {
    var d := DecimalString(n);
    DecimalStringLiteral(n);
    assert !IsPgSpace(d[0]) && !IsPgSpace(d[|d| - 1]) by {
      if n < 0 {
        assert d[1..] == NatString(-n);
        assert d[|d| - 1] == NatString(-n)[|NatString(-n)| - 1];
      }
    }
    PgTrimPadded(p, d, q);
  }

  /**
   * A no-break space is whitespace to JavaScript but not to PostgreSQL's
   * integer input: `Number` reads U+00A0 followed by "7" as 7, the database refuses it.
   */
  lemma NoBreakSpaceIdRefused()
    ensures ToNumber(Str("\U{00A0}7")) == Finite(7)
    ensures SqlInt(Str("\U{00A0}7")) == None
  {
    var s := "\U{00A0}7";
    assert PgUnpadded(s);
    assert IntLiteral(s) == None;
    assert IsSpace(s[0]) && Unpadded("7");
    TrimPadded("\U{00A0}", "7", "");
    assert "\U{00A0}" + "7" + "" == s;
    assert AllDigits("7") && DigitsValue("7") == 7;
  }

  /**
   * `parseInt(id, 10)` bound to an integer column: the key it reads, or None
   * when the result is NaN or outside the int4 range, which fails the
   * statement.
   */
  function SqlKey(id: string): (r: Option<int>)
    ensures r.Some? <==> ParseInt(id).Finite? && Int4(ParseInt(id).n)
    ensures r.Some? ==> r.value == ParseInt(id).n
  {
    match ParseInt(id)
    case Finite(n) => if Int4(n) then Some(n) else None
    case NotFinite => None
  }

  /** An id whose digits exceed the int4 range reads as a number but fails as a key. */
  lemma OutOfRangeKey()
    ensures ParseInt("3000000000") == Finite(3000000000)
    ensures SqlKey("3000000000") == None
  {
    var s := "3000000000";
    assert AllDigits(s);
    assert DigitsValue(s[..1]) == 3;
    assert s[..2][..1] == s[..1] && DigitsValue(s[..2]) == 30;
    assert s[..3][..2] == s[..2] && DigitsValue(s[..3]) == 300;
    assert s[..4][..3] == s[..3] && DigitsValue(s[..4]) == 3000;
    assert s[..5][..4] == s[..4] && DigitsValue(s[..5]) == 30000;
    assert s[..6][..5] == s[..5] && DigitsValue(s[..6]) == 300000;
    assert s[..7][..6] == s[..6] && DigitsValue(s[..7]) == 3000000;
    assert s[..8][..7] == s[..7] && DigitsValue(s[..8]) == 30000000;
    assert s[..9][..8] == s[..8] && DigitsValue(s[..9]) == 300000000;
    assert s[..10][..9] == s[..9] && DigitsValue(s[..10]) == 3000000000;
    assert s[..10] == s;
    assert IntLiteral(s) == Some(3000000000);
    ParseIntOfLiteral(s);
  }

  /** A value after `JSON.stringify` and parsing on the other side: NaN travels as null. */
  function Json(v: Value): (r: Value)
    ensures r != NaN
    ensures v != NaN ==> r == v
  {
    if v == NaN then Null else v
  }

  /**
   * The text node-postgres sends for a statement parameter: NULL for null and
   * undefined, the string itself, and `String(v)` for numbers and booleans.
   */
  function SqlText(v: Value): (r: Option<string>)
    ensures r.None? <==> Nullish(v)
    ensures v.Str? ==> r == Some(v.s)
    ensures v.Num? ==> r == Some(DecimalString(v.n)) && ParseInt(r.value) == Finite(v.n)
    ensures v.Bool? ==> r.Some? && r.value == (if v.b then "true" else "false")
    ensures v == NaN ==> r == Some("NaN")
  {
    match v
    case Undefined => None
    case Null => None
    case NaN => Some("NaN")
    case Bool(b) => Some(if b then "true" else "false")
    case Num(n) => ParseIntDecimal(n); Some(DecimalString(n))
    case Str(s) => Some(s)
  }

  /** The string express-validator checks a value as. */
  function ValidatorString(v: Value): (s: string)
    ensures Nullish(v) || v == NaN ==> s == ""
    ensures v.Str? ==> s == v.s
  {
    match v
    case Undefined => ""
    case Null => ""
    case NaN => ""
    case Bool(b) => if b then "true" else "false"
    case Num(n) => DecimalString(n)
    case Str(s) => s
  }
}
