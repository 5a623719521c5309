/**
 * The global `parseInt(string)` of ECMAScript (section 19.2.5 of ECMA-262)
 * with no radix argument, as `parseInt(tags["building:levels"])` calls it
 * (api/src/index.ts:75): NaN is None, and -0 is 0.
 */
module JsParseInt {
  import opened Wrappers

  /** StrWhiteSpaceChar: WhiteSpace (tab, VT, FF, ZWNBSP, every space separator) and LineTerminator. */
  predicate IsStrWhiteSpace(c: char) {
    var n := c as int;
    n == 0x09 || n == 0x0A || n == 0x0B || n == 0x0C || n == 0x0D || n == 0x20 || n == 0xA0
    || n == 0x1680 || 0x2000 <= n <= 0x200A || n == 0x2028 || n == 0x2029 || n == 0x202F
    || n == 0x205F || n == 0x3000 || n == 0xFEFF
  }

  /** Step 2 of section 19.2.5: the string with its leading white space removed. */
  function TrimStart(s: string): string {
    if s != [] && IsStrWhiteSpace(s[0]) then TrimStart(s[1..]) else s
  }

  /** The value of a character as a digit of a radix up to 36: 0-9, then a-z or A-Z; 36 for any other. */
  function DigitValue(c: char): (d: nat)
    ensures d <= 36
  {
    if '0' <= c <= '9' then c as int - '0' as int
    else if 'a' <= c <= 'z' then c as int - 'a' as int + 10
    else if 'A' <= c <= 'Z' then c as int - 'A' as int + 10
    else 36
  }

  predicate IsDigit(c: char, radix: nat) {
    DigitValue(c) < radix
  }

  /** The length of the longest prefix of `s` made of digits of `radix`. */
  function DigitRun(s: string, radix: nat): (n: nat)
    ensures n <= |s|
  {
    if s != [] && IsDigit(s[0], radix) then 1 + DigitRun(s[1..], radix) else 0
  }

  /** The number that a string of digits denotes, most significant digit first. */
  function Value(ds: string, radix: nat): nat
    decreases |ds|
  {
    if ds == [] then 0 else Value(ds[..|ds| - 1], radix) * radix + DigitValue(ds[|ds| - 1])
  }

  /** Steps 11 to 14 of section 19.2.5: the longest run of digits, or NaN when there is none. */
  function ParseDigits(w: string, radix: nat): Option<nat> {
    var n := DigitRun(w, radix);
    if n == 0 then None else Some(Value(w[..n], radix))
  }

  /** Steps 9 and 10 of section 19.2.5: a leading `0x` or `0X` selects radix 16. */
  function ParseUnsigned(u: string): Option<nat> {
    if |u| >= 2 && u[0] == '0' && (u[1] == 'x' || u[1] == 'X') then ParseDigits(u[2..], 16)
    else ParseDigits(u, 10)
  }

  /**
   * Steps 3 to 5 and 15 to 16 of section 19.2.5, on the trimmed string: an
   * optional sign, applied to the number read after it.
   */
  function ParseSigned(t: string): Option<int> {
    var negative := t != [] && t[0] == '-';
    var u := if t != [] && (t[0] == '+' || t[0] == '-') then t[1..] else t;
    match ParseUnsigned(u)
    case None => None
    case Some(v) => var z: int := v; if negative then Some(-z) else Some(z)
  }

  /** The string after its leading white space and an optional sign. */
  function Unsigned(s: string): string {
    var t := TrimStart(s);
    if t != [] && (t[0] == '+' || t[0] == '-') then t[1..] else t
  }

  /**
   * Whether parseInt finds a number: after white space and a sign there is
   * a decimal digit, or `0x`/`0X` followed by a hexadecimal digit.
   */
  predicate StartsWithNumber(s: string) {
    var u := Unsigned(s);
    if |u| >= 2 && u[0] == '0' && (u[1] == 'x' || u[1] == 'X') then |u| > 2 && IsDigit(u[2], 16)
    else u != [] && IsDigit(u[0], 10)
  }

  function ParseInt(s: string): Option<int> {
    ParseSigned(TrimStart(s))
  }

  /** parseInt yields a number exactly when one starts the string; otherwise NaN. */
  lemma ParseIntIsNumber(s: string)
    ensures ParseInt(s).Some? <==> StartsWithNumber(s)
  {
  }

  /** The decimal numeral of a natural number, as `String(n)` writes it. */
  function Decimal(n: nat): string {
    if n < 10 then [('0' as int + n) as char]
    else Decimal(n / 10) + [('0' as int + n % 10) as char]
  }

  /** The numeral of an integer, with a leading `-` when it is negative. */
  function IntString(n: int): string {
    if n < 0 then "-" + Decimal(-n) else Decimal(n)
  }

  /** A numeral is a non-empty string of decimal digits with no leading zero. */
  lemma {:induction false} DecimalDigits(n: nat)
    ensures Decimal(n) != []
    ensures forall i :: 0 <= i < |Decimal(n)| ==> '0' <= Decimal(n)[i] <= '9'
    ensures Decimal(n)[0] == '0' ==> n == 0
  {
    if n >= 10 {
      DecimalDigits(n / 10);
      assert Decimal(n)[0] == Decimal(n / 10)[0];
    }
  }

  lemma {:induction false} ValueDecimal(n: nat)
    ensures Value(Decimal(n), 10) == n
  {
    if n >= 10 {
      var s := Decimal(n);
      assert s[..|s| - 1] == Decimal(n / 10);
      ValueDecimal(n / 10);
    }
  }

  /** A digit run ends exactly where the digits end. */
  lemma {:induction false} DigitRunOfDigits(ds: string, rest: string, radix: nat)
    requires forall i :: 0 <= i < |ds| ==> IsDigit(ds[i], radix)
    requires rest == [] || !IsDigit(rest[0], radix)
    ensures DigitRun(ds + rest, radix) == |ds|
    decreases |ds|
  {
    if ds != [] {
      assert (ds + rest)[1..] == ds[1..] + rest;
      DigitRunOfDigits(ds[1..], rest, radix);
    } else {
      assert ds + rest == rest;
    }
  }

  lemma {:induction false} TrimStartSkips(ws: string, s: string)
    requires forall i :: 0 <= i < |ws| ==> IsStrWhiteSpace(ws[i])
    ensures TrimStart(ws + s) == TrimStart(s)
    decreases |ws|
  {
    if ws != [] {
      assert (ws + s)[1..] == ws[1..] + s;
      TrimStartSkips(ws[1..], s);
    } else {
      assert ws + s == s;
    }
  }

  /** Leading white space never changes what parseInt reads. */
  lemma {:induction false} ParseIntSkipsWhiteSpace(ws: string, s: string)
    requires forall i :: 0 <= i < |ws| ==> IsStrWhiteSpace(ws[i])
    ensures ParseInt(ws + s) == ParseInt(s)
  {
    TrimStartSkips(ws, s);
  }

  /** A value that does not start with a number, once white space and a sign are skipped, is NaN. */
  lemma NotANumber(s: string)
    requires Unsigned(s) == [] || !IsDigit(Unsigned(s)[0], 10)
    ensures ParseInt(s) == None
  {
    ParseIntIsNumber(s);
  }

  /** A run of decimal digits followed by text that does not continue it reads as its value. */
  lemma {:induction false} ParseUnsignedOfDigits(ds: string, rest: string)
    requires ds != [] && forall i :: 0 <= i < |ds| ==> IsDigit(ds[i], 10)
    requires rest == [] || !IsDigit(rest[0], 10)
    requires ds == "0" ==> rest == [] || (rest[0] != 'x' && rest[0] != 'X')
    ensures ParseUnsigned(ds + rest) == Some(Value(ds, 10))
  {
    var u := ds + rest;
    assert !(|u| >= 2 && u[0] == '0' && (u[1] == 'x' || u[1] == 'X')) by {
      if |u| >= 2 && u[0] == '0' && |ds| >= 2 {
        assert u[1] == ds[1];
      } else if |u| >= 2 && u[0] == '0' {
        assert ds == [ds[0]] == "0";
        assert u[1] == rest[0];
      }
    }
    DigitRunOfDigits(ds, rest, 10);
    assert u[..|ds|] == ds;
  }

  /** A sign in front of an unsigned number negates it or leaves it as it is. */
  lemma ParseSignedOfSign(sign: string, u: string, m: nat)
    requires sign == "" || sign == "+" || sign == "-"
    requires u != [] && u[0] != '+' && u[0] != '-'
    requires ParseUnsigned(u) == Some(m)
    ensures ParseSigned(sign + u) == Some(if sign == "-" then -(m as int) else m)
  {
    var t := sign + u;
    if sign == "" {
      assert t == u;
    } else {
      assert t[0] == sign[0] && t[1..] == u;
    }
  }

  /**
   * parseInt of white space, an optional sign, decimal digits and text that
   * does not continue them: the digits' value, negated after `-`. Leading
   * zeros and a `+` are allowed; only a lone `0` must not be followed by `x`.
   */
  lemma {:induction false} ParseIntOfDigits(ws: string, sign: string, ds: string, rest: string)
    requires forall i :: 0 <= i < |ws| ==> IsStrWhiteSpace(ws[i])
    requires sign == "" || sign == "+" || sign == "-"
    requires ds != [] && forall i :: 0 <= i < |ds| ==> IsDigit(ds[i], 10)
    requires rest == [] || !IsDigit(rest[0], 10)
    requires ds == "0" ==> rest == [] || (rest[0] != 'x' && rest[0] != 'X')
    ensures ParseInt(ws + sign + ds + rest) == Some(if sign == "-" then -(Value(ds, 10) as int) else Value(ds, 10))
  {
    var t := sign + (ds + rest);
    assert ws + sign + ds + rest == ws + t;
    TrimStartSkips(ws, t);
    assert TrimStart(t) == t by {
      assert t[0] == '+' || t[0] == '-' || t[0] == ds[0];
    }
    ParseUnsignedOfDigits(ds, rest);
    assert (ds + rest)[0] == ds[0];
    ParseSignedOfSign(sign, ds + rest, Value(ds, 10));
  }

  /** parseInt reads back the numeral of any integer, before any text that does not continue it. */
  lemma {:induction false} ParseIntOfIntString(n: int, rest: string)
    requires rest == [] || (!IsDigit(rest[0], 10) && rest[0] != 'x' && rest[0] != 'X')
    ensures ParseInt(IntString(n) + rest) == Some(n)
  {
    if n < 0 {
      assert IntString(n) + rest == "-" + Decimal(-n) + rest;
      ParseIntOfMinusDecimal(-n, rest);
    } else {
      ParseIntOfDecimal(n, rest);
    }
  }

  lemma ParseIntOfDecimal(m: nat, rest: string)
    requires rest == [] || (!IsDigit(rest[0], 10) && rest[0] != 'x' && rest[0] != 'X')
    ensures ParseInt(Decimal(m) + rest) == Some(m)
  {
    DecimalNumeral(m);
    assert Decimal(m) + rest == "" + "" + Decimal(m) + rest;
    ParseIntOfDigits("", "", Decimal(m), rest);
  }

  lemma ParseIntOfMinusDecimal(m: nat, rest: string)
    requires rest == [] || (!IsDigit(rest[0], 10) && rest[0] != 'x' && rest[0] != 'X')
    ensures ParseInt("-" + Decimal(m) + rest) == Some(-(m as int))
  {
    DecimalNumeral(m);
    assert "-" + Decimal(m) + rest == "" + "-" + Decimal(m) + rest;
    ParseIntOfDigits("", "-", Decimal(m), rest);
  }

  /** A numeral is a run of decimal digits whose value is the number. */
  lemma DecimalNumeral(m: nat)
    ensures Decimal(m) != [] && forall i :: 0 <= i < |Decimal(m)| ==> IsDigit(Decimal(m)[i], 10)
    ensures Value(Decimal(m), 10) == m
  {
    DecimalDigits(m);
    ValueDecimal(m);
  }

  /** The same after any leading white space. */
  lemma {:induction false} ParseIntOfNumeral(ws: string, n: int, rest: string)
    requires forall i :: 0 <= i < |ws| ==> IsStrWhiteSpace(ws[i])
    requires rest == [] || (!IsDigit(rest[0], 10) && rest[0] != 'x' && rest[0] != 'X')
    ensures ParseInt(ws + IntString(n) + rest) == Some(n)
  {
    assert ws + IntString(n) + rest == ws + (IntString(n) + rest);
    ParseIntSkipsWhiteSpace(ws, IntString(n) + rest);
    ParseIntOfIntString(n, rest);
  }
}
