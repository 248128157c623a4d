/** The global `parseInt(string)` with no radix argument, which every
    by-id handler applies to the path parameter before searching a table.
    It follows the steps of the ECMAScript definition of parseInt: skip
    leading white space, read an optional sign, switch to radix 16 after a
    `0x`/`0X` prefix, read the longest run of digits of that radix and
    ignore the rest; no digit at all gives NaN. */
module JsParseInt {
  import opened Options

  /** The number a path parameter parses to. `-0` is folded into `Int(0)`
      because the handlers only compare it with `===`, for which
      `-0 === 0` holds. */
  datatype ParsedId = NaN | Int(n: int)

  /** The white space and line terminators that parseInt skips
      (tab, line feed, vertical tab, form feed, carriage return, space,
      no-break space, line and paragraph separators, byte-order mark). */
  predicate IsWhiteSpace(c: char)
  {
    ('\t' <= c <= '\r') || c == ' ' || c == '\U{A0}' || c == '\U{2028}' || c == '\U{2029}' || c == '\U{FEFF}'
  }

  /** The value of `c` as a digit in any radix up to 36, or 36 when `c` is
      not a letter or decimal digit at all. */
  function DigitOf(c: char): (d: nat)
    ensures d <= 36
    ensures d < 10 <==> '0' <= c <= '9'
  {
    if '0' <= c <= '9' then c as int - '0' as int
    else if 'a' <= c <= 'z' then c as int - 'a' as int + 10
    else if 'A' <= c <= 'Z' then c as int - 'A' as int + 10
    else 36
  }

  predicate IsDigit(c: char, radix: nat)
  {
    DigitOf(c) < radix
  }

  predicate AllDigits(z: string, radix: nat)
  {
    forall i | 0 <= i < |z| :: IsDigit(z[i], radix)
  }

  /** `s` with its leading white space removed. */
  function TrimStart(s: string): (r: string)
    ensures |r| <= |s| && r == s[|s| - |r|..]
    ensures r == [] || !IsWhiteSpace(r[0])
  {
    if s == [] || !IsWhiteSpace(s[0]) then s else TrimStart(s[1..])
  }

  /** The longest prefix of `s` made of digits of `radix`. */
  function DigitPrefix(s: string, radix: nat): (z: string)
    ensures z <= s && AllDigits(z, radix)
    ensures |z| < |s| ==> !IsDigit(s[|z|], radix)
  {
    if s == [] || !IsDigit(s[0], radix) then [] else [s[0]] + DigitPrefix(s[1..], radix)
  }

  /** The number a run of digits denotes in `radix`. */
  function DigitsValue(z: string, radix: nat): nat
  {
    if z == [] then 0
    else DigitsValue(z[..|z| - 1], radix) * radix + DigitOf(z[|z| - 1])
  }

  /** `t` without its leading sign character, if it has one. */
  function StripSign(t: string): string
  {
    if |t| > 0 && (t[0] == '-' || t[0] == '+') then t[1..] else t
  }

  /** The unsigned part: a `0x`/`0X` prefix selects radix 16, otherwise
      radix 10; None when no digit of that radix follows. */
  function Magnitude(u: string): Option<nat>
  {
    var hex := |u| >= 2 && u[0] == '0' && (u[1] == 'x' || u[1] == 'X');
    var radix := if hex then 16 else 10;
    var z := DigitPrefix(if hex then u[2..] else u, radix);
    if z == [] then None else Some(DigitsValue(z, radix))
  }

  function ParseInt(s: string): ParsedId
  {
    var t := TrimStart(s);
    match Magnitude(StripSign(t))
    case None => NaN
    case Some(m) => if |t| > 0 && t[0] == '-' then Int(0 - m) else Int(m)
  }

  /** The decimal digits of `n` with no leading zero, as `String(n)` writes
      a non-negative integer. */
  function Digits(n: nat): (r: string)
  {
    if n < 10 then ['0' + n as char]
    else Digits(n / 10) + ['0' + (n % 10) as char]
  }

  /** `String(n)` for an integer `n`. */
  function ToDecimal(n: int): string
  {
    if n < 0 then "-" + Digits(-n) else Digits(n)
  }

  lemma {:induction false} DigitsFacts(n: nat)
    ensures |Digits(n)| > 0 && AllDigits(Digits(n), 10)
    ensures DigitsValue(Digits(n), 10) == n
    ensures Digits(n)[0] == '0' ==> n == 0
  {
    if n >= 10 {
      DigitsFacts(n / 10);
      var d := Digits(n / 10);
      assert Digits(n) == d + ['0' + (n % 10) as char];
      assert Digits(n)[..|Digits(n)| - 1] == d;
    }
  }

  /** A run of digits followed by a non-digit (or nothing) is read whole. */
  lemma {:induction false} DigitPrefixOfRun(z: string, rest: string, radix: nat)
    requires AllDigits(z, radix)
    requires rest == [] || !IsDigit(rest[0], radix)
    ensures DigitPrefix(z + rest, radix) == z
  {
    if z != [] {
      assert (z + rest)[1..] == z[1..] + rest;
      DigitPrefixOfRun(z[1..], rest, radix);
    } else {
      assert z + rest == rest;
    }
  }

  /** Decimal digits without a leading zero (or a lone zero), followed by
      a non-digit that cannot complete a `0x` prefix, are read whole. */
  lemma MagnitudeOfDigits(m: nat, rest: string)
    requires rest == [] || !('0' <= rest[0] <= '9')
    requires rest != [] && m == 0 ==> rest[0] != 'x' && rest[0] != 'X'
    ensures Magnitude(Digits(m) + rest) == Some(m)
  {
    DigitsFacts(m);
    var d := Digits(m);
    var u := d + rest;
    assert rest == [] || !IsDigit(rest[0], 10);
    DigitPrefixOfRun(d, rest, 10);
    assert !(|u| >= 2 && u[0] == '0' && (u[1] == 'x' || u[1] == 'X')) by {
      if |u| >= 2 && u[0] == '0' {
        assert m == 0 && |d| == 1 && u[1] == rest[0];
      }
    }
  }

  /** parseInt reads back the decimal text of any integer, whatever
      non-digit text follows it (as long as it cannot turn a lone `0`
      into a `0x` prefix). */
  lemma ParseIntOfDecimal(n: int, rest: string)
    requires rest == [] || !('0' <= rest[0] <= '9')
    requires rest != [] && n == 0 ==> rest[0] != 'x' && rest[0] != 'X'
    ensures ParseInt(ToDecimal(n) + rest) == Int(n)
  {
    if n < 0 {
      ParseIntOfNegative(n, rest);
    } else {
      ParseIntOfNonNegative(n, rest);
    }
  }

  lemma ParseIntOfNegative(n: int, rest: string)
    requires n < 0
    requires rest == [] || !('0' <= rest[0] <= '9')
    ensures ParseInt(ToDecimal(n) + rest) == Int(n)
  {
    var m: nat := -n;
    DigitsFacts(m);
    MagnitudeOfDigits(m, rest);
    ParseIntSigned(Digits(m) + rest, m);
    SignedDecimal(n, rest);
  }

  lemma ParseIntOfNonNegative(n: nat, rest: string)
    requires rest == [] || !('0' <= rest[0] <= '9')
    requires rest != [] && n == 0 ==> rest[0] != 'x' && rest[0] != 'X'
    ensures ParseInt(ToDecimal(n) + rest) == Int(n)
  {
    DigitsFacts(n);
    MagnitudeOfDigits(n, rest);
    ParseIntUnsigned(Digits(n) + rest, n);
    assert ToDecimal(n) == Digits(n);
  }

  lemma SignedDecimal(n: int, rest: string)
    requires n < 0
    ensures ToDecimal(n) + rest == "-" + (Digits(-n) + rest)
  {
  }

  lemma ParseIntUnsigned(u: string, m: nat)
    requires u != [] && '0' <= u[0] <= '9'
    requires Magnitude(u) == Some(m)
    ensures ParseInt(u) == Int(m)
  {
    assert !IsWhiteSpace(u[0]);
    assert TrimStart(u) == u;
  }

  lemma ParseIntSigned(u: string, m: nat)
    requires u != [] && '0' <= u[0] <= '9'
    requires Magnitude(u) == Some(m)
    ensures ParseInt("-" + u) == Int(0 - m)
  {
    var s := "-" + u;
    assert TrimStart(s) == s;
    assert StripSign(s) == u;
  }

  /** A path parameter that does not begin with a decimal digit (after
      optional white space and sign) parses to NaN. */
  lemma ParseIntNonNumeric(s: string)
    requires var u := StripSign(TrimStart(s)); u == [] || !('0' <= u[0] <= '9')
    ensures ParseInt(s) == NaN
  {
  }

  /** A `0x`/`0X` prefix switches to hexadecimal: a non-empty run of hex
      digits after it is read whole, whatever non-hex text follows. */
  lemma ParseIntOfHex(x: char, z: string, rest: string)
    requires x == 'x' || x == 'X'
    requires z != [] && AllDigits(z, 16)
    requires rest == [] || !IsDigit(rest[0], 16)
    ensures ParseInt(['0', x] + z + rest) == Int(DigitsValue(z, 16))
  {
    var s := ['0', x] + z + rest;
    assert s[0] == '0' && s[1] == x;
    assert TrimStart(s) == s;
    assert StripSign(s) == s;
    assert s[2..] == z + rest;
    DigitPrefixOfRun(z, rest, 16);
    assert Magnitude(s) == Some(DigitsValue(z, 16));
  }

  /** For example `parseInt("0x1F")` is 31. */
  lemma ParseIntHexExample()
    ensures ParseInt("0x1F") == Int(31)
  {
    ParseIntOfHex('x', "1F", "");
    assert ['0', 'x'] + "1F" + "" == "0x1F";
    assert DigitsValue("1F", 16) == 31;
  }
}
