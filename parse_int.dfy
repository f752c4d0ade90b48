/** The global parseInt of JavaScript, called with no radix argument, as section 19.2.5 of
    ECMA-262 defines it. The dashboard's form coerces every edited field through it
    (AdminPanel.tsx:43). NaN is modelled as None; -0 and +0 are both the integer 0. */
module JsParseInt {
  import opened Wrappers

  /** The code points TrimString strips: WhiteSpace (ECMA-262 section 12.2, which takes in
      every Zs space separator) and LineTerminator (section 12.3). */
  predicate IsStrWhiteSpace(c: char) {
    || c == '\U{9}' || c == '\U{B}' || c == '\U{C}' || c == '\U{FEFF}'
    || c == ' ' || c == '\U{A0}' || c == '\U{1680}' || '\U{2000}' <= c <= '\U{200A}'
    || c == '\U{202F}' || c == '\U{205F}' || c == '\U{3000}'
    || c == '\U{A}' || c == '\U{D}' || c == '\U{2028}' || c == '\U{2029}'
  }

  /** The string with its leading white space removed (TrimString with where = start). */
  function TrimStart(s: string): (r: string)
    ensures |r| <= |s|
    ensures r == [] || !IsStrWhiteSpace(r[0])
  {
    if s != [] && IsStrWhiteSpace(s[0]) then TrimStart(s[1..]) else s
  }

  /** TrimStart removes a prefix of the string, and everything it removes is white space. */
  lemma {:induction false} TrimStartStrips(s: string)
    ensures TrimStart(s) == s[|s| - |TrimStart(s)|..]
    ensures forall i :: 0 <= i < |s| - |TrimStart(s)| ==> IsStrWhiteSpace(s[i])
  {
    if s != [] && IsStrWhiteSpace(s[0]) {
      TrimStartStrips(s[1..]);
      assert TrimStart(s) == TrimStart(s[1..]);
      forall i | 1 <= i < |s| - |TrimStart(s)|
        ensures IsStrWhiteSpace(s[i])
      {
        assert s[i] == s[1..][i - 1];
      }
    }
  }

  /** The value of an ASCII letter or digit as a digit in radix 36; 36 for every other character. */
  function DigitValue(c: char): (d: nat)
    ensures d <= 36
    ensures d < 10 <==> '0' <= c <= '9'
  {
    if '0' <= c <= '9' then c as int - '0' as int
    else if 'a' <= c <= 'z' then c as int - 'a' as int + 10
    else if 'A' <= c <= 'Z' then c as int - 'A' as int + 10
    else 36
  }

  predicate IsRadixDigit(c: char, radix: nat) {
    DigitValue(c) < radix
  }

  /** The length of the longest prefix of s made of radix digits (step 11 of parseInt). */
  function DigitRunLength(s: string, radix: nat): (n: nat)
    ensures n <= |s|
  {
    if s != [] && IsRadixDigit(s[0], radix) then 1 + DigitRunLength(s[1..], radix) else 0
  }

  /** The digit run is the longest prefix of digits: every character before its end is a digit
      of the radix, and the character at its end, if any, is not. */
  lemma {:induction false} DigitRunIsMaximal(s: string, radix: nat)
    ensures forall i :: 0 <= i < DigitRunLength(s, radix) ==> IsRadixDigit(s[i], radix)
    ensures DigitRunLength(s, radix) == |s| || !IsRadixDigit(s[DigitRunLength(s, radix)], radix)
  {
    if s != [] && IsRadixDigit(s[0], radix) {
      DigitRunIsMaximal(s[1..], radix);
      forall i | 1 <= i < DigitRunLength(s, radix)
        ensures IsRadixDigit(s[i], radix)
      {
        assert s[i] == s[1..][i - 1];
      }
    }
  }

  /** The number a string of digits denotes in the given radix, most significant digit first. */
  function DigitsValue(ds: string, radix: nat): (v: nat) {
    if ds == [] then 0 else DigitsValue(ds[..|ds| - 1], radix) * radix + DigitValue(ds[|ds| - 1])
  }

  /** Steps 3 to 5: a leading '-' makes the result negative; a leading '+' or '-' is dropped. */
  function SplitSign(s: string): (r: (bool, string)) {
    if s != [] && s[0] == '-' then (true, s[1..])
    else if s != [] && s[0] == '+' then (false, s[1..])
    else (false, s)
  }

  /** Steps 6 to 10 with the radix argument undefined: radix 16 after a "0x" or "0X" prefix,
      which is dropped, radix 10 otherwise. */
  function SplitRadix(s: string): (r: (nat, string)) {
    if |s| >= 2 && s[0] == '0' && (s[1] == 'x' || s[1] == 'X') then (16, s[2..]) else (10, s)
  }

  /** parseInt(input): None where JavaScript returns NaN, that is when no digit follows the
      white space, the sign and the radix prefix. Digits after the first non-digit are ignored. */
  function ParseInt(input: string): (r: Option<int>) {
    var (negative, body) := SplitSign(TrimStart(input));
    var (radix, digits) := SplitRadix(body);
    var z := digits[..DigitRunLength(digits, radix)];
    if z == [] then None
    else if negative then Some(-(DigitsValue(z, radix) as int))
    else Some(DigitsValue(z, radix))
  }

  /** The lower-case character for a digit value below 36. */
  function DigitChar(d: nat): (c: char)
    requires d < 36
    ensures DigitValue(c) == d
  {
    if d < 10 then ('0' as int + d) as char else ('a' as int + d - 10) as char
  }

  /** Euclidean division by a radix: n splits into its last digit and a strictly smaller rest. */
  lemma DivideByRadix(n: nat, radix: nat)
    requires 2 <= radix <= n
    ensures 0 < n / radix < n && n % radix < radix
    ensures n == n / radix * radix + n % radix
  {
  }

  /** The shortest numeral for n in the given radix. */
  function Numeral(n: nat, radix: nat): (s: string)
    requires 2 <= radix <= 36
    ensures |s| > 0
    ensures forall i :: 0 <= i < |s| ==> IsRadixDigit(s[i], radix)
    decreases n
  {
    if n < radix then [DigitChar(n)]
    else
      DivideByRadix(n, radix);
      Numeral(n / radix, radix) + [DigitChar(n % radix)]
  }

  /** How an integer is written in decimal, as the form's number input shows it. */
  function DecimalString(n: int): (s: string) {
    if n < 0 then "-" + Numeral(-n, 10) else Numeral(n, 10)
  }

  lemma {:induction false} NumeralValue(n: nat, radix: nat)
    requires 2 <= radix <= 36
    ensures DigitsValue(Numeral(n, radix), radix) == n
    decreases n
  {
    if n >= radix {
      DivideByRadix(n, radix);
      var s := Numeral(n, radix);
      assert s[..|s| - 1] == Numeral(n / radix, radix);
      NumeralValue(n / radix, radix);
    }
  }

  /** Only the numeral of zero starts with the digit 0. */
  lemma {:induction false} NumeralLeadingDigit(n: nat, radix: nat)
    requires 2 <= radix <= 36
    ensures (Numeral(n, radix)[0] == '0') == (n == 0)
    decreases n
  {
    if n >= radix {
      DivideByRadix(n, radix);
      NumeralLeadingDigit(n / radix, radix);
    }
  }

  /** A run of digits ends where the first non-digit stands. */
  lemma {:induction false} DigitRunOfNumeral(ds: string, rest: string, radix: nat)
    requires forall i :: 0 <= i < |ds| ==> IsRadixDigit(ds[i], radix)
    requires rest == [] || !IsRadixDigit(rest[0], radix)
    ensures DigitRunLength(ds + rest, radix) == |ds|
  {
    if ds != [] {
      assert (ds + rest)[1..] == ds[1..] + rest;
      DigitRunOfNumeral(ds[1..], rest, radix);
    }
  }

  /** A decimal numeral with its text after it: no white space to trim, and the sign splits off
      the numeral of the magnitude. */
  lemma DecimalSign(n: int, rest: string)
    ensures SplitSign(TrimStart(DecimalString(n) + rest))
            == (n < 0, Numeral(if n < 0 then -n else n, 10) + rest)
  {
    var body := Numeral(if n < 0 then -n else n, 10) + rest;
    var s := DecimalString(n) + rest;
    if n < 0 {
      assert s == ['-'] + body;
      assert s[1..] == body;
    } else {
      assert s == body;
    }
    assert !IsStrWhiteSpace(s[0]);
  }

  /** Reading back a decimal numeral gives the integer it was written from, whatever follows it,
      so long as what follows cannot continue it: not a digit, and not an 'x' after a lone 0,
      which would turn the 0 into a hexadecimal prefix. */
  lemma ParseIntDecimal(n: int, rest: string)
    requires rest == [] || DigitValue(rest[0]) >= 10
    requires n == 0 && rest != [] ==> rest[0] != 'x' && rest[0] != 'X'
    ensures ParseInt(DecimalString(n) + rest) == Some(n)
  {
    var m: nat := if n < 0 then -n else n;
    var ds := Numeral(m, 10);
    var body := ds + rest;
    DecimalSign(n, rest);
    NumeralLeadingDigit(m, 10);
    assert SplitRadix(body) == (10, body);
    DigitRunOfNumeral(ds, rest, 10);
    assert body[..DigitRunLength(body, 10)] == ds;
    NumeralValue(m, 10);
  }

  /** parseInt inverts the decimal rendering of every integer, negative ones included. */
  lemma ParseIntRoundTrip(n: int)
    ensures ParseInt(DecimalString(n)) == Some(n)
  {
    ParseIntDecimal(n, []);
    assert DecimalString(n) + [] == DecimalString(n);
  }

  /** A signed hexadecimal literal: no white space to trim, and the sign splits off the rest. */
  lemma HexSign(negative: bool, t: string)
    requires |t| >= 2 && t[0] == '0'
    ensures SplitSign(TrimStart((if negative then "-" else "") + t)) == (negative, t)
  {
    var s := (if negative then "-" else "") + t;
    if negative {
      assert s == ['-'] + t;
      assert s[1..] == t;
    } else {
      assert s == t;
    }
    assert !IsStrWhiteSpace(s[0]);
  }

  /** With no radix argument a "0x" or "0X" prefix, after an optional sign, reads the rest
      as hexadecimal. */
  lemma ParseIntHex(n: nat, negative: bool, upper: bool)
    ensures ParseInt((if negative then "-" else "") + ((if upper then "0X" else "0x") + Numeral(n, 16)))
            == Some(if negative then -(n as int) else n)
  {
    var ds := Numeral(n, 16);
    var t := (if upper then "0X" else "0x") + ds;
    HexSign(negative, t);
    assert t[2..] == ds;
    assert SplitRadix(t) == (16, ds);
    DigitRunOfNumeral(ds, [], 16);
    assert ds + [] == ds;
    NumeralValue(n, 16);
  }

  lemma {:induction false} TrimStartSkipsWhiteSpace(ws: string, s: string)
    requires forall i :: 0 <= i < |ws| ==> IsStrWhiteSpace(ws[i])
    ensures TrimStart(ws + s) == TrimStart(s)
  {
    if ws != [] {
      assert (ws + s)[1..] == ws[1..] + s;
      TrimStartSkipsWhiteSpace(ws[1..], s);
    } else {
      assert ws + s == s;
    }
  }

  /** Leading white space and line terminators never change the result. */
  lemma ParseIntSkipsWhiteSpace(ws: string, s: string)
    requires forall i :: 0 <= i < |ws| ==> IsStrWhiteSpace(ws[i])
    ensures ParseInt(ws + s) == ParseInt(s)
  {
    TrimStartSkipsWhiteSpace(ws, s);
  }

  /** Text without any decimal digit (the empty string included) parses to NaN: letters alone
      cannot be read, since only a "0x" prefix, which starts with a digit, selects radix 16. */
  lemma ParseIntNaN(s: string)
    requires forall i :: 0 <= i < |s| ==> !('0' <= s[i] <= '9')
    ensures ParseInt(s) == None
  {
    var t := TrimStart(s);
    TrimStartStrips(s);
    assert forall i :: 0 <= i < |t| ==> t[i] == s[|s| - |t| + i];
    var (negative, body) := SplitSign(t);
    assert body == [] || DigitValue(body[0]) >= 10;
  }

  /** Values of parseInt the form meets in practice: text it cannot read, */
  lemma ParseIntNaNExamples()
    ensures ParseInt("") == None && ParseInt("abc") == None && ParseInt("-") == None
  {
  }

  /** a negative number, which is kept as it is, */
  lemma ParseIntNegativeExample()
    ensures ParseInt("-5") == Some(-5)
  {
    ParseIntRoundTrip(-5);
    assert DecimalString(-5) == "-5";
  }

  /** a number followed by text, which is cut off at the first non-digit, */
  lemma ParseIntPrefixExamples()
    ensures ParseInt("12abc") == Some(12) && ParseInt("3.9") == Some(3)
  {
    ParseIntDecimal(12, "abc");
    assert DecimalString(12) + "abc" == "12abc";
    ParseIntDecimal(3, ".9");
    assert DecimalString(3) + ".9" == "3.9";
  }

  /** and a hexadecimal literal. */
  lemma ParseIntHexExample()
    ensures ParseInt("0x1a") == Some(26)
  {
    ParseIntHex(26, false, false);
    assert Numeral(26, 16) == "1a";
    assert "" + ("0x" + "1a") == "0x1a";
  }
}
