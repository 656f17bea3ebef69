/** The two integer/text conversions the selectors rely on: the decimal text an
    integer gets inside a template literal (`${n}`), and `Number(text)`
    restricted to texts that denote integers in plain decimal notation. */
module JsNumbers {
  import opened Optional

  predicate IsDigit(c: char)
  {
    '0' <= c <= '9'
  }

  predicate AllDigits(s: string)
  {
    forall i | 0 <= i < |s| :: IsDigit(s[i])
  }

  function DigitValue(c: char): (d: nat)
    requires IsDigit(c)
    ensures d < 10
  {
    c as int - '0' as int
  }

  function DigitChar(d: nat): (c: char)
    requires d < 10
    ensures IsDigit(c) && DigitValue(c) == d
  {
    ('0' as int + d) as char
  }

  /** Decimal digits of a natural number, most significant first, without
      leading zeros. */
  function NatString(n: nat): (s: string)
    ensures |s| > 0 && AllDigits(s)
    ensures n == 0 <==> s == "0"
    ensures n > 0 ==> s[0] != '0'
    decreases n
  {
    if n < 10 then [DigitChar(n)] else NatString(n / 10) + [DigitChar(n % 10)]
  }

  /** The text of an integer in a template literal: a minus sign for negative
      values, then the decimal digits. */
  function IntString(n: int): (s: string)
    ensures |s| > 0
    ensures s[0] == '-' <==> n < 0
    ensures n < 0 ==> |s| > 1
    ensures AllDigits(s[if n < 0 then 1 else 0..])
    ensures var d := s[if n < 0 then 1 else 0..];
      (d[0] != '0' || d == "0") && DigitsValue(d) == if n < 0 then -n else n
  {
    var d := NatString(if n < 0 then -n else n);
    NatStringRoundTrip(if n < 0 then -n else n);
    var s := if n < 0 then "-" + d else d;
    assert s[if n < 0 then 1 else 0..] == d;
    s
  }

  /** Value of a sequence of decimal digits. */
  function DigitsValue(s: string): nat
    requires AllDigits(s)
  {
    if s == [] then 0 else DigitsValue(s[..|s| - 1]) * 10 + DigitValue(s[|s| - 1])
  }

  /** The characters `Number` strips from both ends of its argument: the
      ECMAScript WhiteSpace and LineTerminator code points. */
  predicate IsJsSpace(c: char)
  {
    var u := c as int;
    u == 0x09 || u == 0x0A || u == 0x0B || u == 0x0C || u == 0x0D || u == 0x20
    || u == 0xA0 || u == 0x1680 || (0x2000 <= u <= 0x200A) || u == 0x2028
    || u == 0x2029 || u == 0x202F || u == 0x205F || u == 0x3000 || u == 0xFEFF
  }

  function TrimStart(s: string): (r: string)
    ensures |r| <= |s|
    ensures r == [] || !IsJsSpace(r[0])
  {
    if s != [] && IsJsSpace(s[0]) then TrimStart(s[1..]) else s
  }

  /** `TrimStart` only removes characters from the front, and every character
      it removes is white space. */
  lemma {:induction false} TrimStartSuffix(s: string)
    ensures TrimStart(s) == s[|s| - |TrimStart(s)|..]
    ensures forall i | 0 <= i < |s| - |TrimStart(s)| :: IsJsSpace(s[i])
    decreases |s|
  {
    if s != [] && IsJsSpace(s[0]) {
      var rest := s[1..];
      TrimStartSuffix(rest);
      assert rest[|rest| - |TrimStart(s)|..] == s[|s| - |TrimStart(s)|..];
      forall i | 1 <= i < |s| - |TrimStart(s)|
        ensures IsJsSpace(s[i])
      {
        assert s[i] == rest[i - 1];
      }
    }
  }

  function TrimEnd(s: string): (r: string)
    ensures |r| <= |s|
    ensures r == [] || !IsJsSpace(r[|r| - 1])
  {
    if s != [] && IsJsSpace(s[|s| - 1]) then TrimEnd(s[..|s| - 1]) else s
  }

  /** `TrimEnd` only removes characters from the back, and every character it
      removes is white space. */
  lemma {:induction false} TrimEndPrefix(s: string)
    ensures TrimEnd(s) == s[..|TrimEnd(s)|]
    ensures forall i | |TrimEnd(s)| <= i < |s| :: IsJsSpace(s[i])
    decreases |s|
  {
    if s != [] && IsJsSpace(s[|s| - 1]) {
      var init := s[..|s| - 1];
      TrimEndPrefix(init);
      assert init[..|TrimEnd(s)|] == s[..|TrimEnd(s)|];
      forall i | |TrimEnd(s)| <= i < |s| - 1
        ensures IsJsSpace(s[i])
      {
        assert s[i] == init[i];
      }
    }
  }

  function Trim(s: string): string
  {
    TrimEnd(TrimStart(s))
  }

  /** `Number(text)` where the outcome is an integer written in decimal:
      surrounding white space is ignored, the empty text is 0, and an optional
      sign is followed by at least one digit. Everything else is None (NaN, or
      a form this model does not recognise). */
  function ParseNumber(text: string): (r: Option<int>)
    ensures Trim(text) == [] ==> r == Some(0)
    ensures AllDigits(Trim(text)) ==> r.Some? && r.value >= 0
    ensures Trim(text) != [] && AllDigits(Trim(text)) ==> r == Some(DigitsValue(Trim(text)))
    ensures var t := Trim(text);
      |t| > 1 && t[0] == '+' && AllDigits(t[1..]) ==> r == Some(DigitsValue(t[1..]))
    ensures var t := Trim(text);
      |t| > 1 && t[0] == '-' && AllDigits(t[1..]) ==> r == Some(-(DigitsValue(t[1..]) as int))
    ensures r.Some? && r.value < 0 ==> Trim(text) != [] && Trim(text)[0] == '-'
    ensures r.Some? && Trim(text) != [] ==> IsDigit(Trim(text)[|Trim(text)| - 1])
    ensures (Trim(text) != [] && Trim(text)[0] != '-' && Trim(text)[0] != '+'
             && !IsDigit(Trim(text)[0])) ==> r.None?
    ensures r.Some? ==> var t := Trim(text);
      t == [] || AllDigits(t) || (|t| > 1 && (t[0] == '+' || t[0] == '-') && AllDigits(t[1..]))
  {
    var t := Trim(text);
    if t == [] then Some(0)
    else if t[0] == '-' || t[0] == '+' then
      var ds := t[1..];
      if ds != [] && AllDigits(ds) then
        Some(if t[0] == '-' then 0 - DigitsValue(ds) as int else DigitsValue(ds) as int)
      else None
    else if AllDigits(t) then Some(DigitsValue(t))
    else None
  }

  /** Reading back the digits of a natural number gives that number. */
  lemma {:induction false} NatStringRoundTrip(n: nat)
    ensures DigitsValue(NatString(n)) == n
    decreases n
  {
    if n >= 10 {
      NatStringRoundTrip(n / 10);
      var s := NatString(n);
      assert s[..|s| - 1] == NatString(n / 10);
    }
  }

  /** A text that neither starts nor ends with white space is its own trim. */
  lemma TrimUnchanged(s: string)
    requires s != [] && !IsJsSpace(s[0]) && !IsJsSpace(s[|s| - 1])
    ensures Trim(s) == s
  {
  }

  /** A text that does not start with white space is kept by `TrimStart`. */
  lemma TrimStartUnchanged(s: string)
    requires s != [] && !IsJsSpace(s[0])
    ensures TrimStart(s) == s
  {
  }

  /** Trimming the end of a text that does not start with white space keeps its
      first character. */
  lemma {:induction false} TrimEndKeepsFirst(s: string)
    requires s != [] && !IsJsSpace(s[0])
    ensures TrimEnd(s) != [] && TrimEnd(s)[0] == s[0]
    decreases |s|
  {
    if IsJsSpace(s[|s| - 1]) {
      var init := s[..|s| - 1];
      assert init != [] && init[0] == s[0];
      TrimEndKeepsFirst(init);
    }
  }

  /** A text whose first character is neither blank, nor a sign, nor a digit is
      not read as a decimal integer, whatever follows it. */
  lemma NonNumericStartIsNone(text: string)
    requires text != [] && !IsJsSpace(text[0])
    requires text[0] != '-' && text[0] != '+' && !IsDigit(text[0])
    ensures ParseNumber(text) == None
  {
    TrimStartUnchanged(text);
    TrimEndKeepsFirst(text);
  }

  /** Texts that `Number` turns into NaN although they start with a digit or a
      sign and end in a digit: junk inside, a doubled sign, inner white space. */
  lemma InnerJunkIsNone()
    ensures ParseNumber("1x2") == None
    ensures ParseNumber("--1") == None
    ensures ParseNumber("+-3") == None
    ensures ParseNumber("1 2") == None
  {
    assert !AllDigits("1x2") by { assert !IsDigit("1x2"[1]); }
    assert !AllDigits("-1") by { assert !IsDigit("-1"[0]); }
    assert !AllDigits("-3") by { assert !IsDigit("-3"[0]); }
    assert !AllDigits("1 2") by { assert !IsDigit("1 2"[1]); }
    TrimUnchanged("1x2");
    TrimUnchanged("--1");
    TrimUnchanged("+-3");
    TrimUnchanged("1 2");
    assert "--1"[1..] == "-1";
    assert "+-3"[1..] == "-3";
  }

  /** A leading zero does not change the value of a digit sequence. */
  lemma {:induction false} LeadingZeroValue(d: string)
    requires AllDigits(d)
    ensures AllDigits("0" + d) && DigitsValue("0" + d) == DigitsValue(d)
    decreases |d|
  {
    var z := "0" + d;
    assert AllDigits(z) by {
      assert forall i | 1 <= i < |z| :: z[i] == d[i - 1];
    }
    if d != [] {
      var init := d[..|d| - 1];
      assert z[..|z| - 1] == "0" + init;
      assert z[|z| - 1] == d[|d| - 1];
      LeadingZeroValue(init);
    }
  }

  /** No digit is white space. */
  lemma DigitNotSpace(c: char)
    requires IsDigit(c)
    ensures !IsJsSpace(c)
  {
  }

  /** A sign followed by at least one digit is its own trim. */
  lemma SignedDigitsTrim(sign: char, d: string)
    requires sign == '+' || sign == '-'
    requires d != [] && AllDigits(d)
    ensures Trim([sign] + d) == [sign] + d
  {
    var t := [sign] + d;
    var last := d[|d| - 1];
    assert t[|t| - 1] == last;
    DigitNotSpace(last);
    TrimUnchanged(t);
  }

  /** A sign followed by at least one digit reads as the digits' value, negated
      for a minus sign. */
  lemma SignedDigitsValue(sign: char, d: string)
    requires sign == '+' || sign == '-'
    requires d != [] && AllDigits(d)
    ensures ParseNumber([sign] + d)
            == Some(if sign == '-' then -(DigitsValue(d) as int) else DigitsValue(d))
  {
    SignedDigitsTrim(sign, d);
    assert ([sign] + d)[1..] == d;
  }

  /** A plus sign in front of a natural number's digits reads as the number. */
  lemma PlusNatStringRoundTrip(n: nat)
    ensures ParseNumber("+" + NatString(n)) == Some(n)
  {
    SignedDigitsValue('+', NatString(n));
    NatStringRoundTrip(n);
  }

  /** A minus sign in front of a natural number's digits reads as its
      negation. */
  lemma MinusNatStringRoundTrip(n: nat)
    ensures ParseNumber("-" + NatString(n)) == Some(-(n as int))
  {
    SignedDigitsValue('-', NatString(n));
    NatStringRoundTrip(n);
  }

  /** At least one digit, unsigned, reads as the digits' value. */
  lemma DigitsParse(d: string)
    requires d != [] && AllDigits(d)
    ensures ParseNumber(d) == Some(DigitsValue(d))
  {
    DigitNotSpace(d[0]);
    DigitNotSpace(d[|d| - 1]);
    TrimUnchanged(d);
  }

  /** `Number` reads back exactly the integer whose text it is given. */
  lemma ParseIntStringRoundTrip(n: int)
    ensures ParseNumber(IntString(n)) == Some(n)
  {
    var s := IntString(n);
    if n < 0 {
      var d := s[1..];
      assert s == ['-'] + d;
      SignedDigitsValue('-', d);
    } else {
      assert s[0..] == s;
      DigitsParse(s);
    }
  }

  /** Neither the colon nor the minus sign is a digit, so an integer's text
      holds no colon, and a minus sign only in front. */
  lemma IntStringChars(n: int)
    ensures ':' !in IntString(n)
    ensures '-' !in IntString(n)[1..]
  {
    var s := IntString(n);
    if n >= 0 {
      assert forall i | 0 <= i < |s| :: IsDigit(s[i]);
    }
    assert forall i | 1 <= i < |s| :: IsDigit(s[i]) by {
      if n < 0 {
        assert forall i | 1 <= i < |s| :: s[i] == s[1..][i - 1];
      }
    }
  }
}
