/**
  Unsigned 32-bit container codes and their decimal text: how C# interpolation
  prints a `uint`, and how `uint.TryParse` reads one back.
 */
module Decimal {
  import opened Wrappers

  newtype uint32 = x: int | 0 <= x < 0x1_0000_0000

  const UInt32Bound: nat := 0x1_0000_0000

  predicate IsDigit(c: char) {
    '0' <= c <= '9'
  }

  predicate AllDigits(s: string) {
    forall i :: 0 <= i < |s| ==> IsDigit(s[i])
  }

  function DigitChar(d: nat): (c: char)
    requires d < 10
    ensures IsDigit(c) && (c as int) - ('0' as int) == d
  {
    (('0' as int) + d) as char
  }

  /** The number a string of decimal digits denotes (leading zeros allowed). */
  function DigitsValue(s: string): nat
    requires AllDigits(s)
  {
    if s == [] then 0
    else DigitsValue(s[..|s| - 1]) * 10 + ((s[|s| - 1] as int) - ('0' as int))
  }

  /** Decimal text of `n`: no sign, no leading zeros, no grouping. */
  function DecimalString(n: nat): (s: string)
    ensures |s| > 0 && AllDigits(s)
    decreases n
  {
    if n < 10 then [DigitChar(n)] else DecimalString(n / 10) + [DigitChar(n % 10)]
  }

  /** White space as `uint.TryParse` skips it: U+0009 to U+000D and the space. */
  predicate IsWhiteSpace(c: char) {
    c == ' ' || '\t' <= c <= '\r'
  }

  predicate AllWhiteSpace(s: string) {
    forall i :: 0 <= i < |s| ==> IsWhiteSpace(s[i])
  }

  /** How many white-space characters `s` starts with. */
  function LeadingWhiteSpace(s: string): (n: nat)
    ensures n <= |s|
    ensures forall i :: 0 <= i < n ==> IsWhiteSpace(s[i])
    ensures n < |s| ==> !IsWhiteSpace(s[n])
  {
    if s == [] || !IsWhiteSpace(s[0]) then 0 else 1 + LeadingWhiteSpace(s[1..])
  }

  /** How many white-space characters `s` ends with. */
  function TrailingWhiteSpace(s: string): (n: nat)
    ensures n <= |s|
    ensures forall i :: |s| - n <= i < |s| ==> IsWhiteSpace(s[i])
    ensures n < |s| ==> !IsWhiteSpace(s[|s| - 1 - n])
  {
    if s == [] || !IsWhiteSpace(s[|s| - 1]) then 0 else 1 + TrailingWhiteSpace(s[..|s| - 1])
  }

  /** `s` without its leading and trailing white space. */
  function Trim(s: string): string {
    var rest := s[LeadingWhiteSpace(s)..];
    rest[..|rest| - TrailingWhiteSpace(rest)]
  }

  /**
    `uint.TryParse` on text that has no leading or trailing white space: an
    optional `+` or `-`, then at least one digit. A value of 2^32 or more
    overflows, and so does a minus sign before anything but zeros.
   */
  function ParseSignedDigits(t: string): Option<uint32> {
    var negative := |t| > 0 && t[0] == '-';
    var digits := if |t| > 0 && (t[0] == '+' || t[0] == '-') then t[1..] else t;
    if |digits| > 0 && AllDigits(digits) && DigitsValue(digits) < UInt32Bound && (!negative || DigitsValue(digits) == 0)
    then Some(DigitsValue(digits) as uint32)
    else None
  }

  /**
    `uint.TryParse(s, out code)`, which parses with `NumberStyles.Integer`:
    optional white space, an optional sign, digits, optional white space.
   */
  function ParseUInt32(s: string): (r: Option<uint32>)
    ensures AllDigits(s) ==> (r.Some? <==> |s| > 0 && DigitsValue(s) < UInt32Bound)
    ensures AllDigits(s) && r.Some? ==> r.value as int == DigitsValue(s)
  {
    TrimOfDigits(s);
    ParseSignedDigits(Trim(s))
  }

  /** A text with no white space at either end is its own trimmed form. */
  lemma TrimOfUnpadded(s: string)
    requires s == [] || (!IsWhiteSpace(s[0]) && !IsWhiteSpace(s[|s| - 1]))
    ensures Trim(s) == s
  {
    assert LeadingWhiteSpace(s) == 0;
    assert s[0..] == s;
    assert TrailingWhiteSpace(s) == 0;
  }

  /** A run of digits has no white space to trim. */
  lemma TrimOfDigits(s: string)
    ensures AllDigits(s) ==> Trim(s) == s
  {
    if AllDigits(s) && s != [] {
      assert IsDigit(s[0]) && IsDigit(s[|s| - 1]);
      TrimOfUnpadded(s);
    } else if s == [] {
      TrimOfUnpadded(s);
    }
  }

  /** White space before a text that does not start with white space is counted exactly. */
  lemma {:induction false} LeadingWhiteSpaceOfPadded(lead: string, rest: string)
    requires AllWhiteSpace(lead)
    requires rest == [] || !IsWhiteSpace(rest[0])
    ensures LeadingWhiteSpace(lead + rest) == |lead|
  {
    if lead == [] {
      assert lead + rest == rest;
    } else {
      assert (lead + rest)[1..] == lead[1..] + rest;
      LeadingWhiteSpaceOfPadded(lead[1..], rest);
    }
  }

  /** White space after a text that does not end with white space is counted exactly. */
  lemma {:induction false} TrailingWhiteSpaceOfPadded(rest: string, trail: string)
    requires AllWhiteSpace(trail)
    requires rest == [] || !IsWhiteSpace(rest[|rest| - 1])
    ensures TrailingWhiteSpace(rest + trail) == |trail|
  {
    if trail == [] {
      assert rest + trail == rest;
    } else {
      assert (rest + trail)[..|rest + trail| - 1] == rest + trail[..|trail| - 1];
      TrailingWhiteSpaceOfPadded(rest, trail[..|trail| - 1]);
    }
  }

  /** Trimming removes exactly the padding around a text that has none of its own. */
  lemma TrimOfPadded(lead: string, core: string, trail: string)
    requires AllWhiteSpace(lead) && AllWhiteSpace(trail)
    requires |core| > 0 && !IsWhiteSpace(core[0]) && !IsWhiteSpace(core[|core| - 1])
    ensures Trim(lead + core + trail) == core
  {
    var s := lead + core + trail;
    assert s == lead + (core + trail);
    assert (core + trail)[0] == core[0];
    LeadingWhiteSpaceOfPadded(lead, core + trail);
    assert s[|lead|..] == core + trail;
    TrailingWhiteSpaceOfPadded(core, trail);
    assert (core + trail)[..|core|] == core;
  }

  /** Regrouping a concatenation of four texts. */
  lemma Associate(a: string, b: string, c: string, d: string)
    ensures a + b + c + d == a + (b + c) + d
    ensures a + b + c + d == a + ((b + c) + d)
  {
  }

  /** After trimming: an optional sign, then digits. */
  lemma ParseSignedDigitsOf(sign: string, digits: string)
    requires sign == "" || sign == "+" || sign == "-"
    requires |digits| > 0 && AllDigits(digits)
    ensures var r := ParseSignedDigits(sign + digits);
      && (r.Some? <==> DigitsValue(digits) < UInt32Bound && (sign == "-" ==> DigitsValue(digits) == 0))
      && (r.Some? ==> r.value as int == DigitsValue(digits))
  {
    var t := sign + digits;
    if sign == "" {
      assert t == digits;
      assert t[0] != '+' && t[0] != '-' by { assert IsDigit(digits[0]); }
    } else {
      assert t[0] == sign[0] && t[1..] == digits;
    }
  }

  /**
    Every text of the `NumberStyles.Integer` form parses exactly when its
    digits fit in 32 bits and a minus sign stands only before zeros; the code
    is then the digits' value.
   */
  lemma ParseUInt32Accepts(lead: string, sign: string, digits: string, trail: string)
    requires AllWhiteSpace(lead) && AllWhiteSpace(trail)
    requires sign == "" || sign == "+" || sign == "-"
    requires |digits| > 0 && AllDigits(digits)
    ensures var r := ParseUInt32(lead + sign + digits + trail);
      && (r.Some? <==> DigitsValue(digits) < UInt32Bound && (sign == "-" ==> DigitsValue(digits) == 0))
      && (r.Some? ==> r.value as int == DigitsValue(digits))
  {
    var core := sign + digits;
    Associate(lead, sign, digits, trail);
    assert core[|core| - 1] == digits[|digits| - 1];
    assert IsDigit(core[0]) || core[0] == '+' || core[0] == '-' by {
      if sign == "" { assert core[0] == digits[0]; } else { assert core[0] == sign[0]; }
    }
    TrimOfPadded(lead, core, trail);
    ParseSignedDigitsOf(sign, digits);
  }

  /**
    Conversely, every text that parses has that form: white space, at most one
    sign, digits whose value is the code, white space.
   */
  lemma ParseUInt32Sound(s: string) returns (lead: string, sign: string, digits: string, trail: string)
    requires ParseUInt32(s).Some?
    ensures s == lead + sign + digits + trail
    ensures AllWhiteSpace(lead) && AllWhiteSpace(trail)
    ensures sign == "" || sign == "+" || sign == "-"
    ensures |digits| > 0 && AllDigits(digits)
    ensures ParseUInt32(s).value as int == DigitsValue(digits)
    ensures sign == "-" ==> DigitsValue(digits) == 0
  {
    var n := LeadingWhiteSpace(s);
    var rest := s[n..];
    var m := TrailingWhiteSpace(rest);
    var t := rest[..|rest| - m];
    lead, trail := s[..n], rest[|rest| - m..];
    LeadingWhiteSpaceIsWhite(s);
    TrailingWhiteSpaceIsWhite(rest);
    sign, digits := SignedDigitsSound(t);
    SplitAt(s, n);
    SplitAt(rest, |rest| - m);
    Associate(lead, sign, digits, trail);
  }

  /** The leading white space counted is white space. */
  lemma LeadingWhiteSpaceIsWhite(s: string)
    ensures AllWhiteSpace(s[..LeadingWhiteSpace(s)])
  {
    var n := LeadingWhiteSpace(s);
    var head := s[..n];
    forall i | 0 <= i < n ensures IsWhiteSpace(head[i]) {
      assert head[i] == s[i];
    }
  }

  /** The trailing white space counted is white space. */
  lemma TrailingWhiteSpaceIsWhite(s: string)
    ensures AllWhiteSpace(s[|s| - TrailingWhiteSpace(s)..])
  {
    var n := TrailingWhiteSpace(s);
    var tail := s[|s| - n..];
    forall i | 0 <= i < n ensures IsWhiteSpace(tail[i]) {
      assert tail[i] == s[|s| - n + i];
    }
  }

  /** A trimmed text that parses is an optional sign followed by digits. */
  lemma SignedDigitsSound(t: string) returns (sign: string, digits: string)
    requires ParseSignedDigits(t).Some?
    ensures t == sign + digits
    ensures sign == "" || sign == "+" || sign == "-"
    ensures |digits| > 0 && AllDigits(digits)
    ensures ParseSignedDigits(t).value as int == DigitsValue(digits)
    ensures sign == "-" ==> DigitsValue(digits) == 0
  {
    if t[0] == '+' || t[0] == '-' {
      sign, digits := t[..1], t[1..];
      SplitAt(t, 1);
      assert sign == [t[0]];
    } else {
      sign, digits := "", t;
      assert sign + digits == t;
    }
  }

  /** A text is its prefix followed by the rest. */
  lemma SplitAt(s: string, n: nat)
    requires n <= |s|
    ensures s == s[..n] + s[n..]
  {
  }

  /** Reading back the decimal text of a number gives the number. */
  lemma {:induction false} DigitsValueOfDecimalString(n: nat)
    ensures DigitsValue(DecimalString(n)) == n
    decreases n
  {
    var s := DecimalString(n);
    if n >= 10 {
      DigitsValueOfDecimalString(n / 10);
      assert s[..|s| - 1] == DecimalString(n / 10);
    }
  }

  /** Printing a code and parsing the text returns the code. */
  lemma ParseDecimalString(code: uint32)
    ensures ParseUInt32(DecimalString(code as nat)) == Some(code)
  {
    DigitsValueOfDecimalString(code as nat);
  }

  /** Two different codes never print the same. */
  lemma DecimalStringInjective(a: uint32, b: uint32)
    requires DecimalString(a as nat) == DecimalString(b as nat)
    ensures a == b
  {
    ParseDecimalString(a);
    ParseDecimalString(b);
  }

  /** Leading zeros are accepted; the empty text is not. */
  lemma LeadingZerosAccepted()
    ensures ParseUInt32("007") == Some(7 as uint32) && ParseUInt32("7") == Some(7 as uint32)
    ensures ParseUInt32("") == None
  {
    SmallDigitValues();
  }

  /** The values of the short digit texts used in the examples. */
  lemma SmallDigitValues()
    ensures AllDigits("007") && DigitsValue("007") == 7
    ensures AllDigits("7") && DigitsValue("7") == 7
    ensures AllDigits("0") && DigitsValue("0") == 0
  {
    assert "007"[..2] == "00" && "00"[..1] == "0" && "0"[..0] == "";
    assert "7"[..0] == "";
  }

  /** A plus sign is accepted. */
  lemma PlusSignAccepted()
    ensures ParseUInt32("+7") == Some(7 as uint32)
  {
    ParseUInt32Accepts("", "+", "7", "");
    assert "" + "+" + "7" + "" == "+7";
    SmallDigitValues();
  }

  /** A minus sign is accepted before zero only. */
  lemma MinusSignAccepted()
    ensures ParseUInt32("-0") == Some(0 as uint32)
    ensures ParseUInt32("-7") == None
  {
    ParseUInt32Accepts("", "-", "0", "");
    assert "" + "-" + "0" + "" == "-0";
    SmallDigitValues();
    ParseUInt32Accepts("", "-", "7", "");
    assert "" + "-" + "7" + "" == "-7";
    SmallDigitValues();
  }

  /** White space around the number is skipped. */
  lemma WhiteSpaceAccepted()
    ensures ParseUInt32(" 7\t") == Some(7 as uint32)
  {
    ParseUInt32Accepts(" ", "", "7", "\t");
    assert " " + "" + "7" + "\t" == " 7\t";
    SmallDigitValues();
  }

  /** White space between the sign and the digits is not accepted. */
  lemma WhiteSpaceAfterSignRejected()
    ensures ParseUInt32("+ 7") == None
  {
    TrimOfUnpadded("+ 7");
    assert "+ 7"[0] == '+' && "+ 7"[1..] == " 7";
    assert !AllDigits(" 7") by { assert " 7"[0] == ' ' && !IsDigit(' '); }
  }

  /** The largest code parses; one more does not fit in 32 bits. */
  lemma UInt32Limits()
    ensures ParseUInt32("4294967295") == Some(4294967295 as uint32)
    ensures ParseUInt32("4294967296") == None
  {
    TenDigitValues();
    assert AllDigits("4294967295") && AllDigits("4294967296");
  }

  /** The values of the two ten-digit texts around 2^32. */
  lemma TenDigitValues()
    ensures DigitsValue("4294967295") == 4294967295
    ensures DigitsValue("4294967296") == 4294967296
  {
    NineDigitPrefixValue();
    assert "4294967295"[..9] == "429496729";
    assert "4294967296"[..9] == "429496729";
  }

  /** Their common nine-digit prefix. */
  lemma NineDigitPrefixValue()
    ensures DigitsValue("429496729") == 429496729
  {
    assert "429496729"[..8] == "42949672";
    assert "42949672"[..7] == "4294967";
    assert "4294967"[..6] == "429496";
    assert "429496"[..5] == "42949";
    assert "42949"[..4] == "4294";
    assert "4294"[..3] == "429";
    assert "429"[..2] == "42";
    assert "42"[..1] == "4";
    assert "4"[..0] == "";
  }
}
