/** Decimal numbers as Go prints them (%d) and reads them back (strconv.ParseInt(s, 10, 64), strconv.Atoi). */
module Decimal {
  import opened Wrappers

  const INT64_MAX := 0x7FFF_FFFF_FFFF_FFFF

  predicate IsDigit(c: char) {
    '0' <= c <= '9'
  }

  predicate AllDigits(s: string) {
    forall i :: 0 <= i < |s| ==> IsDigit(s[i])
  }

  function DigitChar(d: nat): (c: char)
    requires d < 10
    ensures IsDigit(c)
  {
    '0' + d as char
  }

  function Digits(n: nat): (s: string)
    ensures s != "" && AllDigits(s)
  {
    if n < 10 then [DigitChar(n)] else Digits(n / 10) + [DigitChar(n % 10)]
  }

  function DigitValue(c: char): nat
    requires IsDigit(c)
  {
    c as int - '0' as int
  }

  function Value(s: string): nat
    requires AllDigits(s)
  {
    if s == "" then 0 else 10 * Value(s[..|s| - 1]) + DigitValue(s[|s| - 1])
  }

  predicate IsInt64(v: int) {
    -INT64_MAX - 1 <= v <= INT64_MAX
  }

  function ParseMagnitude(digits: string, negative: bool): Option<int> {
    if digits == "" || !AllDigits(digits) then None
    else
      var magnitude: int := Value(digits);
      var n := if negative then -magnitude else magnitude;
      if IsInt64(n) then Some(n) else None
  }

  function ParseInt64(s: string): Option<int> {
    if s != "" && s[0] == '-' then ParseMagnitude(s[1..], true)
    else if s != "" && s[0] == '+' then ParseMagnitude(s[1..], false)
    else ParseMagnitude(s, false)
  }

  lemma {:induction false} ValueOfDigits(n: nat)
    ensures Value(Digits(n)) == n
  {
    if n >= 10 {
      ValueOfDigits(n / 10);
      assert Digits(n)[..|Digits(n)| - 1] == Digits(n / 10);
    }
  }

  lemma ParsesMagnitude(n: nat, negative: bool)
    ensures var v: int := if negative then -(n as int) else n;
      ParseMagnitude(Digits(n), negative) == if IsInt64(v) then Some(v) else None
  {
    ValueOfDigits(n);
  }

  /** An integer as %d prints it. */
  function Printed(v: int): string {
    if v < 0 then "-" + Digits(-v) else Digits(v)
  }

  lemma SignIsRead(digits: string)
    ensures ParseInt64("-" + digits) == ParseMagnitude(digits, true)
  {
    assert ("-" + digits)[1..] == digits;
  }

  /** A printed integer is read back exactly within 64 bits. */
  lemma ParsesPrinted(v: int)
    ensures ParseInt64(Printed(v)) == if IsInt64(v) then Some(v) else None
  {
    if v < 0 {
      ParsesMagnitude(-v, true);
      SignIsRead(Digits(-v));
    } else {
      ParsesMagnitude(v, false);
      assert IsDigit(Digits(v)[0]);
    }
  }

  /** A printed integer has no white space. */
  lemma PrintedCharacters(v: int)
    ensures Printed(v) != "" && forall i :: 0 <= i < |Printed(v)| ==> IsDigit(Printed(v)[i]) || Printed(v)[i] == '-'
  {
  }

  lemma {:induction false} LeadingZeros(zeros: nat, digits: string)
    requires AllDigits(digits)
    ensures AllDigits(seq(zeros, _ => '0') + digits) && Value(seq(zeros, _ => '0') + digits) == Value(digits)
    decreases zeros + |digits|
  {
    var s := seq(zeros, _ => '0') + digits;
    if digits != "" {
      assert s[..|s| - 1] == seq(zeros, _ => '0') + digits[..|digits| - 1];
      LeadingZeros(zeros, digits[..|digits| - 1]);
    } else if zeros > 0 {
      assert s[..|s| - 1] == seq(zeros - 1, _ => '0') + digits;
      LeadingZeros(zeros - 1, digits);
    }
  }

  lemma ParsesSigned(body: string, v: int)
    requires body != "" && AllDigits(body) && Value(body) == v
    ensures ParseInt64(body) == ParseInt64("+" + body) == if IsInt64(v) then Some(v) else None
    ensures ParseInt64("-" + body) == if IsInt64(-v) then Some(-v) else None
  {
    assert ("+" + body)[1..] == body && ("-" + body)[1..] == body;
    assert IsDigit(body[0]);
  }

  /** A sign and leading zeros are accepted. */
  lemma ParsesPadded(n: nat, zeros: nat)
    ensures var v: int, body := n, seq(zeros, _ => '0') + Digits(n);
      && ParseInt64(body) == ParseInt64("+" + body) == (if IsInt64(v) then Some(v) else None)
      && ParseInt64("-" + body) == if IsInt64(-v) then Some(-v) else None
  {
    LeadingZeros(zeros, Digits(n));
    ValueOfDigits(n);
    ParsesSigned(seq(zeros, _ => '0') + Digits(n), n);
  }

  /** Nothing but digits behind the sign is accepted. */
  lemma ParsesOnlyDigits(s: string)
    requires ParseInt64(s).Some?
    ensures s != "" && (s[0] in "+-" || IsDigit(s[0])) && |s| > (if s[0] in "+-" then 1 else 0)
    ensures forall i :: 1 <= i < |s| ==> IsDigit(s[i])
  {
    var body := if s[0] in "+-" then s[1..] else s;
    assert AllDigits(body) && body != "";
    forall i | 1 <= i < |s|
      ensures IsDigit(s[i])
    {
      assert s[i] == body[if s[0] in "+-" then i - 1 else i];
    }
  }
}
