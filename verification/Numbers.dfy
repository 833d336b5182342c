/**
 * Numbers in text: strtoul() and strtol() of section 7.22.1.4 of ISO/IEC 9899:2011,
 * as their wrappers use them: the whole text must be one numeral.
 */
module Numbers {
  import opened Text

  const ULONG_MAX: nat := 0xFFFF_FFFF_FFFF_FFFF
  const LONG_MAX: int := 0x7FFF_FFFF_FFFF_FFFF

  /** The value of a digit in bases up to 16, or 16 for any other character. */
  function Digit(c: char): nat {
    if '0' <= c <= '9' then c as int - '0' as int
    else if 'a' <= c <= 'f' then c as int - 'a' as int + 10
    else if 'A' <= c <= 'F' then c as int - 'A' as int + 10
    else 16
  }

  predicate IsDigits(s: string, base: nat) {
    s != "" && forall i :: 0 <= i < |s| ==> Digit(s[i]) < base
  }

  function DigitsValue(s: string, base: nat): nat {
    if s == "" then 0 else DigitsValue(s[..|s| - 1], base) * base + Digit(s[|s| - 1])
  }

  datatype Numeral = Numeral(negative: bool, magnitude: nat)

  function Unsigned(s: string): string {
    if s != "" && (s[0] == '-' || s[0] == '+') then s[1..] else s
  }

  function WithoutBase(s: string, base: nat): string {
    if base == 16 && |s| >= 2 && s[0] == '0' && (s[1] == 'x' || s[1] == 'X') then s[2..] else s
  }

  /** Leading white space, an optional sign, an optional 0x in base 16, and digits. */
  function ParseNumeral(s: string, base: nat): Option<Numeral> {
    NumeralAt(SkipSpaces(s), base)
  }

  function NumeralAt(body: string, base: nat): Option<Numeral> {
    var digits := WithoutBase(Unsigned(body), base);
    if IsDigits(digits, base) then Some(Numeral(body[..1] == "-", DigitsValue(digits, base)))
    else None
  }

  /** The 64-bit word of a number, most significant bits first. */
  function Word(n: nat): bv64 {
    if n == 0 then 0 else (Word(n / 2) << 1) | (if n % 2 == 1 then 1 else 0)
  }

  /** The unsigned long that strtoul() makes of a numeral: a negative one wraps around. */
  function ToMask(numeral: Option<Numeral>): Result<bv64> {
    match numeral
    case None => Err(EINVAL)
    case Some(n) =>
      if n.magnitude > ULONG_MAX then Err(ERANGE)
      else
        Ok(if n.negative then 0 - Word(n.magnitude) else Word(n.magnitude))
  }

  /** strtoul() in base 16. */
  function Strtoul16(s: string): Result<bv64> {
    ToMask(ParseNumeral(s, 16))
  }

  /** strtol() in base 10. */
  function Strtol10(s: string): Result<int> {
    match ParseNumeral(s, 10)
    case None => Err(EINVAL)
    case Some(n) =>
      var v: int := if n.negative then 0 - n.magnitude as int else n.magnitude;
      if -LONG_MAX - 1 <= v <= LONG_MAX then Ok(v) else Err(ERANGE)
  }

  /** Blanks in front of a number do not change it. */
  lemma {:induction false} BlanksBeforeNumber(blanks: string, s: string, base: nat)
    requires AllSpaces(blanks)
    ensures ParseNumeral(blanks + s, base) == ParseNumeral(s, base)
  {
    SkipLeading(blanks, s);
  }

  // ---- Printing numbers, to hold the parsing against ----

  const DECIMAL_DIGITS := "0123456789"
  const HEX_DIGITS := "0123456789abcdef"
  const UPPER_HEX_DIGITS := "0123456789ABCDEF"

  /** A number written with some digits, most significant first. */
  function Printed(n: nat, digits: string): string
    requires |digits| >= 2
  {
    if n < |digits| then [digits[n]] else Printed(n / |digits|, digits) + [digits[n % |digits|]]
  }

  function Decimal(n: nat): string {
    Printed(n, DECIMAL_DIGITS)
  }

  function Hex(n: nat): string {
    Printed(n, HEX_DIGITS)
  }

  function UpperHex(n: nat): string {
    Printed(n, UPPER_HEX_DIGITS)
  }

  /** The digit characters are read as their places in the tables, and no other is a digit. */
  lemma {:induction false} DigitIs(c: char, i: nat)
    requires i < 16
    ensures Digit(c) == i <==> c == HEX_DIGITS[i] || c == UPPER_HEX_DIGITS[i]
    ensures i < 10 ==> (Digit(c) == i <==> c == DECIMAL_DIGITS[i])
  {
  }

  lemma {:induction false} Tables(i: nat)
    requires i < 16
    ensures Digit(HEX_DIGITS[i]) == i && Digit(UPPER_HEX_DIGITS[i]) == i
    ensures i < 10 ==> Digit(DECIMAL_DIGITS[i]) == i
  {
    DigitIs(HEX_DIGITS[i], i);
    DigitIs(UPPER_HEX_DIGITS[i], i);
    if i < 10 {
      DigitIs(DECIMAL_DIGITS[i], i);
    }
  }

  /** A table whose digits are read as their places. */
  predicate IsTable(digits: string) {
    |digits| >= 2 && forall i :: 0 <= i < |digits| ==> Digit(digits[i]) == i
  }

  lemma {:induction false} AreTables()
    ensures IsTable(DECIMAL_DIGITS) && IsTable(HEX_DIGITS) && IsTable(UPPER_HEX_DIGITS)
    ensures |DECIMAL_DIGITS| == 10 && |HEX_DIGITS| == |UPPER_HEX_DIGITS| == 16
  {
    forall i | 0 <= i < 16
      ensures Digit(HEX_DIGITS[i]) == i && Digit(UPPER_HEX_DIGITS[i]) == i
      ensures i < 10 ==> Digit(DECIMAL_DIGITS[i]) == i
    {
      Tables(i);
    }
  }

  lemma {:induction false} LastDigit(front: string, c: char, base: nat)
    ensures DigitsValue(front + [c], base) == DigitsValue(front, base) * base + Digit(c)
  {
    assert (front + [c])[..|front|] == front;
  }

  /** What is printed is digits, and they have the value that was printed. */
  lemma {:induction false} PrintedIsRead(n: nat, digits: string)
    requires IsTable(digits)
    ensures IsDigits(Printed(n, digits), |digits|)
    ensures DigitsValue(Printed(n, digits), |digits|) == n
  {
    var base := |digits|;
    if n < base {
      LastDigit("", digits[n], base);
      assert "" + [digits[n]] == [digits[n]];
    } else {
      var q, d := PrintedParts(n, digits, base);
      PrintedIsRead(q, digits);
      DigitsSnoc(Printed(q, digits), digits[d], base, q, d);
    }
  }

  lemma {:induction false} PrintedParts(n: nat, digits: string, base: nat) returns (q: nat, d: nat)
    requires base == |digits| >= 2 && n >= base
    ensures q < n && d < base && n == q * base + d
    ensures Printed(n, digits) == Printed(q, digits) + [digits[d]]
  {
    q, d := n / base, n % base;
  }

  lemma {:induction false} DigitsSnoc(front: string, c: char, base: nat, q: nat, d: nat)
    requires IsDigits(front, base) && DigitsValue(front, base) == q && Digit(c) == d < base
    ensures IsDigits(front + [c], base)
    ensures DigitsValue(front + [c], base) == q * base + d
  {
    LastDigit(front, c, base);
  }

  predicate AllZeros(s: string) {
    forall i :: 0 <= i < |s| ==> s[i] == '0'
  }

  lemma {:induction false} LeadingZeros(zeros: string, s: string, base: nat)
    requires AllZeros(zeros) && base > 0
    ensures DigitsValue(zeros + s, base) == DigitsValue(s, base)
    ensures IsDigits(s, base) ==> IsDigits(zeros + s, base)
  {
    if s == "" {
      assert zeros + s == zeros;
      ZerosValue(zeros, base);
    } else {
      var front, last := s[..|s| - 1], s[|s| - 1];
      LeadingZeros(zeros, front, base);
      assert zeros + s == (zeros + front) + [last];
      LastDigit(zeros + front, last, base);
    }
  }

  lemma {:induction false} ZerosValue(zeros: string, base: nat)
    requires AllZeros(zeros)
    ensures DigitsValue(zeros, base) == 0
  {
    if zeros != "" {
      ZerosValue(zeros[..|zeros| - 1], base);
    }
  }

  predicate IsSign(s: string) {
    s == "" || s == "+" || s == "-"
  }

  predicate IsBasePrefix(s: string, base: nat) {
    s == "" || (base == 16 && (s == "0x" || s == "0X"))
  }

  /** Blanks, a sign, the base prefix and digits are read as the value of the digits. */
  lemma {:induction false} NumeralParts(blanks: string, sign: string, prefix: string, digits: string, base: nat)
    requires AllSpaces(blanks) && IsSign(sign) && IsBasePrefix(prefix, base) && IsDigits(digits, base) && base <= 16
    ensures ParseNumeral(blanks + (sign + (prefix + digits)), base)
         == Some(Numeral(sign == "-", DigitsValue(digits, base)))
  {
    var body, plain := sign + (prefix + digits), prefix + digits;
    SkipLeading(blanks, body);
    assert Digit(digits[0]) < base;
    assert !IsSpace(body[0]) && SkipSpaces(body) == body;
    assert Unsigned(body) == plain;
    PrefixTaken(prefix, digits, base);
    assert body[..1] == "-" <==> sign == "-";
  }

  lemma {:induction false} PrefixTaken(prefix: string, digits: string, base: nat)
    requires IsBasePrefix(prefix, base) && IsDigits(digits, base) && base <= 16
    ensures WithoutBase(prefix + digits, base) == digits
  {
    if prefix == "" {
      assert prefix + digits == digits;
      assert |digits| >= 2 ==> Digit(digits[1]) < base;
    } else {
      assert (prefix + digits)[2..] == digits;
    }
  }

  /** Nothing else is a numeral. */
  lemma {:induction false} NumeralOnly(s: string, base: nat)
    returns (blanks: string, sign: string, prefix: string, digits: string)
    requires ParseNumeral(s, base).Some?
    ensures AllSpaces(blanks) && IsSign(sign) && IsBasePrefix(prefix, base) && IsDigits(digits, base)
    ensures s == blanks + (sign + (prefix + digits))
  {
    blanks := SkippedSpaces(s);
    var plain;
    sign, plain := SignOf(SkipSpaces(s));
    prefix, digits := PrefixOf(plain, base);
  }

  lemma {:induction false} SignOf(body: string) returns (sign: string, plain: string)
    ensures IsSign(sign) && body == sign + plain && plain == Unsigned(body)
  {
    plain := Unsigned(body);
    sign := if plain == body then "" else [body[0]];
  }

  lemma {:induction false} PrefixOf(plain: string, base: nat) returns (prefix: string, digits: string)
    ensures IsBasePrefix(prefix, base) && plain == prefix + digits && digits == WithoutBase(plain, base)
  {
    digits := WithoutBase(plain, base);
    prefix := if digits == plain then "" else [plain[0], plain[1]];
  }

  /** strtoul() reads back what was printed in base 16. */
  lemma {:induction false} HexRead(blanks: string, sign: string, prefix: string, zeros: string, n: nat, digits: string)
    requires AllSpaces(blanks) && IsSign(sign) && IsBasePrefix(prefix, 16) && AllZeros(zeros)
    requires digits == Hex(n) || digits == UpperHex(n)
    ensures Strtoul16(blanks + (sign + (prefix + (zeros + digits))))
         == if n > ULONG_MAX then Err(ERANGE) else Ok(if sign == "-" then 0 - Word(n) else Word(n))
  {
    AreTables();
    PrintedIsRead(n, HEX_DIGITS);
    PrintedIsRead(n, UPPER_HEX_DIGITS);
    LeadingZeros(zeros, digits, 16);
    NumeralParts(blanks, sign, prefix, zeros + digits, 16);
    MaskOfNumeral(blanks + (sign + (prefix + (zeros + digits))), Numeral(sign == "-", n));
  }

  lemma {:induction false} MaskOfNumeral(s: string, numeral: Numeral)
    requires ParseNumeral(s, 16) == Some(numeral)
    ensures numeral.magnitude > ULONG_MAX ==> Strtoul16(s) == Err(ERANGE)
    ensures numeral.magnitude <= ULONG_MAX && !numeral.negative ==> Strtoul16(s) == Ok(Word(numeral.magnitude))
    ensures numeral.magnitude <= ULONG_MAX && numeral.negative ==> Strtoul16(s) == Ok(0 - Word(numeral.magnitude))
  {
  }

  lemma {:induction false} DecimalParsed(blanks: string, sign: string, zeros: string, n: nat)
    requires AllSpaces(blanks) && IsSign(sign) && AllZeros(zeros)
    ensures ParseNumeral(blanks + (sign + (zeros + Decimal(n))), 10) == Some(Numeral(sign == "-", n))
  {
    AreTables();
    PrintedIsRead(n, DECIMAL_DIGITS);
    LeadingZeros(zeros, Decimal(n), 10);
    NumeralParts(blanks, sign, "", zeros + Decimal(n), 10);
    assert "" + (zeros + Decimal(n)) == zeros + Decimal(n);
  }

  /** strtol() reads back what was printed in base 10. */
  lemma {:induction false} DecimalRead(blanks: string, sign: string, zeros: string, n: nat)
    requires AllSpaces(blanks) && IsSign(sign) && AllZeros(zeros)
    ensures var v: int := if sign == "-" then 0 - n as int else n;
            Strtol10(blanks + (sign + (zeros + Decimal(n))))
            == if -LONG_MAX - 1 <= v <= LONG_MAX then Ok(v) else Err(ERANGE)
  {
    DecimalParsed(blanks, sign, zeros, n);
    LongOfNumeral(blanks + (sign + (zeros + Decimal(n))), Numeral(sign == "-", n));
  }

  lemma {:induction false} LongOfNumeral(s: string, numeral: Numeral)
    requires ParseNumeral(s, 10) == Some(numeral)
    ensures var v: int := if numeral.negative then 0 - numeral.magnitude as int else numeral.magnitude;
            Strtol10(s) == if -LONG_MAX - 1 <= v <= LONG_MAX then Ok(v) else Err(ERANGE)
  {
  }

  lemma {:induction false} NothingAround(prefix: string, digits: string)
    ensures "" + ("" + (prefix + ("" + digits))) == prefix + digits
  {
    assert "" + digits == digits;
    assert "" + (prefix + digits) == prefix + digits;
  }

  /** The plain form of a mask. */
  lemma {:induction false} PlainHexRead(n: nat)
    ensures Strtoul16("0x" + Hex(n)) == if n > 0xFFFF_FFFF_FFFF_FFFF then Err(ERANGE) else Ok(Word(n))
    ensures Strtoul16("0x" + UpperHex(n)) == if n > 0xFFFF_FFFF_FFFF_FFFF then Err(ERANGE) else Ok(Word(n))
  {
    HexRead("", "", "0x", "", n, Hex(n));
    HexRead("", "", "0x", "", n, UpperHex(n));
    NothingAround("0x", Hex(n));
    NothingAround("0x", UpperHex(n));
  }

  /** The plain form of a decimal number. */
  lemma {:induction false} PlainDecimalRead(n: nat)
    ensures Strtol10(Decimal(n)) == if n <= 0x7FFF_FFFF_FFFF_FFFF then Ok(n) else Err(ERANGE)
  {
    DecimalRead("", "", "", n);
    assert "" + ("" + ("" + Decimal(n))) == Decimal(n);
  }
}
