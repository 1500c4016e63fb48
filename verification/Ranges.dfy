/**
 Ranges of numbers: a value outside the range of its symbol is replaced by a bound. Values are 64-bit
 numbers, read with the library's strtoll and printed in decimal or hexadecimal.
 */
module Ranges {
  import opened Wrappers
  import opened Expressions
  import opened ConfigStrings
  import Bytes

  const MAX: int := 0x7fff_ffff_ffff_ffff
  const MIN: int := -0x8000_0000_0000_0000

  type Long = x: int | MIN <= x <= MAX

  datatype Base = Decimal | Hexadecimal
  {
    function Times(n: nat): nat {
      if Decimal? then 10 * n else 16 * n
    }

    function Front(n: nat): nat {
      if Decimal? then n / 10 else n / 16
    }

    function Last(n: nat): (d: nat)
      ensures d < 16 && n == Times(Front(n)) + d
    {
      if Decimal? then n % 10 else n % 16
    }

    predicate Digit(c: char) {
      if Decimal? then IsDigit(c) else IsHexDigit(c)
    }
  }

  // ----- reading -----

  function DigitValue(c: char): nat {
    if IsDigit(c) then (c as int) - ('0' as int)
    else if 'a' <= c <= 'f' then (c as int) - ('a' as int) + 10
    else if 'A' <= c <= 'F' then (c as int) - ('A' as int) + 10
    else 0
  }

  function ToNumber(s: string, base: Base): nat {
    if s == "" then 0 else base.Times(ToNumber(s[..|s| - 1], base)) + DigitValue(s[|s| - 1])
  }

  // The digits at the front.
  function Span(s: string, base: Base): (d: string)
    ensures forall i :: 0 <= i < |d| ==> base.Digit(d[i])
  {
    if s == "" || !base.Digit(s[0]) then "" else [s[0]] + Span(s[1..], base)
  }

  predicate IsSpace(c: char) {
    c == ' ' || '\t' <= c <= '\r'
  }

  function SkipSpace(s: string): string {
    if s == "" || !IsSpace(s[0]) then s else SkipSpace(s[1..])
  }

  function SkipSign(s: string): string {
    if s != "" && (s[0] == '-' || s[0] == '+') then s[1..] else s
  }

  // The prefix counts only if a digit follows it.
  function SkipPrefix(s: string, base: Base): string {
    if base == Hexadecimal && |s| > 2 && s[0] == '0' && (s[1] == 'x' || s[1] == 'X') && IsHexDigit(s[2])
    then s[2..] else s
  }

  function Saturated(n: int): Long {
    if n > MAX then MAX else if n < MIN then MIN else n
  }

  /** The number at the front of a text, or the nearest one of 64 bits. */
  function Strtoll(s: string, base: Base): Long {
    var t := SkipSpace(s);
    var n := ToNumber(Span(SkipPrefix(SkipSign(t), base), base), base);
    var value: int := if t != "" && t[0] == '-' then 0 - n else n;
    Saturated(value)
  }

  // ----- printing -----

  function DigitChar(d: nat): char
    requires d < 16
  {
    "0123456789abcdef"[d]
  }

  function Digits(n: nat, base: Base): (s: string)
    ensures s != ""
  {
    (if base.Front(n) == 0 then "" else Digits(base.Front(n), base)) + [DigitChar(base.Last(n))]
  }

  // The number whose digits are printed; hexadecimal numbers are taken as unsigned.
  function Magnitude(v: Long, base: Base): nat {
    if v >= 0 then v else if base == Decimal then 0 - v else v + Bytes.U64
  }

  /** `%lld` and `0x%llx`. */
  function PrintNumber(v: Long, base: Base): string {
    var d := Digits(Magnitude(v, base), base);
    if base == Hexadecimal then "0x" + d else if v < 0 then "-" + d else d
  }

  lemma DigitChars(n: nat, base: Base)
    ensures var c := DigitChar(base.Last(n));
            && base.Digit(c) && DigitValue(c) == base.Last(n) && (c == '0' <==> base.Last(n) == 0)
            && !IsSpace(c) && c != '-' && c != '+' && c != 'x' && c != 'X'
  {}

  /** Printed digits are digits, stand for the number, and do not begin with a needless zero. */
  lemma {:induction false} DigitsRead(n: nat, base: Base)
    ensures var s := Digits(n, base);
            AllPrinted(s, base) && ToNumber(s, base) == n && (s[0] == '0' ==> n == 0 && |s| == 1)
  {
    var front := if base.Front(n) == 0 then "" else Digits(base.Front(n), base);
    if base.Front(n) > 0 {
      DigitsRead(base.Front(n), base);
    }
    OneMoreDigit(front, n, base);
  }

  // One more digit at the end.
  lemma OneMoreDigit(front: string, n: nat, base: Base)
    requires AllPrinted(front, base) && ToNumber(front, base) == base.Front(n)
    ensures var s := front + [DigitChar(base.Last(n))]; AllPrinted(s, base) && ToNumber(s, base) == n
    ensures front == "" && DigitChar(base.Last(n)) == '0' ==> n == 0
  {
    DigitChars(n, base);
    assert (front + [DigitChar(base.Last(n))])[..|front|] == front;
  }

  predicate AllPrinted(s: string, base: Base) {
    forall i :: 0 <= i < |s| ==> base.Digit(s[i]) && s[i] != 'x' && s[i] != 'X'
  }

  lemma {:induction false} SpanAll(s: string, base: Base)
    requires forall i :: 0 <= i < |s| ==> base.Digit(s[i])
    ensures Span(s, base) == s
  {
    if s != "" {
      SpanAll(s[1..], base);
      assert [s[0]] + s[1..] == s;
    }
  }

  // What the reader makes of digits, after everything it may skip.
  lemma DigitsAreRead(n: nat, base: Base)
    ensures var s := Digits(n, base);
            && SkipSpace(s) == s && SkipSign(s) == s && SkipPrefix(s, base) == s
            && s[0] != '-' && ToNumber(Span(s, base), base) == n
  {
    DigitsRead(n, base);
    SpanAll(Digits(n, base), base);
  }

  /** A printed number is read back: always in decimal, in hexadecimal if it is not negative. */
  lemma PrintedIsRead(v: Long, base: Base)
    ensures Strtoll(PrintNumber(v, base), base) == if base == Decimal || v >= 0 then v else MAX
  {
    var n := Magnitude(v, base);
    DigitsAreRead(n, base);
    if base == Hexadecimal {
      HexIsRead(n);
    } else if v < 0 {
      assert ("-" + Digits(n, base))[1..] == Digits(n, base);
    }
  }

  lemma HexIsRead(n: nat)
    ensures Strtoll("0x" + Digits(n, Hexadecimal), Hexadecimal) == Saturated(n)
  {
    var d := Digits(n, Hexadecimal);
    DigitsAreRead(n, Hexadecimal);
    DigitsRead(n, Hexadecimal);
    assert ("0x" + d)[2..] == d;
  }

  function TypeOf(base: Base): SymbolType {
    if base == Decimal then TInt else THex
  }

  lemma DigitsAreDecimal(n: nat)
    ensures IsDecimal(Digits(n, Decimal)) && IsDecimal("-" + Digits(n, Decimal))
  {
    var d := Digits(n, Decimal);
    DigitsRead(n, Decimal);
    assert Decimal.Digit(d[0]);
    assert AllDigits(d);
    assert WithoutSign(d) == d && WithoutSign("-" + d) == d;
  }

  lemma DigitsAreHexadecimal(n: nat)
    ensures IsHexadecimal("0x" + Digits(n, Hexadecimal))
  {
    var d := Digits(n, Hexadecimal);
    DigitsRead(n, Hexadecimal);
    assert AllHexDigits(d);
    assert WithoutPrefix("0x" + d) == d;
  }

  /** A printed number is a value of its type. */
  lemma PrintedIsValid(v: Long, base: Base)
    ensures ValidText(TypeOf(base), PrintNumber(v, base))
  {
    if base == Decimal {
      DigitsAreDecimal(Magnitude(v, base));
    } else {
      DigitsAreHexadecimal(Magnitude(v, base));
    }
  }

  // ----- ranges -----

  datatype Range = Range(low: Long, high: Long)

  /** The text of a number after its range, if it has one, has been applied. */
  function ValidateRange(base: Base, range: Option<Range>, text: string): string {
    if range.None? then text
    else
      var val, r := Strtoll(text, base), range.value;
      if val < r.low then PrintNumber(r.low, base)
      else if val <= r.high then text
      else PrintNumber(r.high, base)
  }

  /** A valid text whose number is in the range, if there is one. */
  predicate WithinRange(base: Base, range: Option<Range>, text: string) {
    ValidText(TypeOf(base), text) && (range.Some? ==> range.value.low <= Strtoll(text, base) <= range.value.high)
  }

  predicate InRange(r: Range, x: int) {
    r.low <= x <= r.high
  }

  // The bound that would be printed.
  function BoundFor(r: Range, val: Long): Long {
    if val < r.low then r.low else r.high
  }

  /** What comes out is acceptable if and only if the text was a value already, or it is out of range and
      the bound can be read back; a bound below zero cannot, in hexadecimal. */
  lemma ValidatedIsWithin(base: Base, r: Range, text: string)
    requires r.low <= r.high
    ensures var val := Strtoll(text, base);
            WithinRange(base, Some(r), ValidateRange(base, Some(r), text)) <==>
              if InRange(r, val) then ValidText(TypeOf(base), text)
              else base == Decimal || BoundFor(r, val) >= 0 || r.high == MAX
  {
    var val := Strtoll(text, base);
    PrintedIsRead(BoundFor(r, val), base);
    PrintedIsValid(BoundFor(r, val), base);
  }

  function Distance(x: int, y: int): nat {
    if x < y then y - x else x - y
  }

  // The number in the range nearest to another.
  function Clamped(r: Range, val: Long): Long {
    if InRange(r, val) then val else BoundFor(r, val)
  }

  /** The text that comes out stands for the nearest number in the range if and only if that number can be
      printed; and then applying the range again changes nothing. */
  lemma ValidatedIsNearest(base: Base, r: Range, text: string)
    requires r.low <= r.high
    ensures var val, next := Strtoll(text, base), ValidateRange(base, Some(r), text);
            && (Strtoll(next, base) == Clamped(r, val) <==> base == Decimal || InRange(r, val) || BoundFor(r, val) >= 0)
            && (Strtoll(next, base) == Clamped(r, val) ==> ValidateRange(base, Some(r), next) == next)
    ensures var val := Strtoll(text, base);
            && InRange(r, Clamped(r, val))
            && forall x :: InRange(r, x) ==> Distance(val, Clamped(r, val)) <= Distance(val, x)
  {
    PrintedIsRead(BoundFor(r, Strtoll(text, base)), base);
  }

  /** A hexadecimal number above a negative bound: the bound is printed without its sign. */
  lemma NegativeBoundIsLost(text: string, high: Long)
    requires Strtoll(text, Hexadecimal) >= 0 > high
    ensures var next := ValidateRange(Hexadecimal, Some(Range(MIN, high)), text);
            Strtoll(next, Hexadecimal) == MAX && !WithinRange(Hexadecimal, Some(Range(MIN, high)), next)
  {
    PrintedIsRead(high, Hexadecimal);
  }

  /** A text in the range stays as it is; any other becomes the bound. */
  lemma RangeLeavesAlone(base: Base, r: Range, text: string)
    requires r.low <= r.high
    ensures var val := Strtoll(text, base);
            ValidateRange(base, Some(r), text) == if InRange(r, val) then text else PrintNumber(BoundFor(r, val), base)
    ensures ValidateRange(base, None, text) == text
  {}

  // ----- the forms of numbers -----

  const LOWER: string := "0123456789abcdef"
  const UPPER: string := "0123456789ABCDEF"

  /** Digits of either case have their values; the decimal ones are the first ten; and white space is the space
      and the five characters from the tabulator to the carriage return. */
  lemma CharactersAre(c: char, d: nat)
    requires d < 16
    ensures DigitValue(LOWER[d]) == d == DigitValue(UPPER[d])
    ensures Hexadecimal.Digit(LOWER[d]) && Hexadecimal.Digit(UPPER[d]) && (Decimal.Digit(LOWER[d]) <==> d < 10)
    ensures Decimal.Digit(c) <==> c in DECIMALS
    ensures Hexadecimal.Digit(c) <==> c in DECIMALS || c in LETTERS
    ensures IsSpace(c) <==> c == ' ' || c as int in {9, 10, 11, 12, 13}
  {
    DigitsAre(c);
  }

  lemma {:induction false} SpacesAreSkipped(blanks: string, s: string)
    requires (forall i :: 0 <= i < |blanks| ==> IsSpace(blanks[i])) && (s == "" || !IsSpace(s[0]))
    ensures SkipSpace(blanks + s) == s
  {
    if blanks == "" {
      assert blanks + s == s;
    } else {
      assert (blanks + s)[1..] == blanks[1..] + s;
      SpacesAreSkipped(blanks[1..], s);
    }
  }

  lemma {:induction false} SpanStops(d: string, rest: string, base: Base)
    requires (forall i :: 0 <= i < |d| ==> base.Digit(d[i])) && (rest == "" || !base.Digit(rest[0]))
    ensures Span(d + rest, base) == d
  {
    if d == "" {
      assert d + rest == rest;
    } else {
      assert (d + rest)[1..] == d[1..] + rest;
      SpanStops(d[1..], rest, base);
    }
  }

  // A number without its prefix might look like one with it.
  predicate LooksPrefixed(t: string) {
    |t| > 2 && t[0] == '0' && (t[1] == 'x' || t[1] == 'X') && IsHexDigit(t[2])
  }

  lemma PrefixIsSkipped(prefix: string, digits: string, rest: string, base: Base)
    requires digits != "" && base.Digit(digits[0])
    requires prefix == "" || (base == Hexadecimal && (prefix == "0x" || prefix == "0X"))
    requires prefix == "" && base == Hexadecimal ==> !LooksPrefixed(digits + rest)
    ensures SkipPrefix(prefix + (digits + rest), base) == digits + rest
  {
    var t := digits + rest;
    assert prefix == "" ==> prefix + t == t;
    assert prefix != "" ==> (prefix + t)[2..] == t && (prefix + t)[2] == digits[0];
  }

  lemma SignIsSkipped(sign: string, s: string)
    requires sign == "" || sign == "-" || sign == "+"
    requires s != "" && s[0] != '-' && s[0] != '+'
    ensures SkipSign(sign + s) == s && ((sign + s)[0] == '-' <==> sign == "-")
    ensures !IsSpace(s[0]) ==> !IsSpace((sign + s)[0])
  {
    assert sign == "" ==> sign + s == s;
    assert sign != "" ==> (sign + s)[1..] == s;
  }

  /** A number is read behind white space, a sign and a prefix, up to the first character that is no digit; one
      that does not fit is the nearest that does. */
  lemma StrtollForms(blanks: string, sign: string, prefix: string, digits: string, rest: string, base: Base)
    requires forall i :: 0 <= i < |blanks| ==> IsSpace(blanks[i])
    requires sign == "" || sign == "-" || sign == "+"
    requires prefix == "" || (base == Hexadecimal && (prefix == "0x" || prefix == "0X"))
    requires digits != "" && forall i :: 0 <= i < |digits| ==> base.Digit(digits[i])
    requires rest == "" || !base.Digit(rest[0])
    requires prefix == "" && base == Hexadecimal ==> !LooksPrefixed(digits + rest)
    ensures var n := ToNumber(digits, base);
            var x: int := if sign == "-" then 0 - n else n;
            Strtoll(blanks + (sign + (prefix + (digits + rest))), base)
            == if x > MAX then MAX else if x < MIN then MIN else x
  {
    var number := prefix + (digits + rest);
    NumberStarts(prefix, digits, rest, base);
    SignIsSkipped(sign, number);
    SpacesAreSkipped(blanks, sign + number);
    PrefixIsSkipped(prefix, digits, rest, base);
    SpanStops(digits, rest, base);
    StrtollParts(blanks + (sign + number), sign + number, number, digits + rest, digits, sign == "-", base);
  }

  lemma NumberStarts(prefix: string, digits: string, rest: string, base: Base)
    requires digits != "" && base.Digit(digits[0])
    requires prefix == "" || (base == Hexadecimal && (prefix == "0x" || prefix == "0X"))
    ensures var s := prefix + (digits + rest); s != "" && s[0] != '-' && s[0] != '+' && !IsSpace(s[0])
  {
    assert (prefix + (digits + rest))[0] == if prefix == "" then digits[0] else '0';
  }

  lemma StrtollParts(s: string, t: string, number: string, tail: string, digits: string, minus: bool, base: Base)
    requires SkipSpace(s) == t && t != "" && (t[0] == '-' <==> minus) && SkipSign(t) == number
    requires SkipPrefix(number, base) == tail && Span(tail, base) == digits
    ensures var n := ToNumber(digits, base);
            var x: int := if minus then 0 - n else n;
            Strtoll(s, base) == if x > MAX then MAX else if x < MIN then MIN else x
  {}

  /** Only numbers below zero are printed with a sign, and those only in decimal. */
  lemma SignIsPrinted(v: Long, base: Base)
    ensures PrintNumber(v, base) != "" && (PrintNumber(v, base)[0] == '-' <==> base == Decimal && v < 0)
  {
    DigitsRead(Magnitude(v, base), base);
    var d := Digits(Magnitude(v, base), base);
    assert base.Digit(d[0]);
  }
}
