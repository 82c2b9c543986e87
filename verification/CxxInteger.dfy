/** integer_parser: bounded integers from text, for every width, signed or not. */
module CxxInteger {
  import opened Text
  import opened Arithmetic

  /** At least 8 bits. */
  predicate TypeOk(t: IntType) { t.half >= 128 }

  /** Types of less than 32 bits are computed with in wider integers. */
  predicate IsNarrow(t: IntType) { t.half < 0x8000_0000 }

  // ---- the text ----

  predicate AllAlnum(s: string) { forall i | 0 <= i < |s| :: IsAlnum(s[i]) }

  datatype IntegerDesc = IntegerDesc(negative: bool, base: nat, value: string)

  /** What (-)?(0x)?([0-9a-zA-Z]+)|((0x)?0) makes of a text. The prefix is part of the value when
      nothing follows it. */
  function SplitInteger(text: string): Option<IntegerDesc> {
    var negative := "-" <= text;
    var rest := if negative then text[1..] else text;
    if rest == "" || !AllAlnum(rest) then None
    else if "0x" <= rest && |rest| > 2 then Some(IntegerDesc(negative, 16, rest[2..]))
    else Some(IntegerDesc(negative, 10, rest))
  }

  function Digit(c: char, base: nat): Option<nat> {
    if '0' <= c <= '9' then Some(c as int - '0' as int)
    else if base == 16 && 'a' <= c <= 'f' then Some(c as int - 'a' as int + 10)
    else if base == 16 && 'A' <= c <= 'F' then Some(c as int - 'A' as int + 10)
    else None
  }

  predicate AllDigits(s: string, base: nat) { forall i | 0 <= i < |s| :: Digit(s[i], base).Some? }

  /** The positional value of digits: each one times a power of the base. */
  function Value(s: string, base: nat): nat
    requires AllDigits(s, base)
  {
    if s == "" then 0 else Digit(s[0], base).value * Power(base, |s| - 1) + Value(s[1..], base)
  }

  lemma {:induction false} ValueSnoc(s: string, c: char, base: nat)
    requires AllDigits(s, base) && Digit(c, base).Some?
    ensures AllDigits(s + [c], base)
    ensures Value(s + [c], base) == Value(s, base) * base + Digit(c, base).value
  {
    hide Digit;
    var t := s + [c];
    if s == "" {
      assert t[1..] == "" && Power(base, 0) == 1;
    } else {
      assert t[1..] == s[1..] + [c];
      ValueSnoc(s[1..], c, base);
      var d, p, v := Digit(s[0], base).value, Power(base, |s| - 1), Value(s[1..], base);
      Distribute(d, p, v, base, Digit(c, base).value);
    }
  }

  lemma Distribute(d: nat, p: nat, v: nat, base: nat, last: nat)
    ensures d * (base * p) + (v * base + last) == (d * p + v) * base + last
  {
  }

  /** A prefix is worth no more than the whole text, so that what is too large stays too large. */
  lemma {:induction false} PrefixIsSmaller(s: string, n: nat, base: nat)
    requires AllDigits(s, base) && n <= |s| && base > 0
    ensures AllDigits(s[..n], base) && Value(s[..n], base) <= Value(s, base)
    decreases |s| - n
  {
    hide Digit;
    if n == |s| {
      assert s[..n] == s;
    } else {
      PrefixIsSmaller(s, n + 1, base);
      assert s[..n + 1] == s[..n] + [s[n]];
      ValueSnoc(s[..n], s[n], base);
      NoSmaller(Value(s[..n], base), base);
    }
  }

  lemma NoSmaller(v: nat, base: nat)
    requires base > 0
    ensures v <= v * base
  {
  }

  /** The integer a text denotes, if it is one of the type. An unsigned type takes no sign. */
  function ParsedInteger(text: string, t: IntType): Option<int> {
    var desc := SplitInteger(text);
    if desc.None? || !AllDigits(desc.value.value, desc.value.base) || (desc.value.negative && !t.signed) then None
    else
      var v := Value(desc.value.value, desc.value.base);
      var x := if desc.value.negative then 0 - v else v;
      if InRange(x, t) then Some(x) else None
  }

  // ---- the loop ----

  /** The largest magnitude that a value with this sign can have. */
  function Limit(t: IntType, negative: bool): nat
    requires TypeOk(t)
  {
    if negative then -Min(t) else Max(t)
  }

  /** limit - digit: in wide types the difference wraps around. */
  function Room(limit: nat, digit: nat, t: IntType): int
    requires TypeOk(t)
  {
    if IsNarrow(t) then limit - digit else (limit - digit) % (2 * t.half)
  }

  /** The tests before a digit is added are exact, unless the limit is 0. */
  lemma TestsAreExact(result: nat, digit: nat, base: nat, t: IntType, limit: nat)
    requires TypeOk(t) && base > 0 && digit < 16 <= limit < 2 * t.half
    ensures (result > limit / base || result * base > Room(limit, digit, t)) <==> result * base + digit > limit
  {
    SmallRemainder(limit - digit, 2 * t.half);
    DivisionBound(limit, base, result);
  }

  lemma SmallRemainder(x: nat, m: nat)
    requires x < m
    ensures x % m == x
  {
  }

  /** The value of the negated magnitude: -static_cast<R>(t - 1) - 1, where t - 1 wraps around for 0. */
  function Negated(result: nat, t: IntType): int
    requires TypeOk(t)
  {
    var less := (result - 1) % (2 * t.half);
    var cast := if less >= t.half then less - 2 * t.half else less;
    -cast - 1
  }

  /** The negation is exact, for 0 and for the minimum too. */
  lemma NegatedIs(result: nat, t: IntType)
    requires TypeOk(t) && result <= t.half
    ensures Negated(result, t) == 0 - result
  {
    var m := 2 * t.half;
    if result == 0 {
      assert (-1) % m == m - 1 by { SmallRemainder(m - 1, m); assert -1 == (m - 1) + (-1) * m; }
    } else {
      SmallRemainder(result - 1, m);
    }
  }

  /** A sign that the type has no room for. */
  predicate Unsignable(negative: bool, t: IntType) { negative && !t.signed }

  /** One round of the loop. */
  method AddDigit(result: nat, ch: char, base: nat, negative: bool, t: IntType) returns (next: Option<nat>)
    requires TypeOk(t) && (base == 10 || base == 16)
    requires if Unsignable(negative, t) then result < 16 else result <= Limit(t, negative)
    ensures next.Some? ==> Digit(ch, base).Some? && next.value == result * base + Digit(ch, base).value
    ensures next.Some? ==> if Unsignable(negative, t) then next.value < 16 else next.value <= Limit(t, negative)
    ensures next.None? && !Unsignable(negative, t) && Digit(ch, base).Some? ==>
      result * base + Digit(ch, base).value > Limit(t, negative)
  {
    hide Digit, Room;
    var digit := Digit(ch, base);
    DigitIsSmall(ch, base);
    if digit == None {
      return None;
    }
    var limit := Limit(t, negative);
    if Unsignable(negative, t) { ZeroLimit(result, base); } else { TestsAreExact(result, digit.value, base, t, limit); }
    if result > limit / base {
      return None;
    }
    if result * base > Room(limit, digit.value, t) {
      return None;
    }
    SmallRemainder(result * base + digit.value, 2 * t.half);
    next := Some((result * base + digit.value) % (2 * t.half));
  }

  lemma ZeroLimit(result: nat, base: nat)
    requires base > 0
    ensures result <= 0 / base ==> result * base == 0
  {
  }

  method IntegerParser(text: string, t: IntType) returns (value: Option<int>)
    requires TypeOk(t)
    ensures value == ParsedInteger(text, t)
  {
    hide Digit, Value, SplitInteger, Negated;
    var int_desc := SplitInteger(text);
    SplitBase(text);
    if int_desc == None {
      return None;
    }
    var negative, base, digits := int_desc.value.negative, int_desc.value.base, int_desc.value.value;
    var result: nat := 0;
    ValueOfNothing(digits[..0], base);
    for i := 0 to |digits|
      invariant AllDigits(digits[..i], base) && result == Value(digits[..i], base)
      invariant if Unsignable(negative, t) then result < 16 else result <= Limit(t, negative)
    {
      assert digits[..i + 1] == digits[..i] + [digits[i]];
      var next := AddDigit(result, digits[i], base, negative, t);
      if Digit(digits[i], base).Some? { ValueSnoc(digits[..i], digits[i], base); }
      if next == None {
        if AllDigits(digits, base) { PrefixIsSmaller(digits, i + 1, base); }
        return None;
      }
      result := next.value;
    }
    assert digits[..|digits|] == digits;
    // the range check that follows here cannot fail
    assert t.signed ==> result <= if negative then t.half else t.half - 1;
    if negative {
      if t.signed { NegatedIs(result, t); }
      value := if t.signed then Some(Negated(result, t)) else None;
    } else {
      value := Some(result);
    }
  }

  lemma SplitBase(text: string)
    ensures SplitInteger(text).Some? ==> SplitInteger(text).value.base == 10 || SplitInteger(text).value.base == 16
  {
  }

  lemma ValueOfNothing(s: string, base: nat)
    requires s == ""
    ensures AllDigits(s, base) && Value(s, base) == 0
  {
  }

  lemma DigitIsSmall(c: char, base: nat)
    ensures Digit(c, base).Some? ==> Digit(c, base).value < 16
  {
  }

  // ---- printing ----

  function DecimalDigit(d: nat): char
    requires d < 10
  {
    (d + '0' as int) as char
  }

  function Decimal(n: nat): string {
    if n < 10 then [DecimalDigit(n)] else Decimal(n / 10) + [DecimalDigit(n % 10)]
  }

  function PrintInteger(x: int): string {
    if x < 0 then "-" + Decimal(-x) else Decimal(x)
  }

  lemma {:induction false} DecimalValue(n: nat)
    ensures AllDigits(Decimal(n), 10) && Value(Decimal(n), 10) == n
    ensures Decimal(n) != "" && forall i | 0 <= i < |Decimal(n)| :: '0' <= Decimal(n)[i] <= '9'
  {
    hide Value;
    if n < 10 {
      OneDigit(DecimalDigit(n));
    } else {
      DecimalValue(n / 10);
      ValueSnoc(Decimal(n / 10), DecimalDigit(n % 10), 10);
    }
  }

  lemma OneDigit(c: char)
    requires '0' <= c <= '9'
    ensures AllDigits([c], 10) && Value([c], 10) == c as int - '0' as int
  {
    assert [c][1..] == "" && Power(10, 0) == 1;
  }

  /** Every integer of a type comes back from its decimal text; for an unsigned type that is every
      integer from 0 on. */
  lemma {:induction false} PrintedIntegerParses(x: int, t: IntType)
    requires InRange(x, t)
    ensures ParsedInteger(PrintInteger(x), t) == Some(x)
  {
    hide Value, Digit;
    var n := if x < 0 then -x else x;
    DecimalValue(n);
    var d := Decimal(n);
    var text := PrintInteger(x);
    assert !("-" <= d) by { assert d[0] != '-'; }
    assert !("0x" <= d) by { if |d| > 1 { assert d[1] != 'x'; } }
    assert x < 0 ==> text[..1] == "-" && text[1..] == d;
  }

  // ---- other texts ----

  const DIGITS: string := "0123456789abcdef"
  const CAPITAL_DIGITS: string := "0123456789ABCDEF"

  /** The digits of a base and their values; hexadecimal ones count in either case. */
  lemma DigitIs(c: char, base: nat, value: nat)
    requires base == 10 || base == 16
    ensures Digit(c, base) == Some(value) <==> value < base && (c == DIGITS[value] || c == CAPITAL_DIGITS[value])
  {
    var l, u := DIGITS, CAPITAL_DIGITS;
    assert l[0] == '0' && l[1] == '1' && l[2] == '2' && l[3] == '3' && l[4] == '4' && l[5] == '5' && l[6] == '6';
    assert l[7] == '7' && l[8] == '8' && l[9] == '9' && l[10] == 'a' && l[11] == 'b' && l[12] == 'c' && l[13] == 'd';
    assert l[14] == 'e' && l[15] == 'f';
    assert u[0] == '0' && u[1] == '1' && u[2] == '2' && u[3] == '3' && u[4] == '4' && u[5] == '5' && u[6] == '6';
    assert u[7] == '7' && u[8] == '8' && u[9] == '9' && u[10] == 'A' && u[11] == 'B' && u[12] == 'C' && u[13] == 'D';
    assert u[14] == 'E' && u[15] == 'F';
  }

  /** The digits of a number in base 16, some of them as capitals. */
  ghost predicate IsHexOf(s: string, n: nat)
    decreases |s|
  {
    s != "" && var last := s[|s| - 1];
    Digit(last, 16) == Some(n % 16) && if |s| == 1 then n < 16 else IsHexOf(s[..|s| - 1], n / 16)
  }

  lemma {:induction false} HexIsValue(s: string, n: nat)
    requires IsHexOf(s, n)
    ensures AllDigits(s, 16) && Value(s, 16) == n && AllAlnum(s)
    decreases |s|
  {
    hide Value;
    var front, last := s[..|s| - 1], s[|s| - 1];
    assert s == front + [last];
    if |s| == 1 {
      assert front == "";
      NoValueYet();
    } else {
      HexIsValue(front, n / 16);
    }
    ValueSnoc(front, last, 16);
  }

  lemma NoValueYet()
    ensures AllDigits("", 16) && Value("", 16) == 0
  {
  }

  /** A number in base 16 behind 0x is read like the decimal one, with a minus in front as well: it is that number when
      the type has it. */
  lemma {:induction false} HexIntegerParses(digits: string, n: nat, negative: bool, t: IntType)
    requires IsHexOf(digits, n)
    ensures var text, x: int := (if negative then "-" else "") + ("0x" + digits), if negative then 0 - n else n;
      ParsedInteger(text, t) == if (negative && !t.signed) || !InRange(x, t) then None else Some(x)
  {
    hide Value, Digit, AllAlnum, AllDigits;
    HexIsValue(digits, n);
    var rest := "0x" + digits;
    var text := (if negative then "-" else "") + rest;
    assert rest[0] == '0' && rest[1] == 'x' && rest[2..] == digits;
    if negative {
      assert text[0] == '-' && text[1..] == rest;
    } else {
      assert text == rest;
    }
    assert "-"[0] == '-' && "0x" <= rest && ("-" <= text <==> negative);
    PrefixIsAlnum(digits);
  }

  lemma PrefixIsAlnum(digits: string)
    requires AllAlnum(digits)
    ensures AllAlnum("0x" + digits)
  {
    var rest := "0x" + digits;
    assert forall i | 2 <= i < |rest| :: rest[i] == digits[i - 2];
  }

  /** Nothing but digits is read: no letter in a decimal text, and not 0x alone. */
  lemma OtherTextsAreRefused(front: string, c: char, back: string, t: IntType)
    requires !('0' <= c <= '9') && !("0x" <= front + [c] + back) && !("-" <= front + [c] + back)
    ensures ParsedInteger(front + [c] + back, t) == None && ParsedInteger("0x", t) == None
  {
    hide Value;
    var text := front + [c] + back;
    assert text[|front|] == c && Digit(c, 10) == None;
    assert "0x"[0] == '0' && "0x"[1] == 'x' && Digit('x', 10) == None;
  }
}
