/** Multiplication that reports overflow (overflowCheck, checked_multiply) and
    the sizes with units that depend on it (AsSizeValue). */
module CliNumbers {
  import opened Text
  import opened Arithmetic

  /** A signed type of at least two bits. */
  predicate IsSigned(t: IntType) { t.signed && t.half > 1 }

  predicate IsUnsigned(t: IntType) { !t.signed && t.half > 0 }

  function Abs(x: int): nat { if x < 0 then -x else x }

  /** Division of C++: the quotient is rounded towards zero. */
  function Quotient(a: int, b: int): int
    requires b != 0
  {
    if (a < 0) == (b < 0) then Abs(a) / Abs(b) else -(Abs(a) / Abs(b))
  }

  function OverflowSigned(a: int, b: int, t: IntType): bool
    requires a != 0 && b != 0
  {
    if (a > 0) == (b > 0) then Quotient(Max(t), Abs(a)) < Abs(b)
    else Quotient(Min(t), Abs(a)) > 0 - Abs(b)
  }

  function OverflowUnsigned(a: int, b: int, t: IntType): bool
    requires a != 0
  {
    Quotient(Max(t), a) < b
  }

  lemma SignOfProduct(a: int, b: int)
    requires a != 0 && b != 0
    ensures a * b == if (a > 0) == (b > 0) then Abs(a) * Abs(b) else -(Abs(a) * Abs(b))
  {
  }

  /** The check before the multiplication is exact. */
  lemma OverflowIsExact(a: int, b: int, t: IntType)
    requires a != 0 && b != 0 && (IsSigned(t) || (IsUnsigned(t) && a > 0 && b > 0))
    ensures (if IsSigned(t) then OverflowSigned(a, b, t) else OverflowUnsigned(a, b, t)) <==> !InRange(a * b, t)
  {
    SignOfProduct(a, b);
    if (a > 0) == (b > 0) {
      DivisionBound(Max(t), Abs(a), Abs(b));
      assert a * b > 0 by { Positive(Abs(a), Abs(b)); }
    } else {
      DivisionBound(Abs(Min(t)), Abs(a), Abs(b));
      assert a * b < 0 by { Positive(Abs(a), Abs(b)); }
    }
  }

  lemma Positive(a: nat, b: nat)
    requires a > 0 && b > 0
    ensures a * b > 0
  {
  }

  /** A product with the minimum of a signed type overflows unless the other factor is 0 or 1. */
  lemma MinimumOverflows(a: int, b: int, t: IntType)
    requires IsSigned(t) && InRange(a, t) && b != 0 && b != 1 && a == Min(t)
    ensures !InRange(a * b, t) && !InRange(b * a, t)
  {
    var m: nat := -Min(t);
    SignOfProduct(a, b);
    SignOfProduct(b, a);
    if b < 0 {
      AtLeastTimes(m, 1, Abs(b));
    } else {
      AtLeastTimes(m, 2, Abs(b));
    }
  }

  lemma AtLeastTimes(m: nat, n: nat, b: nat)
    requires n <= b
    ensures m * n <= m * b == b * m
  {
  }

  /** checked_multiply: true exactly when the product can be represented, which then replaces a. */
  method CheckedMultiply(a: int, b: int, t: IntType) returns (ok: bool, product: int)
    requires IsSigned(t) || IsUnsigned(t)
    requires InRange(a, t) && InRange(b, t)
    ensures ok <==> InRange(a * b, t)
    ensures product == if ok then a * b else a
  {
    if a == 0 || b == 0 || a == 1 || b == 1 {
      return true, a * b;
    }
    if a == Min(t) || b == Min(t) {
      if a == Min(t) { MinimumOverflows(a, b, t); } else { MinimumOverflows(b, a, t); }
      return false, a;
    }
    OverflowIsExact(a, b, t);
    var overflow := if Min(t) < 0 then OverflowSigned(a, b, t) else OverflowUnsigned(a, b, t);
    if overflow {
      return false, a;
    }
    return true, a * b;
  }

  // ---- sizes ----

  const UINT64: IntType := IntType(false, 0x8000_0000_0000_0000)

  const PREFIXES: string := "kmgtpe"

  /** Powers of 1000 and 1024 up to the exa units fit into 64 bits. */
  lemma ExaFits(n: nat)
    requires n <= 6
    ensures Power(1000, n) <= Power(1024, n) <= 0x1000_0000_0000_0000
  {
    assert Power(1000, 0) == 1 && Power(1024, 0) == 1;
    assert Power(1000, 1) == 1000 && Power(1024, 1) == 0x400;
    assert Power(1000, 2) == 1000000 && Power(1024, 2) == 0x10_0000;
    assert Power(1000, 3) == 1000000000 && Power(1024, 3) == 0x4000_0000;
    assert Power(1000, 4) == 1000000000000 && Power(1024, 4) == 0x100_0000_0000;
    assert Power(1000, 5) == 1000000000000000 && Power(1024, 5) == 0x4_0000_0000_0000;
    assert Power(1000, 6) == 1000000000000000000 && Power(1024, 6) == 0x1000_0000_0000_0000;
  }

  /** The factor of a unit: a power of kFactor, or of 1024 for a binary unit. */
  function UnitFactor(unit: string, kFactor: nat): Option<nat> {
    if unit == "b" then Some(1)
    else if unit != "" && IndexOf(PREFIXES, unit[0]) < 6 then
      var n := IndexOf(PREFIXES, unit[0]) + 1;
      if unit[1..] == "" || unit[1..] == "b" then Some(Power(kFactor, n))
      else if unit[1..] == "i" || unit[1..] == "ib" then Some(Power(1024, n))
      else None
    else None
  }

  predicate MappingUpTo(m: map<string, nat>, kFactor: nat, n: nat) {
    && (forall unit | unit in m :: UnitFactor(unit, kFactor) == Some(m[unit]))
    && "b" in m
    && forall i | 0 <= i < n && i < 6 ::
        [PREFIXES[i]] in m && [PREFIXES[i]] + "b" in m && [PREFIXES[i]] + "i" in m && [PREFIXES[i]] + "ib" in m
  }

  lemma FactorsOfPrefix(i: nat, kFactor: nat)
    requires i < 6
    ensures UnitFactor([PREFIXES[i]], kFactor) == UnitFactor([PREFIXES[i]] + "b", kFactor) ==
      Some(Power(kFactor, i + 1))
    ensures UnitFactor([PREFIXES[i]] + "i", kFactor) == UnitFactor([PREFIXES[i]] + "ib", kFactor) ==
      Some(Power(1024, i + 1))
  {
    hide IndexOf, Power;
    var c := PREFIXES[i];
    assert PREFIXES[0] == 'k' && PREFIXES[1] == 'm' && PREFIXES[2] == 'g' && PREFIXES[3] == 't' && PREFIXES[4] == 'p'
      && PREFIXES[5] == 'e';
    assert IndexOf(PREFIXES, c) == i;
    assert [c][1..] == "" && ([c] + "b")[1..] == "b" && ([c] + "i")[1..] == "i" && ([c] + "ib")[1..] == "ib";
  }

  lemma {:induction false} MoreUnits(m: map<string, nat>, kFactor: nat, i: nat, k: nat, ki: nat)
    requires i < 6 && MappingUpTo(m, kFactor, i) && k == Power(kFactor, i + 1) && ki == Power(1024, i + 1)
    ensures var p := [PREFIXES[i]]; MappingUpTo(m[p := k][p + "b" := k][p + "i" := ki][p + "ib" := ki], kFactor, i + 1)
  {
    hide UnitFactor, IndexOf, Power;
    FactorsOfPrefix(i, kFactor);
  }

  predicate AllSmall(m: map<string, nat>) { forall unit | unit in m :: 0 < m[unit] <= 0x1000_0000_0000_0000 }

  /** init_mapping: exactly the units, each with its factor; the running products never reach 2^64. */
  method InitMapping(kb_is_1000: bool) returns (m: map<string, nat>)
    ensures forall unit :: unit in m <==> UnitFactor(unit, if kb_is_1000 then 1000 else 1024).Some?
    ensures forall unit | unit in m :: UnitFactor(unit, if kb_is_1000 then 1000 else 1024) == Some(m[unit])
    ensures AllSmall(m)
  {
    hide UnitFactor, IndexOf, Power, MappingUpTo;
    var k_factor := if kb_is_1000 then 1000 else 1024;
    var ki_factor := 1024;
    var k: nat, ki: nat := 1, 1;
    m := map["b" := 1];
    JustBytes(k_factor);
    for i := 0 to 6
      invariant k == Power(k_factor, i) && ki == Power(1024, i)
      invariant MappingUpTo(m, k_factor, i) && AllSmall(m)
    {
      ExaFits(i + 1);
      PowerStep(k_factor, i);
      PowerStep(1024, i);
      MoreUnits(m, k_factor, i, k * k_factor, ki * ki_factor);
      k := (k * k_factor) % 0x1_0000_0000_0000_0000;
      ki := (ki * ki_factor) % 0x1_0000_0000_0000_0000;
      var p := [PREFIXES[i]];
      m := m[p := k][p + "b" := k][p + "i" := ki][p + "ib" := ki];
    }
    forall unit ensures unit in m <==> UnitFactor(unit, k_factor).Some?
                ensures unit in m ==> UnitFactor(unit, k_factor) == Some(m[unit]) {
      AllUnits(m, k_factor, unit);
    }
  }

  lemma JustBytes(kFactor: nat)
    ensures MappingUpTo(map["b" := 1], kFactor, 0)
    ensures Power(kFactor, 0) == 1 && Power(1024, 0) == 1
  {
  }

  lemma PowerStep(base: nat, n: nat)
    requires base > 0
    ensures Power(base, n + 1) == Power(base, n) * base > 0
  {
    PowerPositive(base, n + 1);
  }

  lemma AllUnits(m: map<string, nat>, kFactor: nat, unit: string)
    requires MappingUpTo(m, kFactor, 6)
    ensures unit in m <==> UnitFactor(unit, kFactor).Some?
    ensures unit in m ==> UnitFactor(unit, kFactor) == Some(m[unit])
  {
    hide IndexOf, Power;
    if unit != "b" && UnitFactor(unit, kFactor).Some? {
      var i := IndexOf(PREFIXES, unit[0]);
      assert PREFIXES[i] == unit[0];
      assert unit == [PREFIXES[i]] + unit[1..];
      assert [PREFIXES[i]] + "" == [PREFIXES[i]];
      assert [PREFIXES[i]] in m && [PREFIXES[i]] + "b" in m && [PREFIXES[i]] + "i" in m && [PREFIXES[i]] + "ib" in m;
    }
  }

  lemma {:induction false} PowerPositive(base: nat, n: nat)
    requires base > 0
    ensures Power(base, n) > 0
  {
    if n > 0 { PowerPositive(base, n - 1); Positive(base, Power(base, n - 1)); }
  }

  /** What a number (or none) with a unit (or none) should mean: the exact product, if there is one. */
  function SizeOf(num: Option<nat>, unit: string, kFactor: nat): Option<nat> {
    if unit == "" then num
    else
      var f := UnitFactor(unit, kFactor);
      if f.None? then None
      else if num.None? then f
      else if InRange(num.value * f.value, UINT64) then Some(num.value * f.value)
      else None
  }

  /** The validator of sizes never gives a wrong size: it is the exact one or an error. */
  method SizeWithUnit(num: Option<nat>, unit: string, kb_is_1000: bool) returns (size: Option<nat>)
    requires num.Some? ==> InRange(num.value, UINT64)
    ensures size == SizeOf(num, unit, if kb_is_1000 then 1000 else 1024)
    ensures size.Some? ==> InRange(size.value, UINT64)
  {
    if unit == "" {
      return num;
    }
    var mapping := InitMapping(kb_is_1000);
    if unit !in mapping {
      return None;
    }
    if num.None? {
      return Some(mapping[unit]);
    }
    var ok, product := CheckedMultiply(num.value, mapping[unit], UINT64);
    size := if ok then Some(product) else None;
  }

  // ---- the text of a size ----

  type Word = n: nat | n <= 0xFFFF_FFFF_FFFF_FFFF

  predicate IsAlpha(c: char) { 'a' <= c <= 'z' || 'A' <= c <= 'Z' }

  /** Where the letters at the end of a text start. */
  predicate IsUnitStart(s: string, at: nat) {
    at <= |s| && (forall i | at <= i < |s| :: IsAlpha(s[i])) && (0 < at ==> !IsAlpha(s[at - 1]))
  }

  function UnitStart(s: string): (r: nat)
    ensures IsUnitStart(s, r)
    ensures forall at: nat | IsUnitStart(s, at) :: at == r
  {
    if s == "" || !IsAlpha(s[|s| - 1]) then |s| else UnitStart(s[..|s| - 1])
  }

  /** What a text means: a number, for some conversion, with a unit in letters of either case, or one of the two. */
  function SizeOfText(input: string, convert: string -> Option<Word>, kFactor: nat): Option<nat> {
    var text := input[..EndOfInk(input)];
    if text == "" then None
    else
      var at := UnitStart(text);
      var number, unit := Trim(text[..at]), Lower(text[at..]);
      if unit != "" && number == "" then SizeOf(None, unit, kFactor)
      else if convert(number) == None then None
      else SizeOf(Some(convert(number).value), unit, kFactor)
  }

  /** The validator of sizes, from the text on. */
  method AsSize(input: string, convert: string -> Option<Word>, kb_is_1000: bool) returns (size: Option<nat>)
    ensures size == SizeOfText(input, convert, if kb_is_1000 then 1000 else 1024)
    ensures size.Some? ==> InRange(size.value, UINT64)
  {
    hide SizeOf, EndOfInk, Lower, Trim, UnitStart;
    var text := input[..EndOfInk(input)];
    if text == "" {
      return None;
    }
    var unit_begin: nat := |text|;
    while unit_begin > 0 && IsAlpha(text[unit_begin - 1])
      invariant unit_begin <= |text| && forall i | unit_begin <= i < |text| :: IsAlpha(text[i])
    {
      unit_begin := unit_begin - 1;
    }
    assert IsUnitStart(text, unit_begin);
    var unit, number := Lower(text[unit_begin..]), Trim(text[..unit_begin]);
    if unit == "" || number != "" {
      var num := convert(number);
      if num == None {
        return None;
      }
      size := SizeWithUnit(Some(num.value), unit, kb_is_1000);
    } else {
      size := SizeWithUnit(None, unit, kb_is_1000);
    }
  }

  /** A number, blanks and a unit are read as written, whatever the case of the unit: the size is their product, or
      an error when that is too large. */
  lemma WrittenSize(number: string, blanks: string, unit: string, convert: string -> Option<Word>, kFactor: nat)
    requires number != "" && IsTrimmed(number) && !IsAlpha(number[|number| - 1]) && convert(number).Some?
    requires AllSpace(blanks) && (forall i | 0 <= i < |unit| :: IsAlpha(unit[i]))
      && UnitFactor(Lower(unit), kFactor).Some?
    ensures var product := convert(number).value * UnitFactor(Lower(unit), kFactor).value;
      SizeOfText(number + blanks + unit, convert, kFactor) ==
      if product <= 0xFFFF_FFFF_FFFF_FFFF then Some(product) else None
  {
    hide UnitFactor, SizeOfText, Lower;
    UnitNotEmpty(unit, kFactor);
    WrittenIsTaken(number, blanks, unit, convert, kFactor);
  }

  lemma WrittenIsTaken(number: string, blanks: string, unit: string, convert: string -> Option<Word>, kFactor: nat)
    requires number != "" && IsTrimmed(number) && !IsAlpha(number[|number| - 1]) && convert(number).Some?
    requires AllSpace(blanks) && unit != "" && forall i | 0 <= i < |unit| :: IsAlpha(unit[i])
    ensures SizeOfText(number + blanks + unit, convert, kFactor) ==
      SizeOf(Some(convert(number).value), Lower(unit), kFactor)
  {
    hide SizeOf, Lower, Trim, UnitStart, EndOfInk;
    WrittenParts(number, blanks, unit);
    var input, at := number + blanks + unit, |number| + |blanks|;
    assert input[..|input|] == input && input[at..] == unit;
  }

  lemma WrittenParts(number: string, blanks: string, unit: string)
    requires number != "" && IsTrimmed(number) && !IsAlpha(number[|number| - 1])
    requires AllSpace(blanks) && unit != "" && forall i | 0 <= i < |unit| :: IsAlpha(unit[i])
    ensures var input, at := number + blanks + unit, |number| + |blanks|;
      EndOfInk(input) == |input| && UnitStart(input) == at && Trim(input[..at]) == number
  {
    hide Trim, UnitStart, EndOfInk;
    var input, at := number + blanks + unit, |number| + |blanks|;
    assert input[|input| - 1] == unit[|unit| - 1];
    assert input[..at] == number + blanks;
    assert input[at - 1] == if blanks == "" then number[|number| - 1] else blanks[|blanks| - 1];
    assert forall i | at <= i < |input| :: input[i] == unit[i - at];
    assert IsUnitStart(input, at);
    TrimUnique("", number, blanks);
    assert "" + number + blanks == number + blanks;
  }

  lemma UnitNotEmpty(unit: string, kFactor: nat)
    requires UnitFactor(Lower(unit), kFactor).Some?
    ensures unit != "" && Lower(unit) != ""
  {
  }

  /** A number without a unit is taken as it is, a unit without a number is its factor, and nothing is no size. */
  lemma BareSizes(number: string, unit: string, blanks: string, convert: string -> Option<Word>, kFactor: nat)
    requires number != "" && IsTrimmed(number) && !IsAlpha(number[|number| - 1]) && AllSpace(blanks)
    requires unit != "" && forall i | 0 <= i < |unit| :: IsAlpha(unit[i])
    ensures SizeOfText(number + blanks, convert, kFactor) ==
      if convert(number).Some? then Some(convert(number).value) else None
    ensures SizeOfText(unit + blanks, convert, kFactor) == UnitFactor(Lower(unit), kFactor)
    ensures SizeOfText(blanks, convert, kFactor) == None
  {
    hide UnitFactor, Lower, Trim, EndOfInk, UnitStart;
    InkBefore(number, blanks);
    InkBefore(unit, blanks);
    InkBefore("", blanks);
    assert "" + blanks == blanks;
    assert IsUnitStart(number, |number|) && IsUnitStart(unit, 0);
    assert number[..|number|] == number && number[|number|..] == "" && unit[..0] == "" && unit[0..] == unit;
    TrimOfTrimmed(number);
    TrimOfTrimmed("");
    assert Lower("") == "" && Lower(unit) != "";
  }

  lemma InkBefore(text: string, blanks: string)
    requires AllSpace(blanks) && (text != "" ==> !IsSpace(text[|text| - 1]))
    ensures (text + blanks)[..EndOfInk(text + blanks)] == text
  {
    hide EndOfInk;
    var s := text + blanks;
    assert forall i | |text| <= i < |s| :: s[i] == blanks[i - |text|];
    assert text != "" ==> s[|text| - 1] == text[|text| - 1];
    assert EndOfInk(s) == |text|;
  }

  /** The units that are understood: bytes, and six prefixes in powers of the factor, or of 1024 with an i. */
  lemma UnitTable()
    ensures UnitFactor("b", 1000) == Some(1)
    ensures UnitFactor("kb", 1000) == Some(1000) && UnitFactor("k", 1024) == UnitFactor("kib", 1000) == Some(1024)
    ensures UnitFactor("mb", 1000) == Some(1000_000) && UnitFactor("mi", 1000) == Some(0x10_0000)
    ensures UnitFactor("gb", 1000) == Some(1000_000_000) && UnitFactor("gi", 1000) == Some(0x4000_0000)
    ensures UnitFactor("tb", 1000) == Some(1000_000_000_000) && UnitFactor("pi", 1000) == Some(0x4_0000_0000_0000)
    ensures UnitFactor("eb", 1000) == Some(1000_000_000_000_000_000)
  {
    hide UnitFactor;
    FactorsOfPrefix(0, 1000);
    FactorsOfPrefix(0, 1024);
    FactorsOfPrefix(1, 1000);
    FactorsOfPrefix(2, 1000);
    FactorsOfPrefix(3, 1000);
    FactorsOfPrefix(4, 1000);
    FactorsOfPrefix(5, 1000);
    BytesAreOne();
    PrefixTexts();
    PowerValues();
  }

  lemma BytesAreOne()
    ensures UnitFactor("b", 1000) == Some(1)
  {
  }

  lemma PrefixTexts()
    ensures [PREFIXES[0]] == "k" && [PREFIXES[1]] == "m" && [PREFIXES[2]] == "g" && [PREFIXES[3]] == "t"
    ensures [PREFIXES[4]] == "p" && [PREFIXES[5]] == "e"
    ensures "k" + "b" == "kb" && "k" + "ib" == "kib" && "m" + "b" == "mb" && "m" + "i" == "mi"
    ensures "g" + "b" == "gb" && "g" + "i" == "gi" && "t" + "b" == "tb" && "p" + "i" == "pi" && "e" + "b" == "eb"
  {
  }

  lemma PowerValues()
    ensures Power(1000, 1) == 1000 && Power(1024, 1) == 0x400 && Power(1000, 2) == 1000_000
    ensures Power(1024, 2) == 0x10_0000 && Power(1000, 3) == 1000_000_000 && Power(1024, 3) == 0x4000_0000
    ensures Power(1000, 4) == 1000_000_000_000 && Power(1024, 5) == 0x4_0000_0000_0000
    ensures Power(1000, 6) == 1000_000_000_000_000_000
  {
    assert Power(1000, 0) == 1 && Power(1024, 0) == 1 && Power(1024, 4) == 0x100_0000_0000;
    assert Power(1000, 5) == 1000_000_000_000_000;
  }
}
