/** The escape sequences of quoted config strings: add_escaped_characters,
    remove_escaped_characters, hexConvert and append_codepoint. Strings hold
    bytes; a byte is a character below 256. */
module CliEscape {
  import opened Text
  import opened Results

  datatype Fault = InvalidArgument

  /** What may throw std::invalid_argument. */
  type Attempt<+T> = Result<T, Fault>

  const ESCAPED_CHARS: string := [8 as char, '\t', '\n', 12 as char, '\r', '\"', '\\']
  const ESCAPED_CODES: string := "btnfr\"\\"

  predicate IsEscapable(c: char) { IndexOf(ESCAPED_CHARS, c) < 7 }

  function Escaped(c: char): string {
    var at := IndexOf(ESCAPED_CHARS, c);
    if at < 7 then ['\\', ESCAPED_CODES[at]] else [c]
  }

  function AddEscaped(s: string): string {
    if s == "" then "" else Escaped(s[0]) + AddEscaped(s[1..])
  }

  method AddEscapedCharacters(str: string) returns (out: string)
    ensures out == AddEscaped(str)
  {
    out := "";
    for i := 0 to |str|
      invariant out + AddEscaped(str[i..]) == AddEscaped(str)
    {
      var sloc := IndexOf(ESCAPED_CHARS, str[i]);
      assert str[i..][1..] == str[i + 1..];
      ghost var before := out;
      assert before + AddEscaped(str[i..]) == before + Escaped(str[i]) + AddEscaped(str[i + 1..]);
      if sloc < |ESCAPED_CHARS| {
        out := out + ['\\'] + [ESCAPED_CODES[sloc]];
      } else {
        out := out + [str[i]];
      }
      assert out == before + Escaped(str[i]);
    }
  }

  // ---- hexadecimal digits ----

  const UINT32: nat := 0x1_0000_0000

  /** The value of a hexadecimal digit; 2^32 - 1, that is -1, for any other character. */
  function HexConvert(hc: char): (r: nat)
    ensures r < UINT32
  {
    if '0' <= hc <= '9' then hc as int - '0' as int
    else if 'A' <= hc <= 'F' then hc as int - 'A' as int + 10
    else if 'a' <= hc <= 'f' then hc as int - 'a' as int + 10
    else UINT32 - 1
  }

  predicate IsHex(c: char) { HexConvert(c) <= 0x0F }

  predicate AllHex(s: string) { forall i | 0 <= i < |s| :: IsHex(s[i]) }

  /** The positional value of hexadecimal digits, the last one counting least. */
  function HexValue(s: string): nat
    requires AllHex(s)
  {
    if s == "" then 0 else HexValue(s[..|s| - 1]) * 16 + HexConvert(s[|s| - 1])
  }

  function Power16(n: nat): (p: nat)
    ensures p > 0
  {
    if n == 0 then 1 else 16 * Power16(n - 1)
  }

  lemma {:induction false} HexValueBound(s: string)
    requires AllHex(s)
    ensures HexValue(s) < Power16(|s|)
  {
    if s != "" { HexValueBound(s[..|s| - 1]); }
  }

  /** The leading digit counts most. */
  lemma {:induction false} HexValueFront(s: string)
    requires s != "" && AllHex(s)
    ensures HexValue(s) == HexConvert(s[0]) * Power16(|s| - 1) + HexValue(s[1..])
  {
    hide HexConvert;
    if |s| == 1 {
      assert s[..0] == "" && s[1..] == "" && HexValue("") == 0;
      assert Power16(0) == 1;
    } else {
      var short, rest, last := s[..|s| - 1], s[1..], HexConvert(s[|s| - 1]);
      HexValueFront(short);
      assert rest[..|rest| - 1] == short[1..] && rest[|rest| - 1] == s[|s| - 1];
      assert HexValue(rest) == HexValue(short[1..]) * 16 + last;
      var h, p := HexConvert(s[0]), Power16(|s| - 2);
      assert Power16(|s| - 1) == 16 * p;
      ShiftProduct(h, p, HexValue(short[1..]), last);
    }
  }

  lemma ShiftProduct(h: nat, p: nat, v: nat, last: nat)
    ensures (h * p + v) * 16 + last == h * (16 * p) + (v * 16 + last)
  {
  }

  lemma {:induction false} PowerSplit(a: nat, b: nat)
    ensures Power16(a + b) == Power16(a) * Power16(b)
  {
    if a > 0 {
      PowerSplit(a - 1, b);
      assert Power16(a - 1 + b) == Power16(a - 1) * Power16(b);
      assert 16 * (Power16(a - 1) * Power16(b)) == (16 * Power16(a - 1)) * Power16(b);
    } else {
      assert Power16(0) == 1;
    }
  }

  lemma PowerTable()
    ensures Power16(0) == 1 && Power16(1) == 16 && Power16(3) == 0x1000 && Power16(4) == 0x10000
    ensures Power16(7) == 0x1000_0000 && Power16(8) == UINT32
  {
    assert Power16(2) == 256 && Power16(5) == 0x100000 && Power16(6) == 0x1000000;
  }

  lemma {:induction false} ScaledBelow(value: nat, n: nat, digits: nat)
    requires n <= digits <= 8 && value < Power16(n)
    ensures value * Power16(digits - n) < UINT32
  {
    var p, q := Power16(digits - n), Power16(8 - digits);
    PowerSplit(n, digits - n);
    PowerSplit(digits, 8 - digits);
    PowerTable();
    Monotone(value, Power16(n), p);
    Monotone(0, q, Power16(digits));
    AtLeast(Power16(digits), q);
  }

  lemma Monotone(a: nat, b: nat, p: nat)
    requires a < b && p > 0
    ensures a * p < b * p
  {
  }

  lemma AtLeast(a: nat, q: nat)
    requires q > 0
    ensures a <= a * q
  {
  }

  /** The value of the first digits at their place in the whole text. */
  function Scaled(text: string, ii: nat): nat
    requires ii <= |text| && AllHex(text[..ii])
  {
    HexValue(text[..ii]) * Power16(|text| - ii)
  }

  lemma NothingScaled(text: string)
    ensures AllHex(text[..0]) && Scaled(text, 0) == 0
  {
    assert text[..0] == "";
  }

  lemma AllScaled(text: string)
    requires AllHex(text[..|text|])
    ensures AllHex(text) && Scaled(text, |text|) == HexValue(text)
  {
    assert text[..|text|] == text && Power16(0) == 1;
  }

  lemma OneMoreHex(text: string, ii: nat)
    requires ii < |text| && AllHex(text[..ii])
    ensures AllHex(text[..ii + 1]) <==> HexConvert(text[ii]) <= 0x0F
    ensures AllHex(text) ==> HexConvert(text[ii]) <= 0x0F
  {
    hide HexConvert;
    assert text[..ii + 1] == text[..ii] + [text[ii]] && text[..ii + 1][ii] == text[ii];
    assert AllHex(text) ==> IsHex(text[ii]);
  }

  lemma PowerStep(n: nat)
    ensures n > 0 ==> Power16(n) / 16 == Power16(n - 1)
  {
  }

  /** One round of the accumulation: no product and no sum reaches 2^32. */
  lemma {:induction false} AccumulateStep(text: string, ii: nat)
    requires ii < |text| <= 8 && AllHex(text[..ii + 1]) && AllHex(text[..ii])
    ensures Scaled(text, ii) + HexConvert(text[ii]) * Power16(|text| - 1 - ii) == Scaled(text, ii + 1) < UINT32
  {
    hide HexConvert;
    var now := text[..ii + 1];
    assert now[..|now| - 1] == text[..ii] && now[ii] == text[ii];
    HexValueBound(now);
    ScaledBelow(HexValue(now), ii + 1, |text|);
    var before, res, low := HexValue(text[..ii]), HexConvert(text[ii]), Power16(|text| - 1 - ii);
    PositionalStep(before, res, low, Power16(|text| - ii), HexValue(now));
  }

  lemma PositionalStep(before: nat, res: nat, low: nat, high: nat, now: nat)
    requires now == before * 16 + res && high == 16 * low
    ensures before * high + res * low == now * low
  {
    assert before * high == (before * 16) * low;
  }

  /** The accumulation of an escape with 4 or 8 digits. The code and the multiplier are 32-bit
      words; the sum never wraps around and is the positional value. */
  method AccumulateHex(str: string, from: nat, digits: nat) returns (code: Attempt<nat>)
    requires digits == 4 || digits == 8
    requires from + digits <= |str|
    ensures code ==
      if AllHex(str[from..from + digits]) then Ok(HexValue(str[from..from + digits])) else Error(InvalidArgument)
  {
    hide HexConvert, HexValue, Power16, AllHex, IsHex, Scaled;
    var sum: nat := 0;
    var mplier: nat := if digits == 4 then 0x1000 else 0x1000_0000;
    var text := str[from..from + digits];
    PowerTable();
    NothingScaled(text);
    var ii: nat := 0;
    while ii < digits
      invariant 0 <= ii <= digits
      invariant AllHex(text[..ii])
      invariant ii < digits ==> mplier == Power16(digits - 1 - ii)
      invariant sum == Scaled(text, ii)
    {
      var res := HexConvert(str[from + ii]);
      assert text[ii] == str[from + ii];
      OneMoreHex(text, ii);
      if res > 0x0F {
        return Error(InvalidArgument);
      }
      PowerStep(digits - 1 - ii);
      AccumulateStep(text, ii);
      WrapsNot(sum, res * mplier);
      sum := (sum + (res * mplier) % UINT32) % UINT32;
      mplier := mplier / 16;
      ii := ii + 1;
    }
    AllScaled(text);
    code := Ok(sum);
  }

  lemma WrapsNot(a: nat, b: nat)
    requires a + b < UINT32
    ensures (a + b % UINT32) % UINT32 == a + b
  {
  }

  // ---- UTF-8 ----

  /** A Unicode scalar value: no surrogate and not above U+10FFFF. */
  predicate IsScalar(code: nat) { code < 0xD800 || 0xE000 <= code < 0x110000 }

  /** What append_codepoint appends: shifts and masks written as division and remainder, and
      the union of disjoint bits as a sum. Codes from 0x110000 on append nothing. */
  function Utf8(code: nat): Attempt<string> {
    if code < 0x80 then Ok([code as char])
    else if code < 0x800 then
      Ok([(0xC0 + code / 0x40) as char, (0x80 + code % 0x40) as char])
    else if code < 0x10000 then
      if 0xD800 <= code <= 0xDFFF then Error(InvalidArgument)
      else Ok([(0xE0 + code / 0x1000) as char, (0x80 + code / 0x40 % 0x40) as char, (0x80 + code % 0x40) as char])
    else if code < 0x110000 then
      Ok([(0xF0 + code / 0x40000) as char, (0x80 + code / 0x1000 % 0x40) as char,
          (0x80 + code / 0x40 % 0x40) as char, (0x80 + code % 0x40) as char])
    else Ok("")
  }

  /** The bit operations of append_codepoint are the sums and remainders of Utf8: the bits that
      are joined never overlap. */
  lemma BitsAreDisjoint(code: bv32)
    ensures code < 0x800 ==> 0xC0 | (code >> 6) == 0xC0 + (code >> 6)
    ensures code < 0x10000 ==> 0xE0 | (code >> 12) == 0xE0 + (code >> 12)
    ensures code < 0x110000 ==> 0xF0 | (code >> 18) == 0xF0 + (code >> 18)
    ensures 0x80 | (code & 0x3F) == 0x80 + code % 0x40
    ensures code >> 6 == code / 0x40 && code >> 12 == code / 0x1000 && code >> 18 == code / 0x40000
  {
  }

  predicate IsTail(c: char) { 0x80 <= c as int <= 0xBF }

  /** The length of the well-formed sequence at the front of a text, by the grammar of section 4
      of RFC 3629, or 0 when there is none. */
  function SequenceLength(s: string): (n: nat)
    ensures n <= |s|
  {
    if s == "" then 0
    else
      var a := s[0] as int;
      if a <= 0x7F then 1
      else if 0xC2 <= a <= 0xDF && |s| >= 2 && IsTail(s[1]) then 2
      else if |s| >= 3 && IsTail(s[2]) && (
        (a == 0xE0 && 0xA0 <= s[1] as int <= 0xBF) || (0xE1 <= a <= 0xEC && IsTail(s[1])) ||
        (a == 0xED && 0x80 <= s[1] as int <= 0x9F) || (0xEE <= a <= 0xEF && IsTail(s[1]))) then 3
      else if |s| >= 4 && IsTail(s[2]) && IsTail(s[3]) && (
        (a == 0xF0 && 0x90 <= s[1] as int <= 0xBF) || (0xF1 <= a <= 0xF3 && IsTail(s[1])) ||
        (a == 0xF4 && 0x80 <= s[1] as int <= 0x8F)) then 4
      else 0
  }

  /** The scalar value of a well-formed sequence: the payload bits, put together. */
  function ScalarOf(s: string): nat
    requires SequenceLength(s) > 0
  {
    var a := s[0] as int;
    var n := SequenceLength(s);
    if n == 1 then a
    else if n == 2 then (a - 0xC0) * 0x40 + (s[1] as int - 0x80)
    else if n == 3 then (a - 0xE0) * 0x1000 + (s[1] as int - 0x80) * 0x40 + (s[2] as int - 0x80)
    else (a - 0xF0) * 0x40000 + (s[1] as int - 0x80) * 0x1000 + (s[2] as int - 0x80) * 0x40 + (s[3] as int - 0x80)
  }

  /** An RFC 3629 decoder, as an independent reading of the bytes. */
  function Decode(s: string): Option<seq<nat>>
    decreases |s|
  {
    if s == "" then Some([])
    else
      var n := SequenceLength(s);
      if n == 0 then None
      else
        var rest := Decode(s[n..]);
        if rest.None? then None else Some([ScalarOf(s)] + rest.value)
  }

  lemma EncodedSequence(code: nat, rest: string)
    requires IsScalar(code)
    ensures Utf8(code).Ok? && |Utf8(code).value| > 0
    ensures SequenceLength(Utf8(code).value + rest) == |Utf8(code).value|
    ensures ScalarOf(Utf8(code).value + rest) == code
  {
    hide SequenceLength, ScalarOf;
    var u := Utf8(code).value;
    var s := u + rest;
    Positions(code);
    if code < 0x80 {
      Sequence1(s);
    } else if code < 0x800 {
      Sequence2(s);
    } else if code < 0x10000 {
      Sequence3(s);
    } else {
      Sequence4(s);
    }
  }

  /** The groups of six bits and what is above them. */
  lemma Positions(code: nat)
    ensures code == code / 0x40 * 0x40 + code % 0x40
    ensures code / 0x40 == code / 0x1000 * 0x40 + code / 0x40 % 0x40
    ensures code / 0x1000 == code / 0x40000 * 0x40 + code / 0x1000 % 0x40
  {
  }

  lemma Sequence1(s: string)
    requires s != "" && s[0] as int <= 0x7F
    ensures SequenceLength(s) == 1 && ScalarOf(s) == s[0] as int
  {
  }

  lemma Sequence2(s: string)
    requires |s| >= 2 && IsTail(s[1])
    requires 0xC2 <= s[0] as int <= 0xDF
    ensures SequenceLength(s) == 2
    ensures ScalarOf(s) == (s[0] as int - 0xC0) * 0x40 + (s[1] as int - 0x80)
  {
  }

  lemma Sequence3(s: string)
    requires |s| >= 3 && IsTail(s[1]) && IsTail(s[2]) && 0xE0 <= s[0] as int <= 0xEF
    requires (s[0] as int == 0xE0 ==> s[1] as int >= 0xA0) && (s[0] as int == 0xED ==> s[1] as int <= 0x9F)
    ensures SequenceLength(s) == 3
    ensures ScalarOf(s) == (s[0] as int - 0xE0) * 0x1000 + (s[1] as int - 0x80) * 0x40 + (s[2] as int - 0x80)
  {
  }

  lemma Sequence4(s: string)
    requires |s| >= 4 && IsTail(s[1]) && IsTail(s[2]) && IsTail(s[3]) && 0xF0 <= s[0] as int <= 0xF4
    requires (s[0] as int == 0xF0 ==> s[1] as int >= 0x90) && (s[0] as int == 0xF4 ==> s[1] as int <= 0x8F)
    ensures SequenceLength(s) == 4
    ensures ScalarOf(s) ==
      (s[0] as int - 0xF0) * 0x40000 + (s[1] as int - 0x80) * 0x1000 + (s[2] as int - 0x80) * 0x40
        + (s[3] as int - 0x80)
  {
  }

  /** Groups of six bits can be taken apart again. */
  lemma Groups(high: nat, low: nat)
    requires low < 0x40
    ensures (high * 0x40 + low) / 0x40 == high && (high * 0x40 + low) % 0x40 == low
  {
  }

  lemma Regrouped(code: nat)
    ensures code / 0x40 / 0x40 == code / 0x1000 && code / 0x1000 / 0x40 == code / 0x40000
  {
  }

  lemma EncodedOfTwo(x: nat, y: nat)
    requires 2 <= x < 0x20 && y < 0x40
    ensures Utf8(x * 0x40 + y) == Ok([(0xC0 + x) as char, (0x80 + y) as char])
  {
    Groups(x, y);
  }

  lemma EncodedOfThree(x: nat, y: nat, z: nat)
    requires x < 0x10 && y < 0x40 && z < 0x40 && x * 0x40 + y >= 0x20 && !(0x360 <= x * 0x40 + y <= 0x37F)
    ensures IsScalar((x * 0x40 + y) * 0x40 + z)
    ensures Utf8((x * 0x40 + y) * 0x40 + z) == Ok([(0xE0 + x) as char, (0x80 + y) as char, (0x80 + z) as char])
  {
    Groups(x, y);
    Groups(x * 0x40 + y, z);
    Regrouped((x * 0x40 + y) * 0x40 + z);
  }

  lemma EncodedOfFour(x: nat, y: nat, z: nat, w: nat)
    requires y < 0x40 && z < 0x40 && w < 0x40 && 0x10 <= x * 0x40 + y < 0x110
    ensures var code := ((x * 0x40 + y) * 0x40 + z) * 0x40 + w;
      IsScalar(code)
        && Utf8(code) == Ok([(0xF0 + x) as char, (0x80 + y) as char, (0x80 + z) as char, (0x80 + w) as char])
  {
    Groups(x, y);
    Groups(x * 0x40 + y, z);
    Groups((x * 0x40 + y) * 0x40 + z, w);
    Regrouped(((x * 0x40 + y) * 0x40 + z) * 0x40 + w);
  }

  lemma DecodedSequence(s: string)
    requires SequenceLength(s) > 0
    ensures IsScalar(ScalarOf(s)) && Utf8(ScalarOf(s)) == Ok(s[..SequenceLength(s)])
  {
    var n, a := SequenceLength(s), s[0] as int;
    if n == 1 {
      assert s[..1] == [s[0]];
    } else {
      hide Utf8;
      var b := s[1] as int - 0x80;
      if n == 2 {
        EncodedOfTwo(a - 0xC0, b);
        assert s[..2] == [s[0], s[1]];
      } else if n == 3 {
        EncodedOfThree(a - 0xE0, b, s[2] as int - 0x80);
        assert s[..3] == [s[0], s[1], s[2]];
      } else {
        EncodedOfFour(a - 0xF0, b, s[2] as int - 0x80, s[3] as int - 0x80);
        assert s[..4] == [s[0], s[1], s[2], s[3]];
      }
    }
  }

  predicate AllScalar(codes: seq<nat>) { forall i | 0 <= i < |codes| :: IsScalar(codes[i]) }

  function EncodeAll(codes: seq<nat>): string
    requires AllScalar(codes)
  {
    if codes == [] then "" else EncodedSequence(codes[0], ""); Utf8(codes[0]).value + EncodeAll(codes[1..])
  }

  /** Decoding what was appended for any scalar values gives them back ... */
  lemma {:induction false} DecodeOfEncode(codes: seq<nat>)
    requires AllScalar(codes)
    ensures Decode(EncodeAll(codes)) == Some(codes)
  {
    hide Utf8, SequenceLength, ScalarOf;
    if codes != [] {
      var first, rest := Utf8(codes[0]), EncodeAll(codes[1..]);
      EncodedSequence(codes[0], rest);
      EncodedSequence(codes[0], "");
      DecodeOfEncode(codes[1..]);
      var s := EncodeAll(codes);
      assert s == first.value + rest && s[|first.value|..] == rest;
      assert codes == [codes[0]] + codes[1..];
    }
  }

  /** ... and encoding what was decoded gives the bytes back, so that each well-formed text
      comes from one list of scalar values. */
  lemma {:induction false} EncodeOfDecode(s: string)
    requires Decode(s).Some?
    ensures AllScalar(Decode(s).value) && EncodeAll(Decode(s).value) == s
    decreases |s|
  {
    hide Utf8, SequenceLength, ScalarOf;
    if s != "" {
      var n := SequenceLength(s);
      DecodedSequence(s);
      EncodeOfDecode(s[n..]);
      assert s == s[..n] + s[n..];
      assert Decode(s).value[1..] == Decode(s[n..]).value;
    }
  }

  // ---- removing escapes ----

  /** The first character or escape of a text: what it stands for and how long it is. */
  function FirstUnit(str: string): (r: Attempt<(string, nat)>)
    requires str != ""
    ensures r.Ok? ==> 0 < r.value.1 <= |str|
  {
    if str[0] != '\\' then Ok(([str[0]], 1))
    else if |str| < 2 then Error(InvalidArgument)
    else
      var ecloc := IndexOf(ESCAPED_CODES, str[1]);
      if ecloc < 7 then Ok(([ESCAPED_CHARS[ecloc]], 2))
      else if str[1] == 'u' || str[1] == 'U' then
        var digits := if str[1] == 'u' then 4 else 8;
        if |str| < 2 + digits || !AllHex(str[2..2 + digits]) then Error(InvalidArgument)
        else
          var u :- Utf8(HexValue(str[2..2 + digits]));
          Ok((u, 2 + digits))
      else if str[1] == '0' then Ok((['\0'], 2))
      else Error(InvalidArgument)
  }

  function RemoveEscaped(str: string): Attempt<string>
    decreases |str|
  {
    if str == "" then Ok("")
    else
      var unit :- FirstUnit(str);
      var rest :- RemoveEscaped(str[unit.1..]);
      Ok(unit.0 + rest)
  }

  function Prepended(out: string, rest: Attempt<string>): Attempt<string> {
    if rest.Ok? then Ok(out + rest.value) else rest
  }

  /** One round of the loop: the unit at loc. */
  method RemoveOne(str: string, loc: nat) returns (unit: Attempt<(string, nat)>)
    requires loc < |str|
    ensures unit == FirstUnit(str[loc..])
  {
    hide HexConvert, HexValue, Utf8, IndexOf;
    ghost var rest := str[loc..];
    if str[loc] == '\\' {
      if |str| - loc < 2 {
        return Error(InvalidArgument);
      }
      assert rest[1] == str[loc + 1];
      var ecloc := IndexOf(ESCAPED_CODES, str[loc + 1]);
      if ecloc < 7 {
        return Ok(([ESCAPED_CHARS[ecloc]], 2));
      } else if str[loc + 1] == 'u' || str[loc + 1] == 'U' {
        var digits := if str[loc + 1] == 'u' then 4 else 8;
        if |str| - loc < 2 + digits {
          return Error(InvalidArgument);
        }
        assert str[loc + 2..loc + 2 + digits] == rest[2..2 + digits];
        var code :- AccumulateHex(str, loc + 2, digits);
        var u :- Utf8(code);
        return Ok((u, 2 + digits));
      } else if str[loc + 1] == '0' {
        return Ok((['\0'], 2));
      } else {
        return Error(InvalidArgument);
      }
    } else {
      return Ok(([str[loc]], 1));
    }
  }

  method RemoveEscapedCharacters(str: string) returns (r: Attempt<string>)
    ensures r == RemoveEscaped(str)
  {
    hide FirstUnit;
    var out := "";
    var loc: nat := 0;
    assert str[0..] == str;
    assert RemoveEscaped(str).Ok? ==> out + RemoveEscaped(str).value == RemoveEscaped(str).value;
    while loc < |str|
      invariant loc <= |str|
      invariant RemoveEscaped(str) == Prepended(out, RemoveEscaped(str[loc..]))
    {
      var unit :- RemoveOne(str, loc);
      assert str[loc..][unit.1..] == str[loc + unit.1..];
      UnitStep(str[loc..], out);
      out := out + unit.0;
      loc := loc + unit.1;
    }
    assert RemoveEscaped(str[loc..]) == Ok("") && out + "" == out;
    r := Ok(out);
  }

  lemma {:induction false} UnitStep(str: string, out: string)
    requires str != "" && FirstUnit(str).Ok?
    ensures var unit := FirstUnit(str).value;
      Prepended(out, RemoveEscaped(str)) == Prepended(out + unit.0, RemoveEscaped(str[unit.1..]))
  {
    hide FirstUnit;
    var unit, rest := FirstUnit(str).value, RemoveEscaped(str[FirstUnit(str).value.1..]);
    assert rest.Ok? ==> out + (unit.0 + rest.value) == out + unit.0 + rest.value;
  }

  /** Every string comes back from its escaped form. */
  lemma {:induction false} RemoveOfAdd(s: string)
    ensures RemoveEscaped(AddEscaped(s)) == Ok(s)
  {
    hide FirstUnit, Escaped;
    if s != "" {
      RemoveOfAdd(s[1..]);
      UnitOfEscaped(s[0], AddEscaped(s[1..]));
      var e := AddEscaped(s);
      assert e == Escaped(s[0]) + AddEscaped(s[1..]);
      assert e[|Escaped(s[0])|..] == AddEscaped(s[1..]);
      assert s == [s[0]] + s[1..];
    }
  }

  lemma UnitOfEscaped(c: char, rest: string)
    ensures Escaped(c) != "" && FirstUnit(Escaped(c) + rest) == Ok(([c], |Escaped(c)|))
  {
    var at := IndexOf(ESCAPED_CHARS, c);
    var s := Escaped(c) + rest;
    assert ESCAPED_CHARS[6] == '\\';
    if at < 7 {
      assert s[0] == '\\' && s[1] == ESCAPED_CODES[at];
      assert IndexOf(ESCAPED_CODES, ESCAPED_CODES[at]) == at;
    } else {
      assert s[0] == c != '\\';
    }
  }

  /** The n digits of a number, the leading one first. */
  function HexDigits(value: nat, n: nat): (s: string)
    ensures |s| == n
  {
    if n == 0 then "" else HexDigits(value / 16, n - 1) + [HexDigit(value % 16)]
  }

  function HexDigit(d: nat): char
    requires d < 16
  {
    if d < 10 then (d + '0' as int) as char else (d - 10 + 'a' as int) as char
  }

  lemma {:induction false} HexValueOfDigits(value: nat, n: nat)
    requires value < Power16(n)
    ensures AllHex(HexDigits(value, n)) && HexValue(HexDigits(value, n)) == value
  {
    if n > 0 {
      HexValueOfDigits(value / 16, n - 1);
      var s := HexDigits(value, n);
      assert s[..n - 1] == HexDigits(value / 16, n - 1) && s[n - 1] == HexDigit(value % 16);
    }
  }

  /** \UXXXXXXXX for each scalar value. */
  function UnicodeEscapes(codes: seq<nat>): string {
    if codes == [] then "" else "\\U" + HexDigits(codes[0], 8) + UnicodeEscapes(codes[1..])
  }

  /** One such escape is read as the encoding of its value. */
  lemma UnicodeEscapeUnit(code: nat, rest: string)
    requires IsScalar(code)
    ensures var s := "\\U" + HexDigits(code, 8) + rest;
      |s| >= 10 && s[10..] == rest && Utf8(code).Ok? && FirstUnit(s) == Ok((Utf8(code).value, 10))
  {
    hide Utf8, HexValue, HexDigits, AllHex, Power16;
    var digits := HexDigits(code, 8);
    var s := "\\U" + digits + rest;
    PowerTable();
    HexValueOfDigits(code, 8);
    EncodedSequence(code, "");
    assert s[0] == '\\' && s[1] == 'U' && s[2..10] == digits && s[10..] == rest;
    assert IndexOf(ESCAPED_CODES, 'U') == 7;
  }

  /** Unicode escapes of any scalar values turn into the UTF-8 encoding of those values. */
  lemma {:induction false} EscapesBecomeUtf8(codes: seq<nat>)
    requires AllScalar(codes)
    ensures RemoveEscaped(UnicodeEscapes(codes)) == Ok(EncodeAll(codes))
  {
    hide Utf8, HexValue, HexDigits, AllHex, Power16;
    if codes != [] {
      EscapesBecomeUtf8(codes[1..]);
      UnicodeEscapeUnit(codes[0], UnicodeEscapes(codes[1..]));
      hide FirstUnit;
      var s := UnicodeEscapes(codes);
      assert s == "\\U" + HexDigits(codes[0], 8) + UnicodeEscapes(codes[1..]);
    }
  }
}
