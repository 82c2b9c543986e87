/** The language of escaped texts: which texts remove_escaped_characters accepts, and what each of their parts stands
    for. */
module CliUnits {
  import opened Text
  import opened Results
  import opened CliEscape
  import opened CliBinary

  const LOWER_DIGITS: string := "0123456789abcdef"
  const UPPER_DIGITS: string := "0123456789ABCDEF"

  /** A character, a backslash with one of seven letters or with 0, or a code of 4 or 8 hexadecimal digits. */
  datatype Unit = Plain(c: char) | Short(at: nat) | Zero | Code(digits: string) {
    ghost predicate Valid() {
      match this
      case Plain(c) => c != '\\'
      case Short(at) => at < 7
      case Zero => true
      case Code(digits) => (|digits| == 4 || |digits| == 8) && AllDigits(digits) && !IsSurrogate(HexValue(digits))
    }

    ghost function Render(): string
      requires Valid()
    {
      match this
      case Plain(c) => [c]
      case Short(at) => ['\\', ESCAPED_CODES[at]]
      case Zero => "\\0"
      case Code(digits) => (if |digits| == 4 then "\\u" else "\\U") + digits
    }

    /** A code stands for its UTF-8 encoding, and for nothing at all beyond the last code point. */
    ghost function Meaning(): string
      requires Valid()
    {
      match this
      case Plain(c) => [c]
      case Short(at) => [ESCAPED_CHARS[at]]
      case Zero => "\0"
      case Code(digits) =>
        DigitsAreHex(digits);
        if IsScalar(HexValue(digits)) then EncodeAll([HexValue(digits)]) else ""
    }
  }

  predicate IsSurrogate(code: nat) { 0xD800 <= code <= 0xDFFF }

  /** A hexadecimal digit with its value, in either case. */
  predicate IsDigit(c: char, value: nat) { value < 16 && (c == LOWER_DIGITS[value] || c == UPPER_DIGITS[value]) }

  ghost predicate HasValue(c: char) { exists value :: IsDigit(c, value) }

  ghost predicate AllDigits(s: string)
    ensures AllDigits(s) ==> AllHex(s)
  {
    DigitsAreHex(s);
    forall i | 0 <= i < |s| :: HasValue(s[i])
  }

  /** hexConvert gives every digit its value, and nothing else one. */
  lemma DigitIs(c: char, value: nat)
    ensures IsDigit(c, value) <==> HexConvert(c) == value < 16
  {
    var l, u := LOWER_DIGITS, UPPER_DIGITS;
    assert l[0] == '0' && l[1] == '1' && l[2] == '2' && l[3] == '3' && l[4] == '4' && l[5] == '5' && l[6] == '6';
    assert l[7] == '7' && l[8] == '8' && l[9] == '9' && l[10] == 'a' && l[11] == 'b' && l[12] == 'c' && l[13] == 'd';
    assert l[14] == 'e' && l[15] == 'f';
    assert u[0] == '0' && u[1] == '1' && u[2] == '2' && u[3] == '3' && u[4] == '4' && u[5] == '5' && u[6] == '6';
    assert u[7] == '7' && u[8] == '8' && u[9] == '9' && u[10] == 'A' && u[11] == 'B' && u[12] == 'C' && u[13] == 'D';
    assert u[14] == 'E' && u[15] == 'F';
  }

  lemma DigitsAreHex(s: string)
    ensures (forall i | 0 <= i < |s| :: HasValue(s[i])) <==> AllHex(s)
  {
    hide IsHex, HasValue;
    forall i | 0 <= i < |s| ensures HasValue(s[i]) <==> IsHex(s[i]) { ValueIsHex(s[i]); }
  }

  lemma ValueIsHex(c: char)
    ensures HasValue(c) <==> IsHex(c)
  {
    hide HexConvert, IsDigit;
    DigitIs(c, HexConvert(c));
    if value :| IsDigit(c, value) { DigitIs(c, value); }
  }

  ghost predicate AllValid(units: seq<Unit>) { forall i | 0 <= i < |units| :: units[i].Valid() }

  ghost function RenderAll(units: seq<Unit>): string
    requires AllValid(units)
  {
    if units == [] then "" else units[0].Render() + RenderAll(units[1..])
  }

  ghost function MeaningAll(units: seq<Unit>): string
    requires AllValid(units)
  {
    if units == [] then "" else units[0].Meaning() + MeaningAll(units[1..])
  }

  lemma OneEncoded(code: nat)
    ensures !IsSurrogate(code) ==>
      Utf8(code) == Ok(if IsScalar(code) then EncodeAll([code]) else "")
    ensures IsSurrogate(code) ==> Utf8(code).Error?
  {
    if IsScalar(code) {
      EncodedSequence(code, "");
      assert [code][1..] == [];
      assert Utf8(code).value + "" == Utf8(code).value;
    }
  }

  lemma CodeTables()
    ensures |ESCAPED_CODES| == |ESCAPED_CHARS| == 7
    ensures 'u' !in ESCAPED_CODES && 'U' !in ESCAPED_CODES && '0' !in ESCAPED_CODES
    ensures forall i, j | 0 <= i < j < 7 :: ESCAPED_CODES[i] != ESCAPED_CODES[j]
  {
    var c := ESCAPED_CODES;
    assert c[0] == 'b' && c[1] == 't' && c[2] == 'n' && c[3] == 'f' && c[4] == 'r' && c[5] == '\"' && c[6] == '\\';
  }

  lemma IndexOfOnly(s: string, c: char)
    ensures IndexOf(s, c) < |s| <==> c in s
  {
  }

  /** The first unit of a text is the one it starts with. */
  lemma {:induction false} FirstIs(unit: Unit, rest: string)
    requires unit.Valid()
    ensures unit.Render() != "" && FirstUnit(unit.Render() + rest) == Ok((unit.Meaning(), |unit.Render()|))
  {
    hide IndexOf, Utf8, HexValue, AllHex, EncodeAll, AllDigits;
    var s := unit.Render() + rest;
    CodeTables();
    match unit {
      case Plain(c) =>
      case Short(at) =>
        assert s[1] == ESCAPED_CODES[at];
        IndexOfOnly(ESCAPED_CODES, s[1]);
      case Zero =>
        assert s[1] == '0';
        IndexOfOnly(ESCAPED_CODES, '0');
      case Code(digits) =>
        assert s[1] == (if |digits| == 4 then 'u' else 'U') && s[2..2 + |digits|] == digits;
        IndexOfOnly(ESCAPED_CODES, s[1]);
        OneEncoded(HexValue(digits));
    }
  }

  /** What a text starts with, when it is accepted. */
  lemma {:induction false} UnitOf(str: string) returns (unit: Unit)
    requires str != "" && FirstUnit(str).Ok?
    ensures unit.Valid() && unit.Render() <= str && FirstUnit(str).value == (unit.Meaning(), |unit.Render()|)
  {
    hide IndexOf, Utf8, HexValue, AllHex, EncodeAll;
    CodeTables();
    if str[0] != '\\' {
      unit := Plain(str[0]);
    } else {
      var at := IndexOf(ESCAPED_CODES, str[1]);
      if at < 7 {
        unit := Short(at);
      } else if str[1] == '0' {
        unit := Zero;
      } else {
        var digits := str[2..2 + if str[1] == 'u' then 4 else 8];
        unit := Code(digits);
        assert AllHex(digits);
        assert AllDigits(digits) by { DigitsAreHex(digits); }
        OneEncoded(HexValue(digits));
        assert str[..|digits| + 2] == str[..2] + digits && str[..2] == [str[0], str[1]];
      }
    }
  }

  /** Every text made of units is accepted and stands for what they stand for ... */
  lemma {:induction false} UnitsAreRead(units: seq<Unit>)
    requires AllValid(units)
    ensures RemoveEscaped(RenderAll(units)) == Ok(MeaningAll(units))
    decreases |units|
  {
    hide FirstUnit, Unit.Render, Unit.Meaning, Unit.Valid;
    if units != [] {
      var rest := RenderAll(units[1..]);
      UnitsAreRead(units[1..]);
      FirstIs(units[0], rest);
      var s := units[0].Render() + rest;
      assert s[|units[0].Render()|..] == rest;
    }
  }

  /** ... and no other text is accepted. */
  lemma {:induction false} OnlyUnitsAreRead(str: string) returns (units: seq<Unit>)
    requires RemoveEscaped(str).Ok?
    ensures AllValid(units) && str == RenderAll(units) && RemoveEscaped(str).value == MeaningAll(units)
    decreases |str|
  {
    hide FirstUnit, Unit.Render, Unit.Meaning, Unit.Valid;
    units := [];
    if str != "" {
      var unit := UnitOf(str);
      var n := |unit.Render()|;
      var rest := OnlyUnitsAreRead(str[n..]);
      units := [unit] + rest;
      assert units[1..] == rest && str == unit.Render() + str[n..];
    }
  }

  // ---- binary texts ----

  /** A byte is read from two hexadecimal digits in either case, behind an x in either case. */
  lemma ByteIsRead(x: char, c: char, high: nat, d: char, low: nat, rest: string)
    requires (x == 'x' || x == 'X') && IsDigit(c, high) && IsDigit(d, low)
    ensures DecodeBody(['\\', x, c, d] + rest) == [(16 * high + low) as char] + DecodeBody(rest)
  {
    hide HexConvert;
    DigitIs(c, high);
    DigitIs(d, low);
    assert (['\\', x, c, d] + rest)[4..] == rest;
  }

  /** Both wrapped forms of a text are decoded alike. */
  lemma FormsDecodeAlike(body: string)
    ensures Extract("B\"(" + body + ")\"") == Extract("'B\"(" + body + ")\"'") == DecodeBody(body)
  {
    hide DecodeBody;
    var inner, outer := "B\"(" + body + ")\"", "'B\"(" + body + ")\"'";
    assert inner[..3] == "B\"(" && inner[|inner| - 2..] == ")\"" && inner[3..|inner| - 2] == body;
    assert outer[0] == '\'' && OPENING[0] == '\'';
    assert outer[..4] == OPENING && outer[|outer| - 3..] == CLOSING && outer[4..|outer| - 3] == body;
    assert outer[..3][0] == '\'' && "B\"("[0] == 'B';
  }
}
