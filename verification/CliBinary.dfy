/** Binary escapes: binary_escape_string, is_binary_escaped_string and extract_binary_string. */
module CliBinary {
  import opened Text
  import opened CliEscape

  predicate IsBytes(s: string) { forall i | 0 <= i < |s| :: s[i] as int < 256 }

  /** isprint in the "C" locale. */
  predicate IsPrint(c: char) { 0x20 <= c as int <= 0x7E }

  predicate IsX(c: char) { c == 'x' || c == 'X' }

  /** "\xhh". */
  function HexEscape(c: char): string {
    "\\x" + HexDigits(c as int, 2)
  }

  /** One byte in the escaped text; an x after a backslash is escaped too. */
  function EscapedByte(c: char, afterBackslash: bool): string {
    if !IsPrint(c) || (IsX(c) && afterBackslash) then HexEscape(c) else [c]
  }

  function EscapedBody(s: string, afterBackslash: bool): string
    decreases |s|
  {
    if s == "" then "" else EscapedByte(s[0], afterBackslash) + EscapedBody(s[1..], s[0] == '\\')
  }

  /** Every single quote as "\x27". */
  function Unquoted(s: string): string {
    if s == "" then "" else (if s[0] == '\'' then "\\x27" else [s[0]]) + Unquoted(s[1..])
  }

  const OPENING: string := "'B\"("
  const CLOSING: string := ")\"'"

  predicate NeedsEscape(s: string) { EscapedBody(s, false) != s }

  function BinaryEscape(s: string): string {
    if NeedsEscape(s) then OPENING + Unquoted(EscapedBody(s, false)) + CLOSING else s
  }

  // ---- the loops ----

  lemma {:induction false} EscapedByteEnds(c: char, afterBackslash: bool)
    requires c as int < 256
    ensures |EscapedByte(c, afterBackslash)| > 0
    ensures EscapedByte(c, afterBackslash)[|EscapedByte(c, afterBackslash)| - 1] == '\\' <==> c == '\\'
  {
    var e := EscapedByte(c, afterBackslash);
    if |e| > 1 { assert e[3] == HexDigit(c as int % 16); }
  }

  predicate EndsInBackslash(s: string) { s != "" && s[|s| - 1] == '\\' }

  lemma NothingEscaped(s: string, afterBackslash: bool)
    ensures s == "" ==> EscapedBody(s, afterBackslash) == ""
  {
  }

  lemma OneByte(escaped: string, s: string, i: nat)
    requires i < |s| && IsBytes(s)
    ensures var more := escaped + EscapedByte(s[i], EndsInBackslash(escaped));
      && more + EscapedBody(s[i + 1..], EndsInBackslash(more)) ==
        escaped + EscapedBody(s[i..], EndsInBackslash(escaped))
  {
    hide HexEscape, EscapedByte;
    var byte, after := EscapedByte(s[i], EndsInBackslash(escaped)), EndsInBackslash(escaped);
    EscapedByteEnds(s[i], after);
    var more := escaped + byte;
    assert more[|more| - 1] == byte[|byte| - 1];
    assert s[i..][1..] == s[i + 1..] && s[i..][0] == s[i];
    Regroup(escaped, byte, EscapedBody(s[i + 1..], s[i] == '\\'));
  }

  method EscapeBytes(string_to_escape: string) returns (escaped_string: string)
    requires IsBytes(string_to_escape)
    ensures escaped_string == EscapedBody(string_to_escape, false)
  {
    hide EscapedBody, HexEscape;
    escaped_string := "";
    for i := 0 to |string_to_escape|
      invariant escaped_string + EscapedBody(string_to_escape[i..], EndsInBackslash(escaped_string))
        == EscapedBody(string_to_escape, false)
    {
      var c := string_to_escape[i];
      ghost var was, after := escaped_string, EndsInBackslash(escaped_string);
      OneByte(was, string_to_escape, i);
      if !IsPrint(c) {
        escaped_string := escaped_string + HexEscape(c);
      } else if IsX(c) {
        if escaped_string != "" && escaped_string[|escaped_string| - 1] == '\\' {
          XCode(c);
          escaped_string := escaped_string + "\\x" + (if c == 'x' then "78" else "58");
        } else {
          escaped_string := escaped_string + [c];
        }
      } else {
        escaped_string := escaped_string + [c];
      }
      assert escaped_string == was + EscapedByte(c, after);
    }
    NothingEscaped(string_to_escape[|string_to_escape|..], EndsInBackslash(escaped_string));
    assert escaped_string + "" == escaped_string;
  }

  lemma XCode(c: char)
    requires IsX(c)
    ensures HexEscape(c) == "\\x" + if c == 'x' then "78" else "58"
  {
    var n := c as int;
    assert HexDigits(n / 256, 0) == "";
    assert HexDigits(n / 16, 1) == [HexDigit(n / 16 % 16)];
  }

  lemma {:induction false} UnquotedSplit(a: string, b: string)
    ensures Unquoted(a + b) == Unquoted(a) + Unquoted(b)
  {
    if a == "" {
      assert a + b == b;
    } else {
      assert (a + b)[1..] == a[1..] + b;
      UnquotedSplit(a[1..], b);
    }
  }

  lemma {:induction false} UnquotedClean(a: string)
    requires '\'' !in a
    ensures Unquoted(a) == a
  {
    if a != "" { UnquotedClean(a[1..]); }
  }

  function Quotes(s: string): nat {
    if s == "" then 0 else (if s[0] == '\'' then 1 else 0) + Quotes(s[1..])
  }

  lemma {:induction false} QuotesSplit(a: string, b: string)
    ensures Quotes(a + b) == Quotes(a) + Quotes(b)
  {
    if a == "" {
      assert a + b == b;
    } else {
      assert (a + b)[1..] == a[1..] + b;
      QuotesSplit(a[1..], b);
    }
  }

  /** Replacing the first quote leaves one quote less and the same text without quotes. */
  lemma {:induction false} QuoteReplaced(s: string, at: nat)
    requires at < |s| && s[at] == '\''
    ensures var next := s[..at] + "\\x27" + s[at + 1..];
      Unquoted(next) == Unquoted(s) && Quotes(next) + 1 == Quotes(s)
  {
    var before, after := s[..at], s[at + 1..];
    assert s == before + ("'" + after) && before + "\\x27" + after == before + ("\\x27" + after);
    UnquotedSplit(before, "'" + after);
    UnquotedSplit(before, "\\x27" + after);
    UnquotedSplit("\\x27", after);
    UnquotedClean("\\x27");
    QuotesSplit(before, "'" + after);
    QuotesSplit(before, "\\x27" + after);
    QuotesSplit("\\x27", after);
    assert Quotes("\\x27") == 0 by {
      assert "\\x27"[1..] == "x27" && "x27"[1..] == "27" && "27"[1..] == "7" && "7"[1..] == "";
    }
    assert ("'" + after)[1..] == after;
  }

  /** The loop that looks for a quote from the front until there is none left. */
  method EscapeQuotes(text: string) returns (escaped_string: string)
    ensures escaped_string == Unquoted(text)
  {
    escaped_string := text;
    var sqLoc := IndexOf(escaped_string, '\'');
    while sqLoc < |escaped_string|
      invariant sqLoc == IndexOf(escaped_string, '\'')
      invariant Unquoted(escaped_string) == Unquoted(text)
      decreases Quotes(escaped_string)
    {
      QuoteReplaced(escaped_string, sqLoc);
      ghost var was := escaped_string;
      escaped_string := escaped_string[sqLoc := '\\'];
      escaped_string := escaped_string[..sqLoc + 1] + "x27" + escaped_string[sqLoc + 1..];
      assert escaped_string == was[..sqLoc] + "\\x27" + was[sqLoc + 1..];
      sqLoc := IndexOf(escaped_string, '\'');
    }
    UnquotedClean(escaped_string);
  }

  method BinaryEscapeString(string_to_escape: string) returns (escaped_string: string)
    requires IsBytes(string_to_escape)
    ensures escaped_string == BinaryEscape(string_to_escape)
  {
    escaped_string := EscapeBytes(string_to_escape);
    if escaped_string != string_to_escape {
      escaped_string := EscapeQuotes(escaped_string);
      escaped_string := "'B\"(" + escaped_string;
      escaped_string := escaped_string + [')'];
      escaped_string := escaped_string + ['\"'];
      escaped_string := escaped_string + ['\''];
    }
  }

  // ---- decoding ----

  predicate StartsWith(s: string, a: string) { a <= s }

  predicate EndsWith(s: string, a: string) { |a| <= |s| && s[|s| - |a|..] == a }

  predicate InnerForm(s: string) { StartsWith(s, "B\"(") && EndsWith(s, ")\"") }

  predicate OuterForm(s: string) { StartsWith(s, OPENING) && EndsWith(s, CLOSING) }

  predicate IsBinaryEscaped(s: string) { InnerForm(s) || OuterForm(s) }

  predicate IsEscapeAt(s: string, loc: nat) {
    loc + 3 < |s| && s[loc] == '\\' && IsX(s[loc + 1]) && IsHex(s[loc + 2]) && IsHex(s[loc + 3])
  }

  function HexByte(c1: char, c2: char): char
    requires IsHex(c1) && IsHex(c2)
  {
    (HexConvert(c1) * 16 + HexConvert(c2)) as char
  }

  /** The decoded text of an escaped body. */
  function DecodeBody(s: string): string
    decreases |s|
  {
    if s == "" then ""
    else if IsEscapeAt(s, 0) then [HexByte(s[2], s[3])] + DecodeBody(s[4..])
    else [s[0]] + DecodeBody(s[1..])
  }

  function Extract(s: string): string {
    FormLength(s);
    if InnerForm(s) then DecodeBody(s[3..|s| - 2])
    else if OuterForm(s) then DecodeBody(s[4..|s| - 3])
    else s
  }

  /** The head and the tail of an escaped string do not overlap. */
  lemma FormLength(s: string)
    ensures InnerForm(s) ==> |s| >= 5
    ensures OuterForm(s) ==> |s| >= 7
  {
    if InnerForm(s) {
      assert s[..3] == "B\"(" && s[2] == '(';
      assert s[|s| - 2..][0] == ')' && s[|s| - 2..][1] == '\"';
      assert s[|s| - 2] == ')' && s[|s| - 1] == '\"';
    }
    if OuterForm(s) {
      assert s[..4] == OPENING && s[1] == 'B' && s[2] == '\"' && s[3] == '(';
      var tail := s[|s| - 3..];
      assert tail[0] == ')' && tail[1] == '\"' && tail[2] == '\'';
      assert s[|s| - 3] == ')' && s[|s| - 2] == '\"' && s[|s| - 1] == '\'';
    }
  }

  /** An escape never reaches into the closing characters, which are no hexadecimal digits: the
      index stays below the tail and every character looked at exists. */
  lemma EscapeBeforeTail(s: string, loc: nat, tail: nat)
    requires tail >= 2 && loc + tail < |s|
    requires s[|s| - tail] == ')' && s[|s| - tail + 1] == '\"'
    ensures s[loc] == '\\' && IsX(s[loc + 1]) ==> loc + 3 < |s|
    ensures IsEscapeAt(s, loc) ==> loc + 4 <= |s| - tail
    ensures IsEscapeAt(s, loc) <==> IsEscapeAt(s[loc..|s| - tail], 0)
  {
    assert !IsHex(')') && !IsHex('\"');
  }

  method ExtractBinaryString(escaped_string: string) returns (outstring: string)
    ensures outstring == Extract(escaped_string)
  {
    hide HexConvert, DecodeBody, Extract, InnerForm, OuterForm, IsEscapeAt;
    var start: nat, tail: nat := 0, 0;
    var ssize := |escaped_string|;
    Bounds(escaped_string);
    if InnerForm(escaped_string) {
      start, tail := 3, 2;
    } else if OuterForm(escaped_string) {
      start, tail := 4, 3;
    }
    if start == 0 {
      return escaped_string;
    }
    outstring := "";
    var loc := start;
    while loc < ssize - tail
      invariant start <= loc <= ssize - tail
      invariant outstring + DecodeBody(escaped_string[loc..ssize - tail]) ==
        DecodeBody(escaped_string[start..ssize - tail])
    {
      EscapeBeforeTail(escaped_string, loc, tail);
      DecodeStep(outstring, escaped_string, loc, ssize - tail);
      EscapeAt(escaped_string, loc);
      if escaped_string[loc] == '\\' && IsX(escaped_string[loc + 1]) {
        var res1 := HexConvert(escaped_string[loc + 2]);
        var res2 := HexConvert(escaped_string[loc + 3]);
        if res1 <= 0x0F && res2 <= 0x0F {
          outstring := outstring + [(res1 * 16 + res2) as char];
          loc := loc + 4;
          continue;
        }
      }
      outstring := outstring + [escaped_string[loc]];
      loc := loc + 1;
    }
    DecodeNothing(escaped_string[loc..ssize - tail]);
  }

  lemma DecodeNothing(s: string)
    ensures s == "" ==> DecodeBody(s) == ""
  {
  }

  lemma EscapeAt(s: string, loc: nat)
    ensures IsEscapeAt(s, loc) <==>
      loc + 3 < |s| && s[loc] == '\\' && IsX(s[loc + 1]) && IsHex(s[loc + 2]) && IsHex(s[loc + 3])
  {
  }

  /** What extract_binary_string finds out first. */
  lemma Bounds(s: string)
    ensures InnerForm(s) ==>
      |s| >= 5 && Extract(s) == DecodeBody(s[3..|s| - 2]) && s[|s| - 2] == ')' && s[|s| - 1] == '\"'
    ensures !InnerForm(s) && OuterForm(s) ==>
      |s| >= 7 && Extract(s) == DecodeBody(s[4..|s| - 3]) && s[|s| - 3] == ')' && s[|s| - 2] == '\"'
    ensures !InnerForm(s) && !OuterForm(s) ==> Extract(s) == s
  {
    hide DecodeBody;
    FormLength(s);
    if InnerForm(s) {
      assert s[|s| - 2..][0] == ')' && s[|s| - 2..][1] == '\"';
    } else if OuterForm(s) {
      assert s[|s| - 3..][0] == ')' && s[|s| - 3..][1] == '\"';
    }
  }

  lemma DecodeStep(out: string, s: string, loc: nat, end: nat)
    requires loc < end <= |s|
    ensures IsEscapeAt(s[loc..end], 0) ==> (
      && loc + 4 <= end && IsHex(s[loc + 2]) && IsHex(s[loc + 3])
      && out + DecodeBody(s[loc..end]) == out + [HexByte(s[loc + 2], s[loc + 3])] + DecodeBody(s[loc + 4..end]))
    ensures !IsEscapeAt(s[loc..end], 0) ==>
      out + DecodeBody(s[loc..end]) == out + [s[loc]] + DecodeBody(s[loc + 1..end])
  {
    hide HexConvert;
    var rest := s[loc..end];
    assert rest[1..] == s[loc + 1..end];
    if IsEscapeAt(rest, 0) {
      assert rest[4..] == s[loc + 4..end];
    }
  }

  // ---- the round trip ----

  lemma HexEscapeDecodes(c: char, rest: string)
    requires c as int < 256
    ensures HexEscape(c)[0] == '\\' && |HexEscape(c)| == 4
    ensures DecodeBody(HexEscape(c) + rest) == [c] + DecodeBody(rest)
  {
    hide HexConvert, HexDigits, HexDigit;
    var digits := HexDigits(c as int, 2);
    assert Power16(2) == 256 by { PowerTable(); }
    HexValueOfDigits(c as int, 2);
    TwoDigits(digits);
    var s := HexEscape(c) + rest;
    assert s[2] == digits[0] && s[3] == digits[1] && s[4..] == rest;
  }

  lemma TwoDigits(digits: string)
    requires |digits| == 2 && AllHex(digits)
    ensures HexValue(digits) == HexConvert(digits[0]) * 16 + HexConvert(digits[1])
  {
    hide HexConvert;
    assert digits[..1] == [digits[0]] && digits[..1][..0] == "";
    assert HexValue("") == 0;
    assert HexValue(digits[..1]) == HexConvert(digits[0]);
  }

  lemma {:induction false} UnquotedByte(c: char, afterBackslash: bool)
    requires c as int < 256
    ensures Unquoted(EscapedByte(c, afterBackslash)) ==
      if c == '\'' then HexEscape(c) else EscapedByte(c, afterBackslash)
  {
    hide HexDigits;
    if |EscapedByte(c, afterBackslash)| == 4 {
      NoQuoteInHex(c);
      UnquotedClean(HexEscape(c));
    } else {
      assert [c][1..] == "";
      if c == '\'' { QuoteCode(); }
    }
  }

  lemma NoQuoteInHex(c: char)
    ensures '\'' !in HexEscape(c)
  {
    var n := c as int;
    assert HexDigits(n / 256, 0) == "";
    assert HexDigits(n / 16, 1) == [HexDigit(n / 16 % 16)];
  }

  lemma QuoteCode()
    ensures HexEscape('\'') == "\\x27"
  {
    assert HexDigits(0, 0) == "" && HexDigits(2, 1) == ['2'] && HexDigits(0x27, 2) == "27";
  }

  /** Decoding the escaped text, with its quotes replaced, gives the bytes back; and no x follows
      a backslash that stands for itself. */
  lemma {:induction false} DecodeOfEscaped(s: string, afterBackslash: bool)
    requires IsBytes(s)
    ensures var e := Unquoted(EscapedBody(s, afterBackslash));
      DecodeBody(e) == s && (afterBackslash ==> e == "" || !IsX(e[0]))
    decreases |s|
  {
    hide HexDigits, HexConvert;
    if s != "" {
      var c, rest := s[0], EscapedBody(s[1..], s[0] == '\\');
      DecodeOfEscaped(s[1..], c == '\\');
      UnquotedSplit(EscapedByte(c, afterBackslash), rest);
      UnquotedByte(c, afterBackslash);
      HexEscapeDecodes(c, Unquoted(rest));
      assert s == [c] + s[1..];
      PlainByteDecodes(c, Unquoted(rest));
    }
  }

  lemma PlainByteDecodes(c: char, rest: string)
    ensures c != '\\' || rest == "" || !IsX(rest[0]) ==> DecodeBody([c] + rest) == [c] + DecodeBody(rest)
  {
    hide HexConvert;
    var s := [c] + rest;
    assert s[1..] == rest;
    assert rest != "" ==> s[1] == rest[0];
  }

  /** Escaping and extracting gives a byte string back exactly when it needs escaping or does not
      already look like an escaped one. */
  lemma BinaryRoundTrip(s: string)
    requires IsBytes(s)
    ensures Extract(BinaryEscape(s)) == s <==> NeedsEscape(s) || !IsBinaryEscaped(s)
  {
    hide HexDigits, HexConvert, EscapedBody, Unquoted;
    if NeedsEscape(s) {
      var body := Unquoted(EscapedBody(s, false));
      var e := BinaryEscape(s);
      assert e[..4] == OPENING && e[|e| - 3..] == CLOSING && e[4..|e| - 3] == body;
      assert !InnerForm(e) by { assert e[0] == '\''; assert "B\"("[0] == 'B'; }
      DecodeOfEscaped(s, false);
    } else if IsBinaryEscaped(s) {
      FormLength(s);
      DecodeShrinks(if InnerForm(s) then s[3..|s| - 2] else s[4..|s| - 3]);
    }
  }

  lemma {:induction false} DecodeShrinks(s: string)
    ensures |DecodeBody(s)| <= |s|
    decreases |s|
  {
    hide HexConvert;
    if s != "" { if IsEscapeAt(s, 0) { DecodeShrinks(s[4..]); } else { DecodeShrinks(s[1..]); } }
  }

  /** A string that is wrapped for being binary holds its text between the quotes: there is no
      quote inside, so that it is one literal token. */
  lemma {:induction false} EscapedHasNoQuote(s: string, afterBackslash: bool)
    ensures '\'' !in Unquoted(EscapedBody(s, afterBackslash))
  {
    UnquotedHasNoQuote(EscapedBody(s, afterBackslash));
  }

  lemma {:induction false} UnquotedHasNoQuote(s: string)
    ensures '\'' !in Unquoted(s)
  {
    if s != "" { UnquotedHasNoQuote(s[1..]); }
  }

  lemma {:induction false} PrintableUnchanged(s: string)
    requires forall i | 0 <= i < |s| :: IsPrint(s[i]) && s[i] != '\\'
    ensures !NeedsEscape(s)
  {
    if s != "" {
      PrintableUnchanged(s[1..]);
      assert s == [s[0]] + s[1..];
    }
  }

  /** For example B"(x)" is printed as it is and read as the byte inside. */
  lemma BinaryFormIsLost()
    ensures Extract(BinaryEscape("B\"(x)\"")) != "B\"(x)\""
  {
    hide EscapedBody, Extract, BinaryEscape, OuterForm;
    var s := "B\"(x)\"";
    assert s == "B\"(" + "x" + ")\"";
    assert s[..3] == "B\"(" && s[4..] == ")\"";
    PrintableUnchanged(s);
    BinaryRoundTrip(s);
  }
}
