/** Texts in a config file that ini_join does not print: between triple double quotes with escapes, and with lines
    that go on; and which arguments it prints without quotes. */
module CliConfigTexts {
  import opened Text
  import opened Results
  import opened CliEscape
  import opened CliConfigValue
  import opened CliConfigRoundTrip
  import opened CliConfigLines

  // ---- escapes between triple quotes ----

  function Triple(c: char): string { [c, c, c] }

  lemma BehindTriple(c: char, text: string)
    requires c == '\'' || c == '\"'
    ensures BehindQuotes(Triple(c) + text) == text
  {
    var line := Triple(c) + text;
    assert line[0] == c && FirstInk(line) == 0 && Ltrim(line) == line;
  }

  /** Between triple double quotes every text is read from its escaped form. */
  lemma {:induction false} EscapedTextBack(text: string, more: seq<string>)
    ensures QuotedText('\"', Triple('\"') + (AddEscaped(text) + Triple('\"')), more) == Ok(text)
  {
    hide BehindQuotes, AddEscaped, RemoveEscaped, MoreText;
    var item := AddEscaped(text) + Triple('\"');
    BehindTriple('\"', item);
    assert item[|item| - 1] == item[|item| - 2] == item[|item| - 3] == '\"';
    assert item[..|item| - 3] == AddEscaped(text);
    RemoveOfAdd(text);
  }

  // ---- lines that go on ----

  /** A line that ends in a backslash goes on with the next one, without the blanks around that: the two are read as one
      line. */
  lemma {:induction false} LineGoesOn(c: char, front: string, before: string, next: string, after: string,
    more: seq<string>)
    requires (c == '\'' || c == '\"') && AllSpace(before) && AllSpace(after) && next != "" && IsTrimmed(next)
    requires '\n' !in front + next && (EndsTriple(front + next, c) ==> EndsTriple(next, c))
    ensures QuotedText(c, Triple(c) + (front + "\\"), [before + next + after] + more) ==
      QuotedText(c, Triple(c) + (front + next), more)
  {
    hide BehindQuotes, MoreText, Rtrim, Ltrim, Trim, Unescaped, EndsTriple, EndsBackslash;
    var line := before + next + after;
    BehindTriple(c, front + "\\");
    BehindTriple(c, front + next);
    BackslashEnds(front);
    TrimUnique(before, next, after);
    MoreStep(front, line, more, true, true, c);
    RtrimAround(before, next, after);
    NextEnds(front, next, c);
    if EndsTriple(next, c) {
      ClosesAlike(c, front, before, next);
    } else {
      NoTripleBefore(before, next, c);
      FirstMattersNot(front + next, more, c);
      FirstMattersNot(front + next[..|next| - 1], more, c);
    }
  }

  lemma BackslashEnds(front: string)
    ensures EndsBackslash(front + "\\") && (front + "\\")[..|front|] == front
  {
  }

  lemma RtrimAround(before: string, next: string, after: string)
    requires AllSpace(after) && next != "" && !IsSpace(next[|next| - 1])
    ensures Rtrim(before + next + after) == before + next
  {
    hide EndOfInk;
    var line, n := before + next + after, |before + next|;
    assert line[n - 1] == next[|next| - 1] && forall i | n <= i < |line| :: line[i] == after[i - n];
    assert EndOfInk(line) == n;
    assert line[..n] == before + next;
  }

  lemma NextEnds(front: string, next: string, c: char)
    requires next != ""
    ensures EndsBackslash(front + next) <==> EndsBackslash(next)
    ensures EndsBackslash(next) ==> (front + next)[..|front + next| - 1] == front + next[..|next| - 1]
    ensures EndsTriple(next, c) ==> EndsTriple(front + next, c) && |next| >= 3 && !(EndsBackslash(next) && c != '\\')
  {
  }

  lemma NoTripleBefore(before: string, next: string, c: char)
    requires AllSpace(before) && next != "" && (c == '\'' || c == '\"') && !EndsTriple(next, c)
    ensures !EndsTriple(before + next, c)
  {
    var line := before + next;
    assert forall i | 0 <= i < |before| :: line[i] == before[i];
    assert forall i | |before| <= i < |line| :: line[i] == next[i - |before|];
  }

  lemma ClosesAlike(c: char, front: string, before: string, next: string)
    requires AllSpace(before) && IsTrimmed(next) && EndsTriple(next, c) && '\n' !in front + next
    ensures EndsTriple(before + next, c) && |before + next| >= 3
    ensures var body := (before + next)[..|before + next| - 3];
      ClosedText(front + Ltrim(body), c) == Unescaped((front + next)[..|front + next| - 3], c)
  {
    hide Unescaped;
    var body, text := (before + next)[..|before + next| - 3], next[..|next| - 3];
    assert body == before + text;
    LtrimAround(before, text);
    assert (front + next)[..|front + next| - 3] == front + text;
    assert forall i | 0 <= i < |front + text| :: (front + text)[i] == (front + next)[i];
  }

  lemma LtrimAround(before: string, text: string)
    requires AllSpace(before) && (text != "" ==> !IsSpace(text[0]))
    ensures Ltrim(before + text) == text
  {
    hide FirstInk;
    var line := before + text;
    assert forall i | 0 <= i < |before| :: line[i] == before[i];
    assert text != "" ==> line[|before|] == text[0];
    assert FirstInk(line) == |before|;
  }

  /** The mark of the first line matters only while there is no text. */
  lemma FirstMattersNot(item: string, more: seq<string>, c: char)
    ensures MoreText(item, more, true, false, c) == MoreText(item, more, true, true, c)
    ensures item != "" ==> MoreText(item, more, false, false, c) == MoreText(item, more, false, true, c)
  {
    hide MoreText, Rtrim, Ltrim, Trim, ClosedText, EndsTriple, EndsBackslash;
    if more == [] {
      NoMoreText();
    } else {
      assert more == [more[0]] + more[1..];
      MoreStep(item, more[0], more[1..], true, true, c);
      MoreStep(item, more[0], more[1..], true, false, c);
      MoreStep(item, more[0], more[1..], false, true, c);
      MoreStep(item, more[0], more[1..], false, false, c);
    }
  }

  // ---- arguments without quotes ----

  const OCTAL: string := "01234567"
  const BINARY: string := "01"

  predicate AllIn(s: string, chars: string) { forall i | 0 <= i < |s| :: s[i] in chars }

  /** Octal and binary numbers are printed without quotes, whatever else counts as a number; with any other digit
      they are no such numbers. */
  lemma PrefixedNumbers(digits: string, isNumber: Number)
    ensures !isNumber("0o" + digits) ==> (IsPlain("0o" + digits, isNumber) <==> AllIn(digits, OCTAL))
    ensures !isNumber("0b" + digits) ==> (IsPlain("0b" + digits, isNumber) <==> AllIn(digits, BINARY))
  {
    hide IsDecimal, AllHex, AllIn, IsOctal, IsBinary;
    var o, b := "0o" + digits, "0b" + digits;
    assert o[0] == '0' && o[1] == 'o' && o[2..] == digits && b[0] == '0' && b[1] == 'b' && b[2..] == digits;
    NoWord(o);
    NoWord(b);
    DigitsIn(digits);
  }

  lemma NoWord(s: string)
    requires s != "" && s[0] == '0'
    ensures s !in ["true", "false", "nan", "inf"]
  {
    assert "true"[0] == 't' && "false"[0] == 'f' && "nan"[0] == 'n' && "inf"[0] == 'i';
  }

  lemma DigitsIn(digits: string)
    ensures AllIn(digits, OCTAL) <==> IsOctal(digits)
    ensures AllIn(digits, BINARY) <==> IsBinary(digits)
  {
    var t := OCTAL;
    assert t[0] == '0' && t[1] == '1' && t[2] == '2' && t[3] == '3' && t[4] == '4' && t[5] == '5' && t[6] == '6';
    assert t[7] == '7' && BINARY[0] == '0' && BINARY[1] == '1';
    forall i | 0 <= i < |digits| ensures digits[i] in OCTAL <==> '0' <= digits[i] <= '7' {
      if '0' <= digits[i] <= '7' { assert t[digits[i] as int - '0' as int] == digits[i]; }
    }
  }

  // ---- texts that an option takes apart ----

  /** Texts behind each other, each with some delimiters behind it. */
  function Delimited(texts: seq<string>, gaps: seq<string>): string
    requires |texts| == |gaps|
  {
    if texts == [] then "" else texts[0] + gaps[0] + Delimited(texts[1..], gaps[1..])
  }

  predicate AllDelimiters(gap: string, delimiter: char) { forall i | 0 <= i < |gap| :: gap[i] == delimiter }

  lemma {:induction false} NoFieldsInGap(gap: string, rest: string, delimiter: char)
    requires AllDelimiters(gap, delimiter)
    ensures Fields(gap + rest, delimiter) == Fields(rest, delimiter)
    decreases |gap|
  {
    hide IndexOf, Fields;
    if gap == "" {
      assert gap + rest == rest;
    } else {
      var s := gap + rest;
      assert s[0] == delimiter && s[1..] == gap[1..] + rest;
      IndexIs(s, delimiter, 0);
      FieldsUnfold(s, delimiter);
      Regroup(Fields(s[1..], delimiter), [], []);
      NoFieldsInGap(gap[1..], rest, delimiter);
    }
  }

  /** An option with a delimiter gets just the texts that are not empty, however many delimiters stand between and
      around them. */
  lemma {:induction false} FieldsBack(first: string, texts: seq<string>, gaps: seq<string>, delimiter: char)
    requires |texts| == |gaps| && AllDelimiters(first, delimiter)
    requires forall i | 0 <= i < |texts| :: texts[i] != "" && delimiter !in texts[i]
    requires forall i | 0 <= i < |gaps| :: AllDelimiters(gaps[i], delimiter) && (i + 1 < |gaps| ==> gaps[i] != "")
    ensures Fields(first + Delimited(texts, gaps), delimiter) == texts
    decreases |texts|
  {
    hide IndexOf, Fields;
    NoFieldsInGap(first, Delimited(texts, gaps), delimiter);
    if texts == [] {
      NoFields(delimiter);
    } else {
      var text, gap, rest := texts[0], gaps[0], Delimited(texts[1..], gaps[1..]);
      var s := text + gap + rest;
      FieldsBack("", texts[1..], gaps[1..], delimiter);
      assert "" + rest == rest;
      FirstField(text, gap, rest, delimiter);
      NoFieldsInGap(if gap == "" then "" else gap[1..], rest, delimiter);
      assert texts == [text] + texts[1..];
    }
  }

  lemma FirstField(text: string, gap: string, rest: string, delimiter: char)
    requires text != "" && delimiter !in text && AllDelimiters(gap, delimiter) && (gap == "" ==> rest == "")
    ensures Fields(text + gap + rest, delimiter) ==
      [text] + Fields((if gap == "" then "" else gap[1..]) + rest, delimiter)
  {
    hide IndexOf, Fields;
    var s := text + gap + rest;
    assert forall i | 0 <= i < |text| :: s[i] == text[i];
    assert gap != "" ==> s[|text|] == gap[0];
    IndexIs(s, delimiter, |text|);
    FieldsUnfold(s, delimiter);
    assert s[..|text|] == text;
    if gap == "" { assert "" + rest == ""; } else { assert s[|text| + 1..] == gap[1..] + rest; }
  }
}
