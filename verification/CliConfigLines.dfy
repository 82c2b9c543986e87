/** The value part of from_config for values of one line and of taking, and what ini_join prints
    read back from the lines of a file. */
module CliConfigLines {
  import opened Text
  import opened Results
  import opened CliEscape
  import opened CliBinary
  import opened CliBrackets
  import opened CliConfigValue
  import opened CliConfigRoundTrip

  function Ltrim(s: string): string { s[FirstInk(s)..] }

  function Rtrim(s: string): string { s[..EndOfInk(s)] }

  /** The lines of a text, as getline gives them. */
  function Lines(s: string): (r: seq<string>)
    ensures r != []
  {
    var n := IndexOf(s, '\n');
    if n == |s| then [s] else [s[..n]] + Lines(s[n + 1..])
  }

  // ---- values over several lines ----

  predicate EndsTriple(s: string, c: char) { |s| >= 3 && s[|s| - 1] == c && s[|s| - 2] == c && s[|s| - 3] == c }

  predicate EndsBackslash(s: string) { s != "" && s[|s| - 1] == '\\' }

  function Unescaped(s: string, c: char): Attempt<string> { if c == '\"' then RemoveEscaped(s) else Ok(s) }

  /** The text is closed: a line end right before the closing quotes is dropped. */
  function ClosedText(s: string, c: char): Attempt<string> {
    Unescaped(if s != "" && s[|s| - 1] == '\n' then s[..|s| - 1] else s, c)
  }

  /** What the next line is added to. */
  function Start(item: string, extension: bool, first: bool): string {
    if extension || (first && item == "") then item else item + "\n"
  }

  /** The lines after the first: a line that ends in a backslash goes on without its blanks and without a line end, and
      an empty first line counts for nothing. */
  function MoreText(item: string, more: seq<string>, extension: bool, first: bool, c: char): Attempt<string>
    decreases |more|
  {
    if more == [] then Ok(item)
    else
      var line := Rtrim(more[0]);
      var start := Start(item, extension, first);
      if EndsTriple(line, c) then
        var body := line[..|line| - 3];
        ClosedText(start + if extension then Ltrim(body) else body, c)
      else
        var l := if extension then Trim(more[0]) else more[0];
        MoreText(start + if EndsBackslash(l) then l[..|l| - 1] else l, more[1..], EndsBackslash(l), false, c)
  }

  /** The text without its blanks in front and without three characters, which are taken for the quotes. */
  function BehindQuotes(text: string): string {
    var item := Ltrim(text);
    if |item| <= 3 then "" else item[3..]
  }

  /** A value that starts with three quotes c, from the text behind '=' and the lines that follow. */
  function QuotedText(c: char, text: string, more: seq<string>): Attempt<string> {
    var item := BehindQuotes(text);
    if EndsBackslash(item) then MoreText(item[..|item| - 1], more, true, true, c)
    else if EndsTriple(item, c) then Unescaped(item[..|item| - 3], c)
    else MoreText(item, more, false, true, c)
  }

  /** An array goes on until a line that ends in ']'. */
  function ArrayText(item: string, more: seq<string>): string
    requires item != ""
    decreases |more|
  {
    if item[|item| - 1] == ']' || more == [] then item else ArrayText(item + Trim(more[0]), more[1..])
  }

  /** The items of the value of a line whose '=' stands at a position of the trimmed line. A text in triple quotes
      is cut from the untrimmed line at the same position. A comment is looked for when the search for '#' found one. */
  function ItemsOfValue(buffer: string, at: nat, comment: bool, more: seq<string>): Attempt<seq<string>>
    requires at < |Trim(buffer)|
  {
    var value := Trim(Trim(buffer)[at + 1..]);
    if IsMultiLine(value) then
      var item :- QuotedText(value[0], buffer[at + 1..], more);
      Ok([item])
    else
      var item := if comment then WithoutComment(value) else value;
      Ok(ItemTokens(if |item| > 1 && item[0] == '[' then ArrayText(item, more) else item))
  }

  function ReadLinesOfValue(buffer: string, at: nat, comment: bool, more: seq<string>, taking: Taking)
    : Attempt<seq<string>>
    requires at < |Trim(buffer)|
  {
    var items :- ItemsOfValue(buffer, at, comment, more);
    ReadTokens(items, taking)
  }

  // ---- the loops ----

  lemma MoreStep(item: string, line: string, more: seq<string>, extension: bool, first: bool, c: char)
    ensures MoreText(item, [line] + more, extension, first, c) ==
      if EndsTriple(Rtrim(line), c) then
        var body := Rtrim(line)[..|Rtrim(line)| - 3];
        ClosedText(Start(item, extension, first) + if extension then Ltrim(body) else body, c)
      else
        var l := if extension then Trim(line) else line;
        MoreText(Start(item, extension, first) + if EndsBackslash(l) then l[..|l| - 1] else l, more, EndsBackslash(l),
          false, c)
  {
    hide Trim, Rtrim, Ltrim, ClosedText, EndsTriple, EndsBackslash;
    assert ([line] + more)[0] == line && ([line] + more)[1..] == more;
  }

  /** The loop body for one more line: whether it closes the text, and the text so far. */
  method TakeLine(text: string, next: string, lineExtension: bool, firstLine: bool, keyChar: char)
    returns (closed: bool, item: string, extension: bool)
    ensures closed == EndsTriple(Rtrim(next), keyChar)
    ensures closed ==>
      var body := Rtrim(next)[..|Rtrim(next)| - 3];
      Unescaped(item, keyChar) ==
        ClosedText(Start(text, lineExtension, firstLine) + if lineExtension then Ltrim(body) else body, keyChar)
    ensures !closed ==>
      var l := if lineExtension then Trim(next) else next;
      && extension == EndsBackslash(l)
      && item == Start(text, lineExtension, firstLine) + if extension then l[..|l| - 1] else l
  {
    hide Trim, Rtrim, Ltrim, Unescaped;
    var l2, line := next, Rtrim(next);
    item, extension, closed := text, false, EndsTriple(line, keyChar);
    if closed {
      line := line[..|line| - 3];
      if lineExtension {
        line := Ltrim(line);
      } else if !(firstLine && item == "") {
        item := item + "\n";
      }
      item := item + line;
      if item != "" && item[|item| - 1] == '\n' {
        item := item[..|item| - 1];
      }
      return;
    }
    if lineExtension {
      l2 := Trim(l2);
    } else if !(firstLine && item == "") {
      item := item + "\n";
    }
    if l2 != "" && l2[|l2| - 1] == '\\' {
      extension := true;
      l2 := l2[..|l2| - 1];
    }
    item := item + l2;
  }

  method ReadQuoted(keyChar: char, text: string, more: seq<string>) returns (r: Attempt<string>)
    ensures r == QuotedText(keyChar, text, more)
  {
    hide Trim, Rtrim, Ltrim, Unescaped, MoreText, EndsBackslash, EndsTriple, Start, ClosedText;
    NoMoreText();
    var item := Ltrim(text);
    item := if |item| <= 3 then "" else item[3..];
    var lineExtension, firstLine := false, true;
    EndsAreLong(item, keyChar);
    if EndsBackslash(item) {
      item := item[..|item| - 1];
      lineExtension := true;
    } else if EndsTriple(item, keyChar) {
      item := item[..|item| - 3];
      return Unescaped(item, keyChar);
    }
    ghost var all := MoreText(item, more, lineExtension, firstLine, keyChar);
    for n := 0 to |more|
      invariant all == MoreText(item, more[n..], lineExtension, firstLine, keyChar)
    {
      assert more[n..] == [more[n]] + more[n + 1..];
      MoreStep(item, more[n], more[n + 1..], lineExtension, firstLine, keyChar);
      var closed;
      closed, item, lineExtension := TakeLine(item, more[n], lineExtension, firstLine, keyChar);
      firstLine := false;
      if closed {
        return Unescaped(item, keyChar);
      }
    }
    r := Ok(item);
  }

  lemma EndsAreLong(s: string, c: char)
    ensures (EndsBackslash(s) ==> s != "") && (EndsTriple(s, c) ==> |s| >= 3)
  {
  }

  lemma NoMoreText()
    ensures forall item, extension, first, c :: MoreText(item, [], extension, first, c) == Ok(item)
    ensures forall s | EndsBackslash(s) :: s != ""
  {
  }

  /** The value part of from_config: a line whose '=' was found, and the lines that follow it. */
  method ReadItems(buffer: string, delimiter_pos: nat, comment: bool, more: seq<string>)
    returns (items_buffer: Attempt<seq<string>>)
    requires delimiter_pos < |Trim(buffer)|
    ensures items_buffer == ItemsOfValue(buffer, delimiter_pos, comment, more)
  {
    hide SplitUp, QuotedText, Trim;
    var line := Trim(buffer);
    var item := Trim(line[delimiter_pos + 1..]);
    if IsMultiLine(item) {
      item :- ReadQuoted(item[0], buffer[delimiter_pos + 1..], more);
      return Ok([item]);
    }
    if comment && '#' in item {
      var citems := SplitUpText(item, '#');
      if citems != [] { item := Trim(citems[0]); }
    }
    var items := [item];
    if |item| > 1 && item[0] == '[' {
      ghost var start := item;
      var n := 0;
      while item[|item| - 1] != ']' && n < |more|
        invariant 0 <= n <= |more| && |item| > 1 && item[0] == '['
        invariant ArrayText(item, more[n..]) == ArrayText(start, more)
        decreases |more| - n
      {
        assert more[n..][0] == more[n] && more[n..][1..] == more[n + 1..];
        item := item + Trim(more[n]);
        n := n + 1;
      }
      items := SplitUpText(if item[|item| - 1] == ']' then item[1..|item| - 1] else item[1..], ',');
    } else if ',' in item {
      items := SplitUpText(item, ',');
    } else if ' ' in item {
      items := SplitUpText(item, '\0');
    }
    items_buffer := Ok(items);
  }

  // ---- what comes back from several lines ----

  /** The lines of a text after its first: all but the last neither go on nor close the quotes, and the last is not
      empty. */
  predicate StaysBehind(rest: string) {
    var n := IndexOf(rest, '\n');
    if n == |rest| then rest != ""
    else !EndsBackslash(rest[..n]) && !EndsTriple(Rtrim(rest[..n]), '\'') && StaysBehind(rest[n + 1..])
  }

  /** A text that stands between triple quotes as it is: one line, or several of which the first is not empty and
      neither goes on nor closes the quotes, and the others stay. */
  predicate StaysQuoted(arg: string) {
    var n := IndexOf(arg, '\n');
    n < |arg| ==> n > 0 && !EndsBackslash(arg[..n]) && !EndsTriple(arg[..n], '\'') && StaysBehind(arg[n + 1..])
  }

  lemma LinesAround(front: string, arg: string, back: string)
    requires '\n' !in front && '\n' !in back
    ensures var n := IndexOf(arg, '\n');
      Lines(front + arg + back) ==
        if n == |arg| then [front + arg + back] else [front + arg[..n]] + Lines(arg[n + 1..] + back)
  {
    hide IndexOf, Lines;
    var n, s := IndexOf(arg, '\n'), front + arg + back;
    if n == |arg| {
      FirstLine(s, |s|);
    } else {
      FirstLine(s, |front| + n);
      assert s[..|front| + n] == front + arg[..n] && s[|front| + n + 1..] == arg[n + 1..] + back;
    }
  }

  lemma LinesOfClosed(rest: string)
    ensures var n := IndexOf(rest, '\n');
      Lines(rest + "'''") == if n == |rest| then [rest + "'''"] else [rest[..n]] + Lines(rest[n + 1..] + "'''")
  {
    hide IndexOf, Lines;
    LinesAround("", rest, "'''");
    Regroup("", rest, "'''");
    NothingBefore(rest);
    if IndexOf(rest, '\n') < |rest| { NothingBefore(rest[..IndexOf(rest, '\n')]); }
  }

  lemma NothingBefore(s: string)
    ensures "" + s == s
  {
  }

  lemma FirstLine(s: string, n: nat)
    requires n <= |s| && (forall i | 0 <= i < n :: s[i] != '\n') && (n < |s| ==> s[n] == '\n')
    ensures Lines(s) == if n == |s| then [s] else [s[..n]] + Lines(s[n + 1..])
  {
    LinesUnfold(s);
    hide IndexOf, Lines;
    IndexIs(s, '\n', n);
  }

  lemma LinesUnfold(s: string)
    ensures var n := IndexOf(s, '\n'); Lines(s) == if n == |s| then [s] else [s[..n]] + Lines(s[n + 1..])
  {
    hide IndexOf;
  }

  lemma {:induction false} IndexIs(s: string, c: char, n: nat)
    requires n <= |s| && (forall i | 0 <= i < n :: s[i] != c) && (n < |s| ==> s[n] == c)
    ensures IndexOf(s, c) == n
  {
    hide IndexOf;
  }

  lemma ClosedIsShort(s: string)
    ensures ClosedText(s, '\'').Ok? && |ClosedText(s, '\'').value| <= |s|
    ensures ClosedText(s, '\'').value == s <==> s == "" || s[|s| - 1] != '\n'
  {
  }

  lemma LastLineBack(item: string, rest: string, after: seq<string>, extension: bool, first: bool)
    requires IndexOf(rest, '\n') == |rest|
    ensures var t := MoreText(item, [rest + "'''"] + after, extension, first, '\'');
      && t.Ok? && |t.value| <= |item| + |rest| + (if extension then 0 else 1)
      && (!extension ==> (t.value == item + "\n" + rest <==> rest != "" && !(first && item == "")))
  {
    hide ClosedText, MoreText, Trim, EndsBackslash, Rtrim, Ltrim, IndexOf;
    var line := rest + "'''";
    ClosingLine(rest);
    MoreStep(item, line, after, extension, first, '\'');
    if extension { LtrimIsShort(rest); }
    ClosedIsShort(Start(item, extension, first) + if extension then Ltrim(rest) else rest);
    LastBehindStart(item, rest, first);
  }

  lemma ClosingLine(rest: string)
    ensures var line := rest + "'''"; EndsTriple(line, '\'') && Rtrim(line) == line && line[..|line| - 3] == rest
  {
    hide EndOfInk;
    var line := rest + "'''";
    assert line[|line| - 1] == '\'' && EndOfInk(line) == |line|;
  }

  lemma LtrimIsShort(s: string)
    ensures |Ltrim(s)| <= |s|
  {
  }

  /** What a last line without a line end leaves of the text. */
  lemma LastBehindStart(item: string, rest: string, first: bool)
    requires IndexOf(rest, '\n') == |rest|
    ensures var joined := Start(item, false, first) + rest;
      && |joined| <= |item| + |rest| + 1
      && (rest != "" ==> joined[|joined| - 1] != '\n')
      && (rest == "" && !(first && item == "") ==> joined[|joined| - 1] == '\n' && |joined| == |item| + 1)
      && (joined == item + "\n" + rest <==> !(first && item == ""))
  {
    var joined := Start(item, false, first) + rest;
    assert rest != "" ==> joined[|joined| - 1] == rest[|rest| - 1];
  }

  /** Behind the first line: the text never gets longer than it was, and is the same exactly when the lines stay. */
  lemma {:induction false} MoreTextBack(item: string, rest: string, after: seq<string>, extension: bool, first: bool)
    ensures var t := MoreText(item, Lines(rest + "'''") + after, extension, first, '\'');
      && t.Ok? && |t.value| <= |item| + |rest| + (if extension then 0 else 1)
      && (!extension ==> (t.value == item + "\n" + rest <==> StaysBehind(rest) && !(first && item == "")))
    decreases |rest|
  {
    hide Trim, Rtrim, Ltrim, Lines, ClosedText, MoreText, IndexOf;
    var n := IndexOf(rest, '\n');
    LinesOfClosed(rest);
    if n == |rest| {
      LastLineBack(item, rest, after, extension, first);
    } else {
      var line, tail := rest[..n], rest[n + 1..];
      var more, start := Lines(tail + "'''") + after, Start(item, extension, first);
      assert Lines(rest + "'''") + after == [line] + more;
      MoreStep(item, line, more, extension, first, '\'');
      if EndsTriple(Rtrim(line), '\'') {
        var body := Rtrim(line)[..|Rtrim(line)| - 3];
        ClosedIsShort(start + if extension then Ltrim(body) else body);
        TrimmedIsShort(line, body);
      } else {
        var l := if extension then Trim(line) else line;
        var piece := if EndsBackslash(l) then l[..|l| - 1] else l;
        MoreTextBack(start + piece, tail, after, EndsBackslash(l), false);
        MiddleLineBack(item, line, tail, MoreText(start + piece, more, EndsBackslash(l), false, '\'').value, extension,
          first);
      }
      assert rest == line + "\n" + tail;
    }
  }

  /** A line that goes on makes the text shorter, and one that does not goes over as it is. */
  lemma MiddleLineBack(item: string, line: string, tail: string, t: string, extension: bool, first: bool)
    requires var l := if extension then Trim(line) else line;
      var piece := if EndsBackslash(l) then l[..|l| - 1] else l;
      var begun := Start(item, extension, first) + piece;
      && |t| <= |begun| + |tail| + (if EndsBackslash(l) then 0 else 1)
      && (!EndsBackslash(l) ==> (t == begun + "\n" + tail <==> StaysBehind(tail)))
    ensures |t| <= |item| + |line| + 1 + |tail| + (if extension then 0 else 1)
    ensures !extension ==>
      (t == item + "\n" + (line + "\n" + tail) <==> !EndsBackslash(line) && StaysBehind(tail) && !(first && item == ""))
  {
    hide Trim, StaysBehind;
    Regroup(item + "\n", line, "\n" + tail);
    Regroup(line, "\n", tail);
    Regroup(item + "\n" + line, "\n", tail);
    assert |item + "\n" + (line + "\n" + tail)| == |item| + |line| + |tail| + 2;
  }

  lemma TrimmedIsShort(line: string, body: string)
    ensures |Rtrim(line)| <= |line| && |Ltrim(body)| <= |body|
  {
  }

  /** From the first line on: the text between triple quotes comes back exactly when it stays, and never gets longer. */
  lemma {:induction false} QuotedTextBack(arg: string, after: seq<string>)
    ensures var lines := Lines("'''" + arg + "'''");
      && IsMultiLine(Trim(lines[0])) && Trim(lines[0])[0] == '\''
      && var t := QuotedText('\'', lines[0], lines[1..] + after);
         t.Ok? && |t.value| <= |arg| && (t.value == arg <==> StaysQuoted(arg))
  {
    hide Trim, Rtrim, Ltrim, Lines, EndsTriple, MoreText, IndexOf, StaysBehind, IsMultiLine;
    var n, lines := IndexOf(arg, '\n'), Lines("'''" + arg + "'''");
    QuotedLines(arg);
    if n == |arg| {
      var line := "'''" + (arg + "'''");
      QuotesAreKept(line, arg + "'''");
      assert lines[0] == line;
      ClosedAtOnce(arg);
    } else {
      var head, tail := arg[..n], arg[n + 1..];
      QuotesAreKept("'''" + head, head);
      assert arg == head + "\n" + tail && lines[0] == "'''" + head;
      assert lines[1..] + after == Lines(tail + "'''") + after;
      FirstLineBack(head, tail, after);
    }
  }

  /** A text of more lines, from the part of its first line behind the quotes. */
  lemma {:induction false} FirstLineBack(head: string, tail: string, after: seq<string>)
    ensures var t := QuotedText('\'', "'''" + head, Lines(tail + "'''") + after);
      var arg := head + "\n" + tail;
      && t.Ok? && |t.value| <= |arg|
      && (t.value == arg <==> head != "" && !EndsBackslash(head) && !EndsTriple(head, '\'') && StaysBehind(tail))
  {
    hide Trim, Rtrim, Ltrim, Lines, EndsTriple, MoreText, StaysBehind, IsMultiLine;
    QuotesAreKept("'''" + head, head);
    MoreTextBack(if EndsBackslash(head) then head[..|head| - 1] else head, tail, after, EndsBackslash(head), true);
    if EndsTriple(head, '\'') { TripleIsLong(head); }
  }

  lemma ClosedAtOnce(arg: string)
    ensures EndsTriple(arg + "'''", '\'') && !EndsBackslash(arg + "'''") && (arg + "'''")[..|arg|] == arg
  {
  }

  lemma TripleIsLong(s: string)
    requires EndsTriple(s, '\'')
    ensures |s| >= 3
  {
  }

  lemma QuotedLines(arg: string)
    ensures var n := IndexOf(arg, '\n');
      Lines("'''" + arg + "'''") ==
      if n == |arg| then ["'''" + (arg + "'''")] else ["'''" + arg[..n]] + Lines(arg[n + 1..] + "'''")
  {
    hide IndexOf, Lines;
    LinesAround("'''", arg, "'''");
    Regroup("'''", arg, "'''");
  }

  lemma QuotesAreKept(line: string, rest: string)
    requires line == "'''" + rest
    ensures IsMultiLine(Trim(line)) && Trim(line)[0] == '\'' && Ltrim(line) == line && line[3..] == rest
  {
    assert line[0] == '\'' && line[1] == '\'' && line[2] == '\'';
    var e := EndOfInk(line);
    assert e >= 3 && line[..e][0] == '\'' && FirstInk(line[..e]) == 0;
    assert Trim(line) == line[..e] && line[..e][..3] == "'''";
  }

  // ---- results are not longer than their text ----

  lemma {:induction false} RemoveShort(s: string)
    ensures RemoveEscaped(s).Ok? ==> |RemoveEscaped(s).value| <= |s|
    decreases |s|
  {
    hide FirstUnit;
    if s != "" && FirstUnit(s).Ok? {
      UnitShort(s);
      RemoveShort(s[FirstUnit(s).value.1..]);
    }
  }

  lemma UnitShort(s: string)
    requires s != "" && FirstUnit(s).Ok?
    ensures |FirstUnit(s).value.0| <= FirstUnit(s).value.1
  {
    hide HexValue, AllHex, IndexOf;
  }

  lemma {:induction false} HalvedShort(s: string, ii: nat)
    requires |s| >= 2
    ensures Halved(s, ii).Some? ==> 2 * |Halved(s, ii).value| <= if ii >= |s| - 2 then 0 else |s| - 1 - ii
    decreases |s| - ii
  {
    if ii < |s| - 2 { HalvedShort(s, ii + 2); }
  }

  /** A text that an option takes as it is: not one of doubled characters, not an array for an option of several values,
      and without the delimiter of the option. */
  predicate CountsForItself(text: string, taking: Taking) {
    && Undoubled(text).None?
    && !(taking.several && LooksLikeArray(text))
    && (taking.delimiter == '\0' || taking.delimiter !in text)
  }

  /** Every result is shorter than the text, unless the text is its one result. */
  lemma {:induction false} AddedShort(text: string, taking: Taking)
    ensures forall r | r in AddedResults(text, taking) :: r == text || |r| < |text|
    ensures text in AddedResults(text, taking) <==> CountsForItself(text, taking)
    ensures text in AddedResults(text, taking) ==> AddedResults(text, taking) == [text]
    decreases |text|, 1
  {
    hide SplitUp, Halved, Fields;
    if Undoubled(text).Some? {
      HalvedShort(text, 2);
    } else if taking.several && LooksLikeArray(text) {
      SplitUpFits(text[1..|text| - 1], ',');
      AddedAllShort(SplitUp(text[1..|text| - 1], ','), |text| - 1, |text| - 2, taking);
    } else if taking.delimiter in text {
      FieldsShort(text, taking.delimiter);
    }
  }

  lemma {:induction false} FieldsShort(text: string, delimiter: char)
    requires delimiter in text
    ensures forall r | r in Fields(text, delimiter) :: |r| < |text|
  {
    hide Fields, TotalLength;
    FieldsFit(text, delimiter);
    forall r | r in Fields(text, delimiter) ensures |r| < |text| {
      InTotal(r, Fields(text, delimiter));
    }
  }

  lemma {:induction false} InTotal(r: string, tokens: seq<string>)
    requires r in tokens
    ensures |r| <= TotalLength(tokens)
    decreases |tokens|
  {
    if r != tokens[0] { InTotal(r, tokens[1..]); }
  }

  /** The results of the escaped form of a text are no longer than the text. */
  lemma EscapedShort(x: string, taking: Taking)
    ensures forall r | r in AddedResults(SecondaryArray(x), taking) :: |r| <= |x|
  {
    hide AddedResults, Undoubled, Doubled, CountsForItself;
    if LooksLikeArray(x) {
      OneResult(x, taking);
    } else {
      AddedShort(x, taking);
    }
  }

  lemma {:induction false} AddedAllShort(vars: seq<string>, bound: nat, length: nat, taking: Taking)
    requires length <= bound && forall i | 0 <= i < |vars| :: |vars[i]| <= length
    ensures forall r | r in AddedOfAll(vars, bound, taking) :: |r| <= length
    decreases length, 2, |vars|
  {
    hide AddedResults;
    if vars != [] {
      AddedShort(vars[0], taking);
      AddedAllShort(vars[1..], bound, length, taking);
    }
  }

  // ---- one token ----

  predicate IsQuoted(t: string) { IsBinaryEscaped(t) || IsWrapped(t, '\"') || IsWrapped(t, '\'') || IsWrapped(t, '`') }

  /** A token that counts for its own text. */
  predicate IsItself(t: string, taking: Taking) {
    !IsQuoted(t) && CountsForItself(t, taking)
  }

  /** The text in a quoted token. */
  function InQuotes(t: string): Attempt<string>
    requires |t| > 1
  {
    if IsBinaryEscaped(t) then Ok(Extract(t))
    else if IsWrapped(t, '\"') && '\\' in t[1..|t| - 1] then RemoveEscaped(t[1..|t| - 1])
    else Ok(t[1..|t| - 1])
  }

  lemma ProcessedIs(t: string)
    requires |t| > 1
    ensures ProcessQuoted(t) ==
      if !IsQuoted(t) then Ok(t) else if InQuotes(t).Ok? then Ok(SecondaryArray(InQuotes(t).value)) else InQuotes(t)
  {
    hide Extract, RemoveEscaped, SecondaryArray, IsBinaryEscaped;
  }

  lemma InQuotesShort(t: string)
    requires |t| > 1 && IsQuoted(t)
    ensures InQuotes(t).Ok? ==> |InQuotes(t).value| < |t|
  {
    hide DecodeBody, RemoveEscaped;
    if IsBinaryEscaped(t) {
      FormLength(t);
      if InnerForm(t) { DecodeShrinks(t[3..|t| - 2]); } else { DecodeShrinks(t[4..|t| - 3]); }
    } else {
      RemoveShort(t[1..|t| - 1]);
    }
  }

  /** The results of one token are shorter than it, unless it counts for its own text. */
  lemma {:induction false} OneTokenBack(t: string, taking: Taking)
    requires |t| > 1
    ensures var r := ReadTokens([t], taking);
      && (r.Ok? ==> forall x | x in r.value :: x == t || |x| < |t|)
      && (r == Ok([t]) <==> IsItself(t, taking))
  {
    hide AddedResults, SecondaryArray, ProcessQuoted, IsQuoted, InQuotes, CountsForItself;
    assert [t][1..] == [] && ReadTokens([], taking) == Ok([]);
    ProcessedIs(t);
    if IsQuoted(t) {
      InQuotesShort(t);
      if InQuotes(t).Ok? {
        var x := InQuotes(t).value;
        EscapedShort(x, taking);
        var added := AddedResults(SecondaryArray(x), taking);
        assert ReadTokens([t], taking) == Ok(added + []) && added + [] == added;
        assert t in [t];
      }
    } else {
      var added := AddedResults(t, taking);
      AddedShort(t, taking);
      assert ReadTokens([t], taking) == Ok(added + []) && added + [] == added;
      assert t in [t];
    }
  }

  // ---- the round trip ----

  /** The text in front of a value: it starts and ends with ink, as a name and '=' do. */
  predicate IsHead(head: string) { head != "" && IsTrimmed(head) }

  lemma HeadTrims(head: string, text: string)
    requires IsHead(head)
    ensures Trim(head + text) == head + Rtrim(text) && Trim(Rtrim(text)) == Trim(text)
    ensures (head + text)[|head|..] == text && (head + Rtrim(text))[|head|..] == Rtrim(text)
  {
    hide Trim, Rtrim, IsTrimmed, AllSpace, IsSpace;
    var blanks := RtrimParts(text);
    Regroup(head, Rtrim(text), blanks);
    HeadIsTrimmed(head, text);
    NoBlanksBefore(Rtrim(text), blanks);
    NoBlanksBefore(head + Rtrim(text), blanks);
    TrimOfTrimmed(head + Rtrim(text));
  }

  lemma RtrimParts(text: string) returns (blanks: string)
    ensures text == Rtrim(text) + blanks && AllSpace(blanks)
  {
    hide EndOfInk;
    blanks := text[EndOfInk(text)..];
  }

  lemma HeadIsTrimmed(head: string, text: string)
    requires IsHead(head)
    ensures IsTrimmed(head + Rtrim(text))
  {
    hide EndOfInk;
    var kept := Rtrim(text);
    assert (head + kept)[0] == head[0];
    assert kept != "" ==> (head + kept)[|head + kept| - 1] == kept[|kept| - 1];
  }

  lemma NoBlanksBefore(s: string, blanks: string)
    requires AllSpace(blanks)
    ensures Trim(s + blanks) == Trim(s)
  {
    hide Trim;
    TrimPadded("", s, blanks);
    assert "" + s + blanks == s + blanks;
  }

  /** Behind a head the value is read from the text alone. */
  lemma ReadBehind(head: string, text: string, comment: bool, more: seq<string>, taking: Taking)
    requires IsHead(head)
    ensures |head| - 1 < |Trim(head + text)|
    ensures IsMultiLine(Trim(text)) ==>
      var t := QuotedText(Trim(text)[0], text, more);
      ReadLinesOfValue(head + text, |head| - 1, comment, more, taking) ==
        if t.Ok? then ReadTokens([t.value], taking) else Error(t.error)
    ensures !IsMultiLine(Trim(text)) ==>
      var item := if comment then WithoutComment(Trim(text)) else Trim(text);
      ReadLinesOfValue(head + text, |head| - 1, comment, more, taking) ==
        ReadTokens(ItemTokens(if |item| > 1 && item[0] == '[' then ArrayText(item, more) else item), taking)
  {
    hide Trim, QuotedText, ReadTokens, IsMultiLine, WithoutComment, ItemTokens, ArrayText, Rtrim;
    HeadTrims(head, text);
    RtrimShort(text);
  }

  lemma RtrimShort(text: string)
    ensures IsMultiLine(Trim(text)) ==> Trim(text) != ""
  {
  }

  /** What comes back from the lines of a file: a list that is not empty, in which nothing is taken apart; and a single
      text between triple quotes that is not changed there and counts for itself. */
  predicate ComesBack(args: seq<string>, taking: Taking, isNumber: Number) {
    && args != []
    && if |args| == 1 && NeedsMultiLine(args[0], isNumber) then StaysQuoted(args[0]) && IsItself(args[0], taking)
       else AllUndivided(args, taking)
  }

  lemma {:induction false} QuotedRoundTrip(head: string, arg: string, comment: bool, after: seq<string>, taking: Taking)
    requires IsHead(head) && |arg| > 1
    ensures var lines := Lines("'''" + arg + "'''");
      && |head| - 1 < |Trim(head + lines[0])|
      && (ReadLinesOfValue(head + lines[0], |head| - 1, comment, lines[1..] + after, taking) == Ok([arg]) <==>
            StaysQuoted(arg) && IsItself(arg, taking))
  {
    hide Lines, QuotedText, ReadTokens, IsItself, StaysQuoted, Trim, IsMultiLine, ReadLinesOfValue;
    var lines := Lines("'''" + arg + "'''");
    QuotedTextBack(arg, after);
    ReadBehind(head, lines[0], comment, lines[1..] + after, taking);
    var t := QuotedText('\'', lines[0], lines[1..] + after).value;
    if t == arg {
      OneTokenBack(arg, taking);
    } else {
      TokenNotLonger(t, arg, taking);
    }
  }

  lemma TokenNotLonger(t: string, arg: string, taking: Taking)
    requires |t| <= |arg| && t != arg && |arg| > 1
    ensures ReadTokens([t], taking) != Ok([arg])
  {
    hide AddedResults, ProcessQuoted, ReadTokens, IsItself, CountsForItself;
    assert arg in [arg];
    if |t| > 1 {
      OneTokenBack(t, taking);
    } else {
      AddedShort(t, taking);
      ShortToken(t, taking);
    }
  }

  lemma ShortToken(t: string, taking: Taking)
    requires |t| <= 1
    ensures ReadTokens([t], taking) == Ok(AddedResults(t, taking))
  {
    hide AddedResults;
    var added := AddedResults(t, taking);
    assert [t][1..] == [] && added + [] == added;
  }

  lemma ConvertedInQuotes(arg: string, isNumber: Number)
    requires NeedsMultiLine(arg, isNumber)
    ensures Joined([arg], isNumber) == "'''" + arg + "'''"
  {
    hide IsPlain, IsEscapable;
    assert Converted([arg], false, isNumber) == [ConvertArg(arg, false, isNumber)];
    assert arg != "true" && arg != "false" && arg != "nan" && arg != "inf";
  }

  /** A list of byte strings that ini_join prints behind a name and '=' at the start of a line comes back from the
      lines of a file, whatever follows them, exactly when it is not empty, the option takes nothing in it apart,
      and it is not a single text that triple quotes do not preserve. */
  lemma {:induction false} ConfigRoundTrip(head: string, args: seq<string>, comment: bool, after: seq<string>,
    taking: Taking, isNumber: Number)
    requires IsHead(head) && forall i | 0 <= i < |args| :: IsBytes(args[i])
    ensures var lines := Lines(Joined(args, isNumber));
      && |head| - 1 < |Trim(head + lines[0])|
      && (ReadLinesOfValue(head + lines[0], |head| - 1, comment, lines[1..] + after, taking) == Ok(args) <==>
            ComesBack(args, taking, isNumber))
  {
    hide Lines, Joined, ReadTokens, QuotedText, IsItself, StaysQuoted, NeedsMultiLine, IsMultiLine, WithoutComment;
    hide Trim, IsBytes;
    hide ReadLinesOfValue, ItemTokens, AllUndivided;
    if |args| == 1 && NeedsMultiLine(args[0], isNumber) {
      assert args == [args[0]];
      ConvertedInQuotes(args[0], isNumber);
      MultiLineIsLong(args[0], isNumber);
      QuotedRoundTrip(head, args[0], comment, after, taking);
    } else {
      var item := Joined(args, isNumber);
      OneLineRoundTrip(args, taking, isNumber);
      FirstLine(item, |item|);
      TrimOfTrimmed(item);
      ReadBehind(head, item, comment, [item][1..] + after, taking);
      ArrayIsWhole(item, [item][1..] + after);
    }
  }

  lemma MultiLineIsLong(arg: string, isNumber: Number)
    requires NeedsMultiLine(arg, isNumber)
    ensures |arg| > 100
  {
  }

  lemma ArrayIsWhole(item: string, more: seq<string>)
    requires EndsOnItsLine(item)
    ensures |item| > 1 && item[0] == '[' ==> ArrayText(item, more) == item
    ensures WithoutComment(item) == item
  {
    hide WithoutComment;
  }

  /** For example a long text that ends its last line does not come back. */
  lemma LastLineEndIsLost(head: string, comment: bool, after: seq<string>, taking: Taking, isNumber: Number)
    requires IsHead(head)
    ensures var args := [seq(101, _ => 'a') + "\n"];
      var lines := Lines(Joined(args, isNumber));
      && |head| - 1 < |Trim(head + lines[0])|
      && ReadLinesOfValue(head + lines[0], |head| - 1, comment, lines[1..] + after, taking) != Ok(args)
  {
    hide Lines, Joined, ReadLinesOfValue, IsItself, Trim, IsHead;
    var long := seq(101, _ => 'a');
    var arg := long + "\n";
    assert arg[0] == 'a' && arg[1] == 'a' && arg[101] == '\n';
    assert forall i | 0 <= i < 101 :: arg[i] == 'a';
    IndexIs(arg, '\n', 101);
    assert arg[102..] == "";
    IndexIs("", '\n', 0);
    assert !StaysBehind(arg[102..]);
    assert ESCAPED_CHARS[2] == arg[101] && IsEscapable(arg[101]);
    assert !IsDecimalChar(arg[0]);
    assert IsPrintable(arg);
    assert NeedsMultiLine(arg, isNumber);
    ConfigRoundTrip(head, [arg], comment, after, taking, isNumber);
  }

  /** A list printed for an option with the delimiter ',' is taken apart where an argument holds one. */
  lemma DelimiterIsLost(head: string, comment: bool, after: seq<string>, isNumber: Number)
    requires IsHead(head)
    ensures var args := ["a,b", "c"];
      var lines := Lines(Joined(args, isNumber));
      && |head| - 1 < |Trim(head + lines[0])|
      && ReadLinesOfValue(head + lines[0], |head| - 1, comment, lines[1..] + after, Taking(true, ',')) != Ok(args)
  {
    hide Lines, Joined, ReadLinesOfValue, Trim, IsHead;
    assert "a,b"[1] == ',';
    assert !Undivided(["a,b", "c"][0], Taking(true, ','));
    ConfigRoundTrip(head, ["a,b", "c"], comment, after, Taking(true, ','), isNumber);
  }
}
