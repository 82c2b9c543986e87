/** A line name=value of a config file: the name that is printed in front of the value (clean_name_string), the
    search for '=' and '#', and the name and results that are read (from_config without sections and comments). */
module CliConfigEntry {
  import opened Text
  import opened Results
  import opened CliEscape
  import opened CliBinary
  import opened CliBrackets
  import opened CliConfigValue
  import opened CliConfigRoundTrip
  import opened CliConfigLines
  import Sections = CliSections

  // ---- printing a name ----

  const KEY_CHARS: string := "#;.'\"[]=,"
  const QUOTE_CHARS: string := "'`\"\\"

  predicate HasAny(s: string, chars: string) { exists i | 0 <= i < |s| :: s[i] in chars }

  predicate NeedsQuotes(name: string) { HasAny(name, KEY_CHARS) || HasAny(name, QUOTE_CHARS) }

  /** A name that needs quotes stands between single ones, or, when it holds one, between double ones with its
      escapes. */
  function QuotedName(name: string): Token { if '\'' !in name then LiteralToken(name) else StringToken(name) }

  function CleanName(name: string): string { if NeedsQuotes(name) then QuotedName(name).Render() else name }

  /** The test for a name in brackets is left out: a bracket is one of the key characters. */
  method CleanNameString(text: string) returns (name: string)
    requires text != ""
    ensures name == CleanName(text)
  {
    name := text;
    if HasAny(name, KEY_CHARS) || HasAny(name, QUOTE_CHARS) {
      if '\'' !in name {
        name := "'" + name;
        name := name + "'";
      } else {
        if HasEscapable(name) {
          name := AddEscapedCharacters(name);
        } else {
          NothingToEscape(name);
        }
        name := "\"" + name;
        name := name + "\"";
      }
    }
  }

  // ---- the search for '=' and '#' ----

  predicate IsSign(c: char) { c == '.' || c == '#' || c == '=' }

  /** The first sign from a position on, or the length. */
  function FirstSign(line: string, at: nat): (r: nat)
    requires at <= |line|
    ensures at <= r <= |line| && (forall i | at <= i < r :: !IsSign(line[i])) && (r < |line| ==> IsSign(line[r]))
    decreases |line| - at
  {
    if at == |line| || IsSign(line[at]) then at else FirstSign(line, at + 1)
  }

  /** The first position of a character from a position on, or the length. */
  function PositionFrom(line: string, c: char, from: nat): (r: nat)
    ensures r <= |line| && (forall i | from <= i < r :: line[i] != c) && (r < |line| ==> from <= r && line[r] == c)
  {
    if from >= |line| then |line| else from + IndexOf(line[from..], c)
  }

  /** Where to look for '=' in a line with quotes: names in quotes are passed over. The largest position there is
      stands for no position at all; it is None here, and 0 comes after it. */
  function SearchFrom(line: string, at: nat): Option<nat>
    decreases |line| - at
  {
    if at >= |line| then Some(at)
    else if IsQuote(line[at]) then SearchFrom(line, SequenceEnd(line, at, line[at]) + 1)
    else if line[at] == '=' || line[at] == '#' then if at == 0 then None else Some(at - 1)
    else if line[at] == ' ' || line[at] == '\t' || line[at] == '.' then SearchFrom(line, at + 1)
    else if FirstSign(line, at) == |line| then None
    else SearchFrom(line, FirstSign(line, at))
  }

  function SearchStart(line: string): Option<nat> { if HasAny(line, "\"'`") then SearchFrom(line, 0) else Some(0) }

  /** The position of the first '=' behind the start of the search, or the length. */
  function DelimiterAt(line: string): nat {
    PositionFrom(line, '=', if SearchStart(line).None? then 0 else SearchStart(line).value + 1)
  }

  function CommentAt(line: string): (r: nat)
    ensures r <= |line|
  {
    if SearchStart(line).None? then |line| else PositionFrom(line, '#', SearchStart(line).value)
  }

  method FindDelimiter(line: string) returns (delimiter_pos: nat, comment_pos: nat)
    ensures delimiter_pos == DelimiterAt(line) && comment_pos == CommentAt(line)
  {
    hide SequenceEnd, FirstSign, SearchFrom, PositionFrom, HasAny;
    SearchBeyond(line);
    var search_start: Option<nat> := Some(0);
    if HasAny(line, "\"'`") {
      while search_start.Some? && search_start.value < |line|
        invariant search_start.Some? ==> SearchFrom(line, search_start.value) == SearchFrom(line, 0)
        invariant search_start.None? ==> SearchFrom(line, 0).None?
        decreases search_start.Some?, if search_start.Some? then |line| - search_start.value else 0
      {
        var at := search_start.value;
        var test_char := line[at];
        SequenceIsBehind(line, at);
        SearchStep(line, at);
        if IsQuote(test_char) {
          var end := CloseSequence(line, at, test_char);
          search_start := Some(end + 1);
        } else if test_char == '=' || test_char == '#' {
          search_start := if at == 0 then None else Some(at - 1);
          break;
        } else if test_char == ' ' || test_char == '\t' || test_char == '.' {
          search_start := Some(at + 1);
        } else {
          var next := FirstSign(line, at);
          search_start := if next == |line| then None else Some(next);
        }
      }
    }
    delimiter_pos := PositionFrom(line, '=', if search_start.None? then 0 else search_start.value + 1);
    comment_pos := if search_start.None? then |line| else PositionFrom(line, '#', search_start.value);
  }

  lemma SearchStep(line: string, at: nat)
    requires at < |line|
    ensures SearchFrom(line, at) ==
      if IsQuote(line[at]) then SearchFrom(line, SequenceEnd(line, at, line[at]) + 1)
      else if line[at] == '=' || line[at] == '#' then (if at == 0 then None else Some(at - 1))
      else if line[at] == ' ' || line[at] == '\t' || line[at] == '.' then SearchFrom(line, at + 1)
      else if FirstSign(line, at) == |line| then None
      else SearchFrom(line, FirstSign(line, at))
  {
    hide SequenceEnd, FirstSign;
  }

  lemma SearchBeyond(line: string)
    ensures forall at: nat | at >= |line| :: SearchFrom(line, at) == Some(at)
  {
  }

  lemma SequenceIsBehind(line: string, at: nat)
    requires at < |line|
    ensures IsQuote(line[at]) ==> SequenceEnd(line, at, line[at]) > at
    ensures !IsQuote(line[at]) && !IsSign(line[at]) ==> FirstSign(line, at) > at
  {
  }

  // ---- reading a line ----

  /** The parents and the name in front of '=', as generate_parents takes them apart, and the results. */
  datatype Entry = Entry(parents: seq<string>, name: string, results: seq<string>)

  /** The parts of a name at its dots. */
  function NameParts(name: string): (parts: seq<string>)
    ensures parts != []
  {
    if '.' in name && SplitUp(name, '.') != [] then SplitUp(name, '.') else [name]
  }

  /** Neither too short, nor the start of a comment or of a section. */
  predicate IsEntryLine(line: string) {
    && |line| >= 3
    && !IsMultiLine(line)
    && !(line[0] == '[' && line[|line| - 1] == ']')
    && line[0] != ';' && line[0] != '#'
  }

  /** A line without '=', or with a comment in front of it, is a flag that is set. */
  function ReadEntry(buffer: string, more: seq<string>, taking: Taking): Attempt<Entry> {
    var line := Trim(buffer);
    var at, comment := DelimiterAt(line), CommentAt(line);
    var found := at < |line| && at <= comment;
    var items :- if found then ItemsOfValue(buffer, at, comment < |line|, more) else Ok(["true"]);
    var parts := NameParts(Trim(if found then line[..at] else line[..comment]));
    var parents :- Sections.Segments(parts[..|parts| - 1]);
    var name :- ProcessQuoted(parts[|parts| - 1]);
    var results :- ReadTokens(items, taking);
    Ok(Entry(parents, name, results))
  }

  /** remove_quotes: the loop over the parents. */
  method RemoveQuotes(args: seq<string>) returns (r: Attempt<Sections.Path>)
    ensures r == Sections.Segments(args)
  {
    hide Sections.Segment;
    NoSegments();
    var done: Sections.Path := [];
    ghost var all := Sections.Segments(args);
    assert args[0..] == args && (all.Ok? ==> [] + all.value == all.value);
    for i := 0 to |args|
      invariant |done| == i
      invariant Sections.Segments(args) == PrependedTo(done, Sections.Segments(args[i..]))
    {
      SegmentsUnfold(args[i..]);
      assert args[i..][1..] == args[i + 1..];
      var arg :- Sections.Segment(args[i]);
      Regroup(done, [arg], if Sections.Segments(args[i + 1..]).Ok? then Sections.Segments(args[i + 1..]).value else []);
      done := done + [arg];
    }
    r := Ok(done);
    Regroup(done, [], []);
  }

  lemma NoSegments()
    ensures Sections.Segments([]) == Ok([])
  {
  }

  lemma SegmentsUnfold(args: seq<string>)
    requires args != []
    ensures Sections.Segments(args) ==
      var first := Sections.Segment(args[0]);
      if first.Error? then Error(first.error) else PrependedTo([first.value], Sections.Segments(args[1..]))
  {
    hide Sections.Segment;
  }

  method ReadConfigLine(buffer: string, more: seq<string>, taking: Taking) returns (entry: Attempt<Entry>)
    ensures entry == ReadEntry(buffer, more, taking)
  {
    hide Trim, DelimiterAt, CommentAt, ItemsOfValue, ProcessQuoted, ReadTokens, SplitUp, Sections.Segments;
    var line := Trim(buffer);
    var delimiter_pos, comment_pos := FindDelimiter(line);
    if comment_pos < delimiter_pos { delimiter_pos := |line|; }
    var name, items_buffer;
    if delimiter_pos < |line| {
      name := Trim(line[..delimiter_pos]);
      items_buffer :- ReadItems(buffer, delimiter_pos, comment_pos < |line|, more);
    } else {
      name := Trim(line[..comment_pos]);
      items_buffer := ["true"];
    }
    var parents := [];
    if '.' in name {
      var plist := SplitUpText(name, '.');
      if plist != [] { parents, name := plist[..|plist| - 1], plist[|plist| - 1]; }
    }
    parents :- RemoveQuotes(parents);
    var cleaned :- ProcessQuotedString(name);
    var results :- TakeTokens(items_buffer, taking);
    entry := Ok(Entry(parents, cleaned, results));
  }

  // ---- names come back ----

  /** valid_name_string: what the names of options are made of. */
  predicate ValidName(name: string) {
    && name != "" && name[0] != '-' && name[0] as int > 33
    && forall i | 0 < i < |name| ::
         name[i] != '=' && name[i] != ':' && name[i] != '{' && (name[i] as int > 32 || name[i] == '\t')
  }

  /** A name that looks like an array is doubled when its quotes come off, one of the form B"(...)" is decoded, and one
      without quotes is trimmed. */
  predicate NameComesBack(name: string)
    requires name != ""
  {
    if NeedsQuotes(name) then !LooksLikeArray(name) && ('\'' in name || !InnerForm(name))
    else name[|name| - 1] != '\t'
  }

  lemma DelimiterIs(line: string, n: nat)
    requires n < |line| && line[n] == '=' && SearchStart(line).Some? && SearchStart(line).value < n
    requires forall i | SearchStart(line).value < i < n :: line[i] != '='
    requires forall i | SearchStart(line).value <= i < n :: line[i] != '#'
    ensures DelimiterAt(line) == n < CommentAt(line) && (CommentAt(line) < |line| <==> '#' in line[n + 1..])
  {
    hide SearchStart;
    if CommentAt(line) < |line| { assert line[n + 1..][CommentAt(line) - n - 1] == '#'; }
    if '#' in line[n + 1..] {
      var i :| 0 <= i < |line| - n - 1 && line[n + 1..][i] == '#';
      assert line[n + 1 + i] == '#';
    }
  }

  /** A name without quotes and the blanks behind it are passed over up to the '='. */
  lemma PlainNameFound(name: string, blanks: string, rest: string)
    requires name != "" && !NeedsQuotes(name) && !IsSpace(name[0]) && AllSpace(blanks)
    ensures var line := name + blanks + "=" + rest;
      DelimiterAt(line) == |name + blanks| < CommentAt(line) && (CommentAt(line) < |line| <==> '#' in rest)
  {
    hide DelimiterAt, CommentAt, SearchFrom;
    var head := name + blanks;
    var line := head + "=" + rest;
    forall i | 0 <= i < |head| ensures !IsSign(line[i]) && (i < |name| ==> !IsQuote(line[i])) && line[i] == head[i] {
      if i < |name| { PlainNameChar(name, i); }
    }
    SignFound(line, 0, |head|);
    if HasAny(line, "\"'`") {
      SearchStops(line, |head|);
      SearchStep(line, 0);
    }
    assert line[|head| + 1..] == rest;
    DelimiterIs(line, |head|);
  }

  lemma PlainNameChar(name: string, i: nat)
    requires i < |name| && !NeedsQuotes(name)
    ensures !IsSign(name[i]) && !IsQuote(name[i]) && name[i] != ';' && name[i] != '['
  {
    assert name[i] !in KEY_CHARS && name[i] !in QUOTE_CHARS;
    assert KEY_CHARS[0] == '#' && KEY_CHARS[1] == ';' && KEY_CHARS[2] == '.' && KEY_CHARS[3] == '\''
      && KEY_CHARS[4] == '\"';
    assert KEY_CHARS[5] == '[' && KEY_CHARS[7] == '=' && QUOTE_CHARS[1] == '`';
  }

  lemma {:induction false} SignFound(line: string, at: nat, n: nat)
    requires at <= n < |line| && IsSign(line[n]) && forall i | at <= i < n :: !IsSign(line[i])
    ensures FirstSign(line, at) == n
    decreases n - at
  {
    if at < n { SignFound(line, at + 1, n); }
  }

  lemma SearchStops(line: string, at: nat)
    requires 0 < at < |line| && line[at] == '='
    ensures SearchFrom(line, at) == Some(at - 1)
  {
  }

  /** Blanks are passed over one by one, or all at once. */
  lemma {:induction false} BlanksPassed(line: string, at: nat, n: nat)
    requires 0 < n < |line| && at <= n && line[n] == '=' && forall i | at <= i < n :: IsSpace(line[i])
    ensures SearchFrom(line, at) == Some(n - 1)
    decreases n - at
  {
    hide SearchFrom, SequenceEnd;
    SearchStops(line, n);
    if at < n {
      SearchStep(line, at);
      if line[at] == ' ' || line[at] == '\t' { BlanksPassed(line, at + 1, n); } else { SignFound(line, at, n); }
    }
  }

  /** A name in quotes is passed over as a whole, with the blanks behind it. */
  lemma QuotedNameFound(name: string, blanks: string, rest: string)
    requires AllSpace(blanks)
    ensures var head := QuotedName(name).Render() + blanks;
      var line := head + "=" + rest;
      DelimiterAt(line) == |head| < CommentAt(line) && (CommentAt(line) < |line| <==> '#' in rest)
  {
    hide DelimiterAt, CommentAt, SearchFrom, QuotedName, SequenceEnd;
    var quoted := QuotedName(name).Render();
    var head := quoted + blanks;
    var line := head + "=" + rest;
    assert line[..|quoted|] == quoted;
    QuotedNameEnds(name, line);
    assert forall i | |quoted| <= i < |head| :: line[i] == blanks[i - |quoted|];
    assert line[|head| - 1] != '#' by { assert line[|quoted| - 1] == quoted[|quoted| - 1]; }
    SearchPasses(line);
    BlanksPassed(line, |quoted|, |head|);
    assert line[0] in "\"'`" by { assert "\"'`"[0] == '\"' && "\"'`"[1] == '\'' && "\"'`"[2] == '`'; }
    assert line[|head| + 1..] == rest;
    DelimiterIs(line, |head|);
  }

  /** The '=' behind a printed name is found, whatever stands behind it, and a comment sign exactly when there is
      one. */
  lemma NameFound(name: string, blanks: string, rest: string)
    requires ValidName(name) && AllSpace(blanks)
    ensures var head := CleanName(name) + blanks;
      var line := head + "=" + rest;
      DelimiterAt(line) == |head| < CommentAt(line) && (CommentAt(line) < |line| <==> '#' in rest)
  {
    hide ValidName, NeedsQuotes, DelimiterAt, CommentAt, QuotedName;
    NameTrims(name);
    if NeedsQuotes(name) { QuotedNameFound(name, blanks, rest); } else { PlainNameFound(name, blanks, rest); }
  }

  lemma SearchPasses(line: string)
    requires line != "" && IsQuote(line[0])
    ensures SearchFrom(line, 0) == SearchFrom(line, SequenceEnd(line, 0, line[0]) + 1)
  {
  }

  lemma QuotedNameEnds(name: string, line: string)
    requires QuotedName(name).Render() <= line
    ensures var head := QuotedName(name).Render();
      && |head| >= 2 && IsQuote(line[0]) && head[|head| - 1] == head[0] == line[0]
      && SequenceEnd(line, 0, line[0]) == |head| - 1
  {
    hide AddEscaped, StringEnd, LiteralEnd, IsAt;
    var head := QuotedName(name).Render();
    var rest := line[|head|..];
    assert line == head + rest;
    if '\'' !in name {
      IsAtBehind('\'', name + "'", rest);
      Regroup("'", name, "'");
      LiteralEndOfBody(line, 1, name);
    } else {
      IsAtBehind('\"', AddEscaped(name) + "\"", rest);
      Regroup("\"", AddEscaped(name), "\"");
      StringEndOfEscaped(line, 1, name);
    }
  }

  // ---- a name is read back ----

  /** A token in quotes is one token at any separator. */
  lemma QuotedIsOneToken(name: string)
    ensures var head := QuotedName(name).Render(); IsTrimmed(head) && NameParts(head) == [head]
  {
    hide Tokens, AfterToken, SequenceEnd, AddEscaped;
    var head := QuotedName(name).Render();
    QuotedNameEnds(name, head);
    CliConfigRoundTrip.OneToken(head, '.');
  }

  lemma PlainIsOnePart(name: string)
    requires !NeedsQuotes(name)
    ensures NameParts(Trim(name)) == [Trim(name)]
  {
    hide Trim, SplitUp;
    var before, after := TrimParts(name);
    forall i | 0 <= i < |name| ensures name[i] != '.' { PlainNameChar(name, i); }
    forall i | 0 <= i < |Trim(name)| ensures Trim(name)[i] == name[|before| + i] { }
  }

  /** Only tabs at its end are trimmed from a name. */
  lemma NameTrims(name: string)
    requires ValidName(name)
    ensures name != "" && !IsSpace(name[0]) && '\n' !in name
    ensures Trim(name) == name <==> name[|name| - 1] != '\t'
  {
    assert '\t' as int == 9;
    forall i | 0 <= i < |name| ensures IsSpace(name[i]) ==> name[i] == '\t' {
    }
    if name[|name| - 1] != '\t' { TrimOfTrimmed(name); } else { assert IsTrimmed(Trim(name)); }
  }

  /** Without quotes nothing comes off. */
  lemma PlainNameRead(name: string)
    requires !NeedsQuotes(name)
    ensures ProcessQuoted(Trim(name)) == Ok(Trim(name))
  {
    hide Trim, Extract;
    var before, after := TrimParts(name);
    var t := Trim(name);
    forall i | 0 <= i < |name| ensures !IsQuote(name[i]) { PlainNameChar(name, i); }
    forall i | 0 <= i < |t| ensures t[i] == name[|before| + i] { }
    BinaryFormStart(t);
  }

  /** A name between single quotes. */
  lemma LiteralNameRead(name: string)
    ensures var t := ProcessQuoted("'" + name + "'");
      t.Ok? && (t.value == name <==> !LooksLikeArray(name) && !InnerForm(name))
  {
    hide Extract, SecondaryArray, InnerForm, OuterForm;
    var s := "'" + name + "'";
    WrappedInner('\'', name);
    OuterIsInner(name);
    SecondaryIs(name);
    if InnerForm(name) {
      ExtractShort(name);
      SecondaryIs(Extract(s));
    }
  }

  lemma OuterIsInner(name: string)
    ensures var s := "'" + name + "'"; !InnerForm(s) && (OuterForm(s) <==> InnerForm(name))
  {
    hide InnerForm, OuterForm;
    var s := "'" + name + "'";
    InnerChars(name);
    InnerChars(s);
    OuterChars(s);
  }

  lemma InnerChars(s: string)
    ensures InnerForm(s) <==>
      && |s| >= 5 && s[0] == 'B' && s[1] == '\"' && s[2] == '('
      && s[|s| - 2] == ')' && s[|s| - 1] == '\"'
  {
    FormLength(s);
    if |s| >= 5 {
      assert s[..3] == [s[0], s[1], s[2]] && s[|s| - 2..] == [s[|s| - 2], s[|s| - 1]];
    }
  }

  lemma OuterChars(s: string)
    ensures OuterForm(s) <==>
      && |s| >= 7 && s[0] == '\'' && s[1] == 'B' && s[2] == '\"' && s[3] == '('
      && s[|s| - 3] == ')' && s[|s| - 2] == '\"' && s[|s| - 1] == '\''
  {
    FormLength(s);
    if |s| >= 7 {
      assert s[..4] == [s[0], s[1], s[2], s[3]] && s[|s| - 3..] == [s[|s| - 3], s[|s| - 2], s[|s| - 1]];
    }
  }

  /** What is decoded from a binary form is shorter than the form. */
  lemma ExtractShort(name: string)
    requires InnerForm(name)
    ensures |Extract("'" + name + "'")| < |name| && name[0] == 'B'
  {
    hide DecodeBody;
    var s := "'" + name + "'";
    FormLength(name);
    OuterIsInner(name);
    assert name[..3][0] == name[0];
    DecodeShrinks(s[4..|s| - 3]);
  }

  lemma SecondaryIs(text: string)
    ensures SecondaryArray(text) == text <==> !LooksLikeArray(text)
    ensures LooksLikeArray(text) ==> SecondaryArray(text)[0] == '['
  {
    if LooksLikeArray(text) { DoubledBehind(text[1..]); }
  }

  /** The name that is read is the one that was printed exactly when it comes back. */
  lemma NameRead(name: string)
    requires ValidName(name)
    ensures var printed := CleanName(name);
      && NameParts(Trim(printed)) == [Trim(printed)]
      && var t := ProcessQuoted(Trim(printed)); t.Ok? && (t.value == name <==> NameComesBack(name))
  {
    hide ValidName, NameParts, NeedsQuotes, ProcessQuoted, Trim, InnerForm, LooksLikeArray, AddEscaped;
    if !NeedsQuotes(name) {
      PlainIsOnePart(name);
      PlainNameRead(name);
      NameTrims(name);
    } else {
      QuotedIsOneToken(name);
      TrimOfTrimmed(QuotedName(name).Render());
      if '\'' !in name {
        LiteralNameRead(name);
      } else {
        StringReadBack(name);
        SecondaryIs(name);
      }
    }
  }

  // ---- the round trip of a line ----

  /** The line starts as an entry does, with its '=' behind the name. */
  lemma PrintedNameFound(name: string, rest: string)
    requires ValidName(name) && rest != ""
    ensures var head := CleanName(name) + "=";
      var line := head + rest;
      && IsHead(head) && '\n' !in head && IsEntryLine(line)
      && DelimiterAt(line) == |CleanName(name)| < CommentAt(line)
  {
    hide ValidName, NeedsQuotes, DelimiterAt, CommentAt, QuotedName, IsEntryLine, IsMultiLine;
    NameTrims(name);
    var printed := CleanName(name);
    NameFound(name, "", rest);
    assert printed + "" == printed;
    if NeedsQuotes(name) { QuotedStart(name); } else { PlainNameChar(name, 0); }
    PrintedStarts(printed, rest);
  }

  /** A text that starts as a printed name does, with '=' and a value behind it, is an entry. */
  lemma PrintedStarts(printed: string, rest: string)
    requires printed != "" && rest != "" && !IsSpace(printed[0]) && '\n' !in printed
    requires if IsQuote(printed[0]) then |printed| > 1 && printed[1] != printed[0] else printed[0] !in ";#["
    ensures var head := printed + "="; IsHead(head) && '\n' !in head && IsEntryLine(head + rest)
  {
    var line := printed + "=" + rest;
    assert ";#["[0] == ';' && ";#["[1] == '#' && ";#["[2] == '[';
    assert line[0] == printed[0] && line[1] == if |printed| == 1 then '=' else printed[1];
    assert "'''"[0] == '\'' && "'''"[1] == '\'' && "\"\"\""[0] == '\"' && "\"\"\""[1] == '\"';
  }

  /** A quoted name does not start with three quotes. */
  lemma QuotedStart(name: string)
    requires name != ""
    ensures var r := QuotedName(name).Render(); |r| > 1 && IsQuote(r[0]) && r[1] != r[0] && !IsSpace(r[0])
    ensures '\n' !in name ==> '\n' !in QuotedName(name).Render()
  {
    hide Escaped;
    if '\'' in name {
      EscapedFirst(name[0]);
      AddEscapedNoLineEnd(name);
    }
  }

  lemma LinesBehind(head: string, text: string)
    requires '\n' !in head
    ensures Lines(head + text) == [head + Lines(text)[0]] + Lines(text)[1..]
  {
    hide IndexOf, Lines;
    var n := IndexOf(text, '\n');
    LinesAround(head, text, "");
    LinesUnfold(text);
    assert head + text + "" == head + text;
    if n < |text| { assert text[n + 1..] + "" == text[n + 1..]; }
  }

  lemma TrimmedStays(item: string)
    requires IsTrimmed(item)
    ensures Rtrim(item) == item
  {
  }

  /** There is something in the first line of a list that is printed. */
  lemma FirstLineInk(args: seq<string>, isNumber: Number)
    requires args != [] && forall i | 0 <= i < |args| :: IsBytes(args[i])
    ensures Rtrim(Lines(Joined(args, isNumber))[0]) != ""
  {
    hide Joined, NeedsMultiLine, Lines, IsBytes, IsMultiLine;
    var item := Joined(args, isNumber);
    if OnOneLine(args, isNumber) {
      OneLineRoundTrip(args, Taking(false, '\0'), isNumber);
      FirstLine(item, |item|);
      TrimmedStays(item);
    } else {
      assert args == [args[0]];
      ConvertedInQuotes(args[0], isNumber);
      QuotedLines(args[0]);
      var line := Lines(item)[0];
      assert line[0] == '\'';
    }
  }

  /** A printed line name=value, with the lines that belong to its value, is read as that name and that list, whatever
      follows, exactly when the name and the list come back. */
  lemma {:induction false} EntryRoundTrip(name: string, args: seq<string>, after: seq<string>, taking: Taking,
    isNumber: Number)
    requires ValidName(name) && args != [] && forall i | 0 <= i < |args| :: IsBytes(args[i])
    ensures var lines := Lines(CleanName(name) + "=" + Joined(args, isNumber));
      && IsEntryLine(Trim(lines[0]))
      && (ReadEntry(lines[0], lines[1..] + after, taking) == Ok(Entry([], name, args)) <==>
            NameComesBack(name) && ComesBack(args, taking, isNumber))
  {
    hide ValidName, CleanName, Lines, Joined, IsEntryLine, DelimiterAt, CommentAt, ReadTokens, ItemsOfValue;
    hide ProcessQuoted, Trim;
    hide NameComesBack, ComesBack, IsBytes, NameParts, Rtrim;
    var head, text := CleanName(name) + "=", Joined(args, isNumber);
    var first, more := Lines(text)[0], Lines(text)[1..] + after;
    var line := head + first;
    FirstLineInk(args, isNumber);
    PrintedNameFound(name, Rtrim(first));
    LinesBehind(head, text);
    HeadTrims(head, first);
    assert Trim(line) == head + Rtrim(first) && Trim(line)[..|head| - 1] == CleanName(name);
    NameRead(name);
    ConfigRoundTrip(head, args, CommentAt(Trim(line)) < |Trim(line)|, after, taking, isNumber);
    EntryIs(line, more, taking, |head| - 1);
  }

  lemma EntryIs(buffer: string, more: seq<string>, taking: Taking, at: nat)
    requires at < |Trim(buffer)| && DelimiterAt(Trim(buffer)) == at < CommentAt(Trim(buffer))
    requires var name := Trim(Trim(buffer)[..at]); NameParts(name) == [name] && ProcessQuoted(name).Ok?
    ensures var name, comment := ProcessQuoted(Trim(Trim(buffer)[..at])), CommentAt(Trim(buffer)) < |Trim(buffer)|;
      var results := ReadLinesOfValue(buffer, at, comment, more, taking);
      ReadEntry(buffer, more, taking) ==
        if results.Ok? then Ok(Entry([], name.value, results.value)) else Error(results.error)
  {
    hide DelimiterAt, CommentAt, ItemsOfValue, ProcessQuoted, ReadTokens, NameParts, Trim;
  }

  /** For example an option named [a] comes back as another one, whatever its list. */
  lemma BracketNameIsLost(args: seq<string>, after: seq<string>, taking: Taking, isNumber: Number)
    requires args != [] && forall i | 0 <= i < |args| :: IsBytes(args[i])
    ensures var lines := Lines(CleanName("[a]") + "=" + Joined(args, isNumber));
      ReadEntry(lines[0], lines[1..] + after, taking) != Ok(Entry([], "[a]", args))
  {
    hide Lines, CleanName, Joined, ReadEntry;
    assert "[a]"[0] == '[' && "[a]"[1] == 'a' && "[a]"[2] == ']';
    assert "[a]"[0] in KEY_CHARS by { assert KEY_CHARS[5] == '['; }
    EntryRoundTrip("[a]", args, after, taking, isNumber);
  }

  // ---- indented lines ----

  /** A value between triple quotes that is closed at the end of its line. */
  predicate ClosedOnItsLine(text: string) {
    IsMultiLine(Trim(text)) && Trim(text)[0] == '\'' && EndsTriple(BehindQuotes(text), '\'')
  }

  lemma QuotedOnItsLine(text: string, more: seq<string>)
    requires EndsTriple(BehindQuotes(text), '\'')
    ensures var item := BehindQuotes(text); |item| >= 3 && QuotedText('\'', text, more) == Ok(item[..|item| - 3])
  {
    hide BehindQuotes, MoreText;
  }

  lemma CutTooEarly(indent: string, head: string, text: string)
    requires IsHead(head) && indent != "" && EndsTriple(BehindQuotes(text), '\'')
    ensures var cut := (indent + (head + text))[|head|..];
      EndsTriple(BehindQuotes(cut), '\'') && |BehindQuotes(cut)| > |BehindQuotes(text)|
  {
    hide FirstInk, EndsTriple, BehindQuotes;
    var line := indent + (head + text);
    var front := (indent + head)[|head|..];
    assert line[|head|..] == front + text;
    assert front[|front| - 1] == head[|head| - 1];
    CutIsLonger(front, text);
  }

  /** More text in front of the quotes makes what stands behind the three erased characters longer. */
  lemma CutIsLonger(front: string, text: string)
    requires front != "" && !IsSpace(front[|front| - 1]) && EndsTriple(BehindQuotes(text), '\'')
    ensures EndsTriple(BehindQuotes(front + text), '\'') && |BehindQuotes(front + text)| > |BehindQuotes(text)|
  {
    hide FirstInk, IsSpace;
    var cut, inner := front + text, BehindQuotes(text);
    assert !IsSpace(cut[|front| - 1]);
    var n := FirstInk(cut);
    assert n < |front|;
    assert inner == text[|text| - |inner|..];
    TripleAtEnd(text, inner);
    var item := BehindQuotes(cut);
    assert item == cut[n + 3..] && |item| > |inner|;
    assert item[|item| - 1] == text[|text| - 1] && item[|item| - 2] == text[|text| - 2]
      && item[|item| - 3] == text[|text| - 3];
  }

  lemma TripleAtEnd(text: string, inner: string)
    requires |inner| <= |text| && inner == text[|text| - |inner|..] && EndsTriple(inner, '\'')
    ensures EndsTriple(text, '\'')
  {
    assert inner[|inner| - 1] == text[|text| - 1] && inner[|inner| - 2] == text[|text| - 2];
  }

  /** Blanks in front of a line make no difference to its value, except that a text between triple quotes is cut at the
      wrong place: one that is closed on its line is then read as a longer one. */
  lemma {:induction false} IndentedValue(indent: string, head: string, text: string, comment: bool, more: seq<string>,
    taking: Taking)
    requires AllSpace(indent) && IsHead(head)
    ensures Trim(indent + (head + text)) == Trim(head + text) && |head| - 1 < |Trim(head + text)|
    ensures !IsMultiLine(Trim(text)) ==>
      ReadLinesOfValue(indent + (head + text), |head| - 1, comment, more, taking) ==
        ReadLinesOfValue(head + text, |head| - 1, comment, more, taking)
    ensures ClosedOnItsLine(text) ==>
      (QuotedText('\'', (indent + (head + text))[|head|..], more) == QuotedText('\'', text, more) <==> indent == "")
  {
    hide Trim, QuotedText, ReadTokens, IsMultiLine, WithoutComment, ItemTokens, ArrayText, Rtrim, BehindQuotes;
    hide EndsTriple;
    var line := head + text;
    assert indent + line + "" == indent + line;
    TrimPadded(indent, line, "");
    assert "" + line == line;
    HeadTrims(head, text);
    if ClosedOnItsLine(text) {
      if indent == "" {
        assert indent + line == line;
      } else {
        var cut := (indent + line)[|head|..];
        CutTooEarly(indent, head, text);
        QuotedOnItsLine(text, more);
        QuotedOnItsLine(cut, more);
        var a, b := BehindQuotes(cut), BehindQuotes(text);
        assert |a[..|a| - 3]| > |b[..|b| - 3]|;
      }
    }
  }
}
