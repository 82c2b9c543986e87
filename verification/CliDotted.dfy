/** Entries of a config file whose names have dots: the names in front are read as the parents of the last one. */
module CliDotted {
  import opened Text
  import opened Results
  import opened CliEscape
  import opened CliBrackets
  import opened CliConfigValue
  import opened CliConfigRoundTrip
  import opened CliConfigLines
  import opened CliConfigEntry
  import opened CliConfigNotes
  import opened CliHeaders
  import Lists = CliConfigLists
  import Sections = CliSections

  function Dotted(path: seq<string>): string { Lists.Strung(CleanAll(path), ".") }

  // ---- the search passes over the names ----

  lemma DottedStep(path: seq<string>)
    requires path != []
    ensures Dotted(path) ==
      if |path| == 1 then CleanName(path[0]) else CleanName(path[0]) + ("." + Dotted(path[1..]))
  {
    hide CleanName;
    assert CleanAll(path)[1..] == CleanAll(path[1..]);
  }

  lemma QuotedEndsAt(line: string, at: nat, name: string)
    requires name != "" && IsAt(line, at, QuotedName(name).Render())
    ensures var c := QuotedName(name).Render();
      |c| >= 2 && at < |line| && IsQuote(line[at]) && SequenceEnd(line, at, line[at]) == at + |c| - 1
  {
    hide AddEscaped, StringEnd, LiteralEnd, IsAt;
    if '\'' !in name {
      Regroup("'", name, "'");
      IsAtSplit(line, at, "'", name + "'");
      IsAtOne(line, at, '\'');
      LiteralEndOfBody(line, at + 1, name);
    } else {
      Regroup("\"", AddEscaped(name), "\"");
      IsAtSplit(line, at, "\"", AddEscaped(name) + "\"");
      IsAtOne(line, at, '\"');
      StringEndOfEscaped(line, at + 1, name);
    }
  }

  /** One name: the search goes on behind one in quotes, and at the next sign behind another. */
  lemma NamePassed(line: string, at: nat, name: string, n: nat)
    requires ValidName(name) && IsAt(line, at, CleanName(name))
    requires at + |CleanName(name)| <= n < |line| && IsSign(line[n])
    requires forall i | at + |CleanName(name)| <= i < n :: IsSpace(line[i])
    ensures CleanName(name) != ""
    ensures SearchFrom(line, at) == SearchFrom(line, if NeedsQuotes(name) then at + |CleanName(name)| else n)
  {
    hide ValidName, NeedsQuotes, QuotedName, SearchFrom, SequenceEnd;
    NameTrims(name);
    CleanStarts(name);
    var c := CleanName(name);
    assert line[at..at + |c|] == c && line[at] == c[0];
    SearchStep(line, at);
    if NeedsQuotes(name) {
      QuotedEndsAt(line, at, name);
    } else {
      forall i | at <= i < n ensures !IsSign(line[i]) {
        if i < at + |c| { PlainNameChar(name, i - at); assert line[i] == c[i - at]; }
      }
      PlainNameChar(name, 0);
      SignFound(line, at, n);
    }
  }

  lemma {:induction false} PathPassed(line: string, at: nat, path: seq<string>, end: nat)
    requires path != [] && AllValidNames(path) && IsAt(line, at, Dotted(path))
    requires 0 < end && at + |Dotted(path)| <= end < |line| && line[end] == '='
    requires forall i | at + |Dotted(path)| <= i < end :: IsSpace(line[i])
    ensures SearchFrom(line, at) == Some(end - 1)
    decreases |path|
  {
    hide ValidName, NeedsQuotes, CleanName, SearchFrom, IsAt, Dotted, SequenceEnd;
    var c := CleanName(path[0]);
    DottedStep(path);
    if |path| == 1 {
      NamePassed(line, at, path[0], end);
      BlanksPassed(line, if NeedsQuotes(path[0]) then at + |c| else end, end);
    } else {
      var rest := Dotted(path[1..]);
      var next := at + |c| + 1;
      IsAtSplit(line, at, c, "." + rest);
      IsAtSplit(line, at + |c|, ".", rest);
      IsAtOne(line, at + |c|, '.');
      NamePassed(line, at, path[0], at + |c|);
      SearchStep(line, at + |c|);
      PathPassed(line, next, path[1..], end);
    }
  }

  /** Without quotes there is no sign in the names but the dots. */
  lemma {:induction false} NoSignsInPath(path: seq<string>)
    requires path != [] && AllValidNames(path)
    ensures var s := Dotted(path);
      && s != "" && s[|s| - 1] != '#'
      && (HasAny(s, "\"'`") || ('=' !in s && '#' !in s))
    decreases |path|
  {
    hide ValidName, NeedsQuotes, CleanName, HasAny, Dotted;
    NameSigns(path[0]);
    DottedStep(path);
    var c, s := CleanName(path[0]), Dotted(path);
    if |path| > 1 {
      NoSignsInPath(path[1..]);
      var rest := Dotted(path[1..]);
      assert s[|s| - 1] == rest[|rest| - 1];
      AnyInEither(c, "." + rest);
      AnyInEither(".", rest);
    }
  }

  lemma AnyInEither(a: string, b: string)
    ensures HasAny(a, "\"'`") || HasAny(b, "\"'`") ==> HasAny(a + b, "\"'`")
  {
    if HasAny(a, "\"'`") {
      var i :| 0 <= i < |a| && a[i] in "\"'`";
      assert (a + b)[i] == a[i];
    } else if HasAny(b, "\"'`") {
      var i :| 0 <= i < |b| && b[i] in "\"'`";
      assert (a + b)[|a| + i] == b[i];
    }
  }

  lemma NameSigns(name: string)
    requires ValidName(name)
    ensures var c := CleanName(name);
      c != "" && c[|c| - 1] != '#' && (HasAny(c, "\"'`") || ('=' !in c && '#' !in c))
  {
    hide ValidName, NeedsQuotes, QuotedName;
    NameTrims(name);
    CleanStarts(name);
    var c := CleanName(name);
    if NeedsQuotes(name) {
      QuotedNameEnds(name, c);
      assert c[0] in "\"'`" by { assert "\"'`"[0] == '\"' && "\"'`"[1] == '\'' && "\"'`"[2] == '`'; }
    } else {
      forall i | 0 <= i < |name| ensures name[i] != '=' && name[i] != '#' { PlainNameChar(name, i); }
    }
  }

  /** The '=' behind the names is found, and a comment sign exactly when there is one behind it. */
  lemma PathFound(path: seq<string>, blanks: string, rest: string)
    requires path != [] && AllValidNames(path) && AllSpace(blanks)
    ensures var head := Dotted(path) + blanks;
      var line := head + "=" + rest;
      DelimiterAt(line) == |head| < CommentAt(line) && (CommentAt(line) < |line| <==> '#' in rest)
  {
    hide DelimiterAt, CommentAt, SearchFrom, ValidName, CleanName, Dotted, HasAny, IsSpace;
    var s := Dotted(path);
    var head := s + blanks;
    var line, n := head + "=" + rest, |head|;
    NoSignsInPath(path);
    assert line[..|s|] == s && line[n] == '=' && forall i | |s| <= i < n :: line[i] == blanks[i - |s|];
    assert line[n - 1] != '#' by { if blanks == "" { assert line[n - 1] == s[|s| - 1]; } else { NoSpaceSign(); } }
    if HasAny(line, "\"'`") {
      PathPassed(line, 0, path, n);
    } else {
      assert line == s + (blanks + "=" + rest);
      AnyInEither(s, blanks + "=" + rest);
      NoSpaceSign();
      assert forall i | 0 <= i < |s| :: line[i] == s[i];
    }
    assert line[n + 1..] == rest;
    DelimiterIs(line, n);
  }

  lemma NoSpaceSign()
    ensures !IsSpace('=') && !IsSpace('#')
  {
  }

  // ---- the parts ----

  /** Names that are whole are the tokens at the dots. */
  lemma {:induction false} PathTokens(path: seq<string>)
    requires path != [] && AllValidNames(path) && AllWhole(path)
    ensures Tokens(Trimmed(path), '.') == CleanAll(path)
    decreases |path|
  {
    hide ValidName, CleanName, Tokens, TokenLength, AfterToken, IsWhole, IsWholeAtEnd;
    if |path| == 1 {
      LastToken(path[0]);
    } else {
      var rest, c := Trimmed(path[1..]), CleanName(path[0]);
      var text := c + ("." + rest);
      PathTokens(path[1..]);
      TrimmedIs(path[1..]);
      NameIsTaken(path[0], rest);
      TokensStep(text);
      assert "."[1..] == "";
      Lists.AfterFirst(c, ".", rest, '.');
      assert CleanAll(path) == [c] + CleanAll(path[1..]);
    }
  }

  lemma LastToken(name: string)
    requires ValidName(name) && IsWholeAtEnd(name)
    ensures Tokens(Trim(CleanName(name)), '.') == [CleanName(name)]
  {
    hide ValidName, NeedsQuotes, QuotedName, SequenceEnd, TokenLength, Tokens, Trim, AfterToken;
    CleanStarts(name);
    var t := Trim(CleanName(name));
    var after := TrimKeepsFirst(CleanName(name));
    TokensStep(t);
    NoMoreSegments();
    assert t[..|t|] == t;
    if NeedsQuotes(name) {
      TrimOfTrimmed(QuotedName(name).Render());
      QuotedLast(name);
    } else {
      PlainLast(name, t, after);
      NameTrims(name);
    }
  }

  lemma {:induction false} SegmentsOfNames(path: seq<string>)
    requires AllValidNames(path)
    ensures Sections.Segments(CleanAll(path)) == Ok(path)
    decreases |path|
  {
    hide ValidName, CleanName, Sections.Segment;
    if path == [] {
      NoMoreSegments();
    } else {
      NameSegment(path[0]);
      SegmentsOfNames(path[1..]);
      assert CleanAll(path) == [CleanName(path[0])] + CleanAll(path[1..]);
      SegmentsFirst(CleanName(path[0]), CleanAll(path[1..]), path);
    }
  }

  lemma PathParts(path: seq<string>)
    requires |path| > 1 && AllValidNames(path) && AllWhole(path)
    ensures NameParts(Trimmed(path)) == CleanAll(path)
  {
    hide ValidName, CleanName, Tokens, IsWhole, IsWholeAtEnd, Trim;
    PathTokens(path);
    TrimmedIs(path);
    TrimOfTrimmed(Trimmed(path));
    var c := CleanName(path[0]);
    assert Trimmed(path)[|c|] == '.';
  }

  // ---- the line ----

  /** The value behind two heads is the same. */
  lemma SameBehind(a: string, b: string, text: string, comment: bool, more: seq<string>)
    requires IsHead(a) && IsHead(b)
    ensures |a| - 1 < |Trim(a + text)| && |b| - 1 < |Trim(b + text)|
    ensures ItemsOfValue(a + text, |a| - 1, comment, more) == ItemsOfValue(b + text, |b| - 1, comment, more)
  {
    hide Trim, QuotedText, IsMultiLine, WithoutComment, ItemTokens, ArrayText, Rtrim;
    HeadTrims(a, text);
    HeadTrims(b, text);
  }

  lemma PathHead(path: seq<string>, blanks: string, text: string)
    requires path != [] && AllValidNames(path) && AllSpace(blanks)
    ensures var head := Dotted(path) + blanks + "=";
      var line := Trim(head + text);
      && IsHead(head) && |head| <= |line| && Trim(line[..|head| - 1]) == Trimmed(path)
      && DelimiterAt(line) == |head| - 1 < CommentAt(line) && (CommentAt(line) < |line| <==> '#' in text)
  {
    hide ValidName, CleanName, DelimiterAt, CommentAt, Trim, Rtrim, Lists.Strung;
    var s := Dotted(path);
    var head := s + blanks + "=";
    StrungStarts(path);
    TrimmedIs(path);
    assert head[0] == s[0] && head[|head| - 1] == '=';
    NoBlanksBefore(s, blanks);
    HeadTrims(head, text);
    PathFound(path, blanks, Rtrim(text));
    InkSurvives(text);
    assert (head + Rtrim(text))[..|head| - 1] == s + blanks;
  }

  /** A line with dots in its name is read like the line of the last name alone, with the names in front as its parents:
      for every path of names that are whole, and whatever stands behind the '='. */
  lemma {:induction false} DottedEntry(parents: seq<string>, name: string, blanks: string, text: string,
    more: seq<string>, taking: Taking)
    requires parents != [] && AllValidNames(parents + [name]) && AllSpace(blanks)
    requires AllWhole(parents + [name])
    ensures var alone := ReadEntry(CleanName(name) + blanks + "=" + text, more, taking);
      ReadEntry(Dotted(parents + [name]) + blanks + "=" + text, more, taking) ==
        if alone.Ok? then Ok(Entry(parents, alone.value.name, alone.value.results)) else Error(alone.error)
  {
    hide ValidName, CleanName, DelimiterAt, CommentAt, ReadTokens, ItemsOfValue, ProcessQuoted, Trim, NameParts;
    hide Dotted, Trimmed, AllWhole, IsWholeAtEnd, Sections.Segments, Rtrim;
    var path, one := parents + [name], [name];
    var a, b := Dotted(path) + blanks + "=", Dotted(one) + blanks + "=";
    assert path[|parents|] == name && one[0] == name;
    WholeAtEnd(path);
    DottedStep(one);
    PathHead(path, blanks, text);
    PathHead(one, blanks, text);
    SameBehind(a, b, text, '#' in text, more);
    EntryFound(a + text, more, taking, |a| - 1, '#' in text);
    EntryFound(b + text, more, taking, |b| - 1, '#' in text);
    PathParts(path);
    OneParts(name);
    assert CleanAll(path)[..|parents|] == CleanAll(parents) && CleanAll(path)[|parents|] == CleanName(name);
    assert AllValidNames(parents) by { assert forall i | 0 <= i < |parents| :: path[i] == parents[i]; }
    SegmentsOfNames(parents);
    NoMoreSegments();
    assert CleanAll(one)[..0] == [];
  }

  lemma {:induction false} WholeAtEnd(path: seq<string>)
    requires path != [] && AllValidNames(path) && AllWhole(path)
    ensures IsWholeAtEnd(path[|path| - 1])
    decreases |path|
  {
    hide ValidName, IsWhole, IsWholeAtEnd;
    if |path| > 1 { WholeAtEnd(path[1..]); }
  }

  lemma OneParts(name: string)
    requires ValidName(name) && IsWholeAtEnd(name)
    ensures NameParts(Trimmed([name])) == CleanAll([name]) == [CleanName(name)]
  {
    hide ValidName, Tokens, NeedsQuotes, QuotedName, Trim, BracketEnd;
    LastToken(name);
    NameRead(name);
    CleanStarts(name);
    NameTrims(name);
    if NeedsQuotes(name) { TrimOfTrimmed(QuotedName(name).Render()); }
  }
}
