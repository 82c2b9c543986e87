/** The header of a section, printed for the names of nested subcommands, is read as the path of these names. */
module CliHeaders {
  import opened Text
  import opened Results
  import opened CliEscape
  import opened CliBrackets
  import opened CliConfigRoundTrip
  import opened CliConfigEntry
  import opened CliConfigLists
  import opened CliSections

  function CleanAll(path: Path): (r: seq<string>)
    ensures |r| == |path| && forall i | 0 <= i < |r| :: r[i] == CleanName(path[i])
  {
    seq(|path|, i requires 0 <= i < |path| => CleanName(path[i]))
  }

  /** The names with dots between them, in brackets. */
  function HeaderText(path: Path): string { "[" + CliConfigLists.Strung(CleanAll(path), ".") + "]" }

  predicate AllValidNames(path: Path) { forall i | 0 <= i < |path| :: ValidName(path[i]) }

  /** Where a bracket at the front of a name ends, in the name itself. */
  function BracketEnd(name: string): nat
    requires name != ""
  {
    if IsOpening(name[0]) then SequenceEnd(name, 0, Closer(name[0])) else |name| - 1
  }

  /** A name that is one piece in front of a dot: it has quotes, or a bracket at its front ends with it. */
  predicate IsWhole(name: string)
    requires name != ""
  {
    NeedsQuotes(name) || BracketEnd(name) == |name| - 1
  }

  /** A name that is one piece at the end, and loses no tab there. */
  predicate IsWholeAtEnd(name: string)
    requires name != ""
  {
    NeedsQuotes(name) || (BracketEnd(name) >= |name| - 1 && name[|name| - 1] != '\t')
  }

  /** Several names come back when each is one piece, and a single one when it is not the default section. */
  predicate PathComesBack(path: Path)
    requires path != [] && AllValidNames(path)
  {
    if |path| == 1 then Lower(path[0]) != "default" else AllWhole(path)
  }

  predicate AllWhole(path: Path)
    requires path != [] && AllValidNames(path)
  {
    if |path| == 1 then IsWholeAtEnd(path[0]) else IsWhole(path[0]) && AllWhole(path[1..])
  }

  // ---- one name ----

  lemma CleanStarts(name: string)
    requires ValidName(name)
    ensures var c := CleanName(name);
      c != "" && !IsSpace(c[0]) && c[0] != '[' && (NeedsQuotes(name) ==> IsQuote(c[0]) && IsTrimmed(c))
  {
    hide ValidName, NeedsQuotes, QuotedName;
    NameTrims(name);
    if NeedsQuotes(name) {
      QuotedStart(name);
      QuotedIsOneToken(name);
    } else {
      PlainNameChar(name, 0);
    }
  }

  /** The token at the front of a text that starts with a name: it is the name exactly when that is one piece there. */
  lemma NameIsTaken(name: string, rest: string)
    requires ValidName(name)
    ensures name != ""
    ensures var c := CleanName(name);
      c != "" && (TokenLength(c + ("." + rest), '.') == |c| <==> IsWhole(name))
  {
    hide ValidName, NeedsQuotes, QuotedName, SequenceEnd, FirstSeparator;
    NameTrims(name);
    CleanStarts(name);
    var c := CleanName(name);
    var s := c + ("." + rest);
    assert s[0] == c[0];
    if NeedsQuotes(name) {
      assert s[..|c|] == c;
      QuotedNameEnds(name, s);
    } else {
      forall i | 0 <= i < |c| ensures !Separates(s[i], '.') && !IsQuote(s[i]) && s[i] == c[i] {
        PlainNameChar(name, i);
      }
      assert Separates(s[|c|], '.');
      if IsOpening(name[0]) { SequenceEndStays(name, 0, Closer(name[0]), "." + rest); }
    }
  }

  /** The quotes come off again. */
  lemma NameSegment(name: string)
    requires ValidName(name)
    ensures Segment(CleanName(name)) == Ok(name)
  {
    hide ValidName, NeedsQuotes, AddEscaped, RemoveEscaped;
    CleanStarts(name);
    if !NeedsQuotes(name) {
      PlainNameChar(name, 0);
    } else if '\'' !in name {
      assert ("'" + name + "'")[1..|name| + 1] == name;
    } else {
      RemoveOfAdd(name);
      var e := AddEscaped(name);
      assert ("\"" + e + "\"")[1..|e| + 1] == e;
    }
  }

  /** A token that starts with no quote is its own segment. */
  lemma PlainSegment(token: string)
    requires token != "" && !IsQuote(token[0])
    ensures Segment(token) == Ok(token)
  {
  }

  lemma SegmentsFirst(token: string, more: seq<string>, path: Path)
    requires path != []
    ensures Segments([token] + more) == Ok(path) <==> Segment(token) == Ok(path[0]) && Segments(more) == Ok(path[1..])
  {
    hide Segment;
    assert ([token] + more)[1..] == more;
    if Segment(token) == Ok(path[0]) && Segments(more) == Ok(path[1..]) { assert path == [path[0]] + path[1..]; }
    if Segments([token] + more) == Ok(path) { assert path[1..] == Segments(more).value; }
  }

  // ---- the whole path ----

  /** What is left of the names when the text is trimmed. */
  function Trimmed(path: Path): string
    requires path != []
  {
    if |path| == 1 then Trim(CleanName(path[0])) else CleanName(path[0]) + ("." + Trimmed(path[1..]))
  }

  lemma {:induction false} TrimmedIs(path: Path)
    requires path != [] && AllValidNames(path)
    ensures var t := Trimmed(path); t != "" && IsTrimmed(t) && t[0] == CleanName(path[0])[0]
    ensures Trim(CliConfigLists.Strung(CleanAll(path), ".")) == Trimmed(path)
  {
    hide ValidName, CleanName, Trim;
    var first := CleanName(path[0]);
    CleanStarts(path[0]);
    if |path| == 1 {
      var _ := TrimKeepsFirst(first);
    } else {
      TrimmedIs(path[1..]);
      assert CleanAll(path)[1..] == CleanAll(path[1..]);
      var rest := CliConfigLists.Strung(CleanAll(path[1..]), ".");
      StrungStarts(path[1..]);
      var after := TrimKeepsFirst(rest);
      var t := Trimmed(path);
      assert first + ("." + rest) == "" + t + after;
      TrimUnique("", t, after);
    }
  }

  lemma TrimKeepsFirst(s: string) returns (after: string)
    requires s != "" && !IsSpace(s[0])
    ensures Trim(s) != "" && Trim(s)[0] == s[0] && s == Trim(s) + after && AllSpace(after)
  {
    hide EndOfInk;
    var e := EndOfInk(s);
    assert e > 0 && s[..e][0] == s[0];
    after := s[e..];
  }

  lemma StrungStarts(path: Path)
    requires path != [] && AllValidNames(path)
    ensures var s := CliConfigLists.Strung(CleanAll(path), "."); s != "" && !IsSpace(s[0])
  {
    hide ValidName, CleanName;
    CleanStarts(path[0]);
  }

  lemma TokensStep(text: string)
    requires text != ""
    ensures Tokens(text, '.') == [text[..TokenLength(text, '.')]] + Tokens(AfterToken(text, '.'), '.')
  {
    hide TokenLength, AfterToken;
  }

  /** The last name: all that is left is one token, and the name, exactly when it is whole. */
  lemma LastName(name: string)
    requires ValidName(name)
    ensures var t := Trim(CleanName(name));
      t != "" && (Segments(Tokens(t, '.')) == Ok([name]) <==> IsWholeAtEnd(name))
  {
    hide ValidName, NeedsQuotes, QuotedName, SequenceEnd, TokenLength, Tokens, Segment, Trim, AfterToken, Segments;
    CleanStarts(name);
    var t := Trim(CleanName(name));
    var after := TrimKeepsFirst(CleanName(name));
    TokensStep(t);
    NoMoreSegments();
    var f, more := t[..TokenLength(t, '.')], Tokens(AfterToken(t, '.'), '.');
    SegmentsFirst(f, more, [name]);
    assert [name][1..] == [];
    if NeedsQuotes(name) {
      TrimOfTrimmed(QuotedName(name).Render());
      QuotedLast(name);
      NameSegment(name);
      assert t[..|t|] == t;
    } else {
      PlainLast(name, t, after);
      assert f != "" ==> f[0] == t[0];
      if f != "" { PlainSegment(f); }
    }
  }

  lemma NoMoreSegments()
    ensures Segments([]) == Ok([]) && Tokens("", '.') == []
  {
  }

  lemma QuotedLast(name: string)
    requires ValidName(name) && NeedsQuotes(name)
    ensures var t := CleanName(name); t != "" && TokenLength(t, '.') == |t| && AfterToken(t, '.') == ""
  {
    hide ValidName, NeedsQuotes, QuotedName, SequenceEnd, Trim;
    CleanStarts(name);
    QuotedNameEnds(name, CleanName(name));
  }

  lemma PlainLast(name: string, t: string, after: string)
    requires ValidName(name) && !NeedsQuotes(name) && name == t + after && t == Trim(name) != ""
    ensures var n := TokenLength(t, '.');
      && 0 < n <= |t| && !IsQuote(t[0])
      && (t[..n] == name <==> IsWholeAtEnd(name)) && (n == |t| ==> AfterToken(t, '.') == "")
  {
    hide ValidName, NeedsQuotes, SequenceEnd, FirstSeparator, Trim;
    NameTrims(name);
    forall i | 0 <= i < |t| ensures !Separates(t[i], '.') && !IsQuote(t[i]) && t[i] == name[i] {
      PlainNameChar(name, i);
    }
    if name[|name| - 1] != '\t' { assert t == name; }
    if IsOpening(t[0]) { SequenceEndStays(t, 0, Closer(t[0]), after); }
  }

  /** A name in front of a dot that is not whole is read as something else. */
  lemma NotWholeIsLost(name: string, rest: string)
    requires ValidName(name) && !IsWhole(name)
    ensures var text := CleanName(name) + ("." + rest);
      var n := TokenLength(text, '.'); 0 < n && Segment(text[..n]) != Ok(name)
  {
    hide ValidName, NeedsQuotes, SequenceEnd, FirstSeparator;
    NameIsTaken(name, rest);
    CleanStarts(name);
    PlainNameChar(name, 0);
    var text := name + ("." + rest);
    var n := TokenLength(text, '.');
    assert text[0] == name[0] && text[..n][0] == name[0];
    PlainSegment(text[..n]);
  }

  lemma {:induction false} PathRead(path: Path)
    requires path != [] && AllValidNames(path)
    ensures Segments(Tokens(Trimmed(path), '.')) == Ok(path) <==> AllWhole(path)
    decreases |path|
  {
    hide ValidName, CleanName, Tokens, TokenLength, AfterToken, Segment, Segments, IsWhole, IsWholeAtEnd;
    if |path| == 1 {
      LastName(path[0]);
      assert path == [path[0]];
    } else {
      var rest, c := Trimmed(path[1..]), CleanName(path[0]);
      var text := c + ("." + rest);
      var n := TokenLength(text, '.');
      PathRead(path[1..]);
      TrimmedIs(path[1..]);
      NameIsTaken(path[0], rest);
      TokensStep(text);
      SegmentsFirst(text[..n], Tokens(AfterToken(text, '.'), '.'), path);
      if IsWhole(path[0]) {
        assert "."[1..] == "";
        AfterFirst(c, ".", rest, '.');
        NameSegment(path[0]);
      } else {
        NotWholeIsLost(path[0], rest);
      }
    }
  }

  lemma {:induction false} StrungHasDot(path: Path)
    requires |path| > 1
    ensures '.' in CliConfigLists.Strung(CleanAll(path), ".")
  {
    hide CleanName;
    var s, c := CliConfigLists.Strung(CleanAll(path), "."), CleanName(path[0]);
    assert s[|c|] == '.';
  }

  /** No name that needs quotes is "default" in any case, and nor is one in quotes. */
  lemma DefaultIsPlain(name: string)
    requires ValidName(name)
    ensures Lower(CleanName(name)) == "default" <==> Lower(name) == "default"
  {
    hide ValidName, QuotedName, NeedsQuotes;
    var d := "default";
    assert d[0] == 'd' && d[1] == 'e' && d[2] == 'f' && d[3] == 'a' && d[4] == 'u' && d[5] == 'l' && d[6] == 't';
    CleanStarts(name);
    if NeedsQuotes(name) {
      assert Lower(CleanName(name))[0] == CleanName(name)[0];
      NotAWord(name);
    }
  }

  lemma NotAWord(name: string)
    requires NeedsQuotes(name)
    ensures exists i :: 0 <= i < |name| && !('a' <= Lower(name)[i] <= 'z')
  {
    var i :| 0 <= i < |name| && (name[i] in KEY_CHARS || name[i] in QUOTE_CHARS);
    var k, q := KEY_CHARS, QUOTE_CHARS;
    assert k[0] == '#' && k[1] == ';' && k[2] == '.' && k[3] == '\'' && k[4] == '\"' && k[5] == '[' && k[6] == ']';
    assert k[7] == '=' && k[8] == ',' && q[0] == '\'' && q[1] == '`' && q[2] == '\"' && q[3] == '\\';
    assert Lower(name)[i] == name[i];
  }

  /** The header that is printed for nested names is read as the path of these names exactly when the path comes back:
      a bracket at the front of one of several names is closed by its end, the last of them loses no tab, and a
      single one is not the default section. */
  lemma {:induction false} HeaderRoundTrip(path: Path)
    requires path != [] && AllValidNames(path)
    ensures IsHeader(HeaderText(path))
    ensures HeaderLine(HeaderText(path)) == Ok(Header(path)) <==> PathComesBack(path)
  {
    hide ValidName, CleanName, Tokens, Segment, Segments, AllWhole, CliConfigLists.Strung;
    var name := CliConfigLists.Strung(CleanAll(path), ".");
    PrintedHeader(path);
    if |path| == 1 {
      OnePrinted(path[0]);
      assert path == [path[0]] && CleanAll(path) == [CleanName(path[0])];
      StrungOne(CleanName(path[0]));
    } else {
      StrungHasDot(path);
      TrimmedIs(path);
      PathRead(path);
      DotIsNoDefault(name);
    }
  }

  lemma StrungOne(token: string)
    ensures CliConfigLists.Strung([token], ".") == token
  {
  }

  lemma DotIsNoDefault(name: string)
    requires '.' in name
    ensures Lower(name) != "default"
  {
    var i :| 0 <= i < |name| && name[i] == '.';
    assert Lower(name)[i] == '.';
    assert '.' !in "default" by {
      var d := "default";
      assert d[0] == 'd' && d[1] == 'e' && d[2] == 'f' && d[3] == 'a' && d[4] == 'u' && d[5] == 'l' && d[6] == 't';
    }
  }

  lemma PrintedHeader(path: Path)
    requires path != [] && AllValidNames(path)
    ensures var name := CliConfigLists.Strung(CleanAll(path), ".");
      IsHeader(HeaderText(path)) && SectionName(HeaderText(path)) == name
  {
    hide ValidName, CleanName;
    CleanStarts(path[0]);
    var name := CliConfigLists.Strung(CleanAll(path), ".");
    assert name != "" && name[0] == CleanName(path[0])[0];
    assert HeaderText(path)[1..|name| + 1] == name;
  }

  lemma OnePrinted(name: string)
    requires ValidName(name)
    ensures var c := CleanName(name);
      && (Lower(c) == "default" <==> Lower(name) == "default")
      && Segments(if '.' in c then SplitUp(c, '.') else [c]) == Ok([name])
  {
    hide ValidName, Segment, Tokens, QuotedName, NeedsQuotes;
    var c := CleanName(name);
    DefaultIsPlain(name);
    NameSegment(name);
    NoMoreSegments();
    SegmentsFirst(c, [], [name]);
    assert [c] + [] == [c] && [name][1..] == [];
    if NeedsQuotes(name) {
      CleanStarts(name);
      QuotedLast(name);
      CliConfigRoundTrip.OneToken(c, '.');
    } else {
      forall i | 0 <= i < |name| ensures name[i] != '.' { PlainNameChar(name, i); }
    }
  }

  /** Brackets may be double. */
  lemma DoubleBrackets(name: string)
    requires name != "" && !(name[0] == '[' && name[|name| - 1] == ']')
    ensures IsHeader("[" + name + "]") && IsHeader("[[" + name + "]]")
    ensures HeaderLine("[[" + name + "]]") == HeaderLine("[" + name + "]")
  {
    hide Segments, SplitUp;
    var one, two := "[" + name + "]", "[[" + name + "]]";
    assert one[1..|one| - 1] == name && two[1..|two| - 1] == one;
  }

  /** For example nested names of which the first is (a are read as others. */
  lemma OpenBracketIsLost(last: string)
    requires ValidName(last)
    ensures HeaderLine(HeaderText(["(a", last])) != Ok(Header(["(a", last]))
  {
    hide HeaderText, HeaderLine;
    var path := ["(a", last];
    assert "(a"[0] == '(' && "(a"[1] == 'a';
    assert path[0] == "(a" && path[1] == last && path[1..] == [last];
    OpenIsNotWhole();
    HeaderRoundTrip(path);
  }

  lemma OpenIsNotWhole()
    ensures ValidName("(a") && !IsWhole("(a")
  {
    hide QuoteEnd;
    var n := "(a";
    assert n[0] == '(' && n[1] == 'a';
    assert NestedEnd(n, 1, ')') == NestedEnd(n, 2, ')') == 2;
    var k, q := KEY_CHARS, QUOTE_CHARS;
    assert k[0] == '#' && k[1] == ';' && k[2] == '.' && k[3] == '\'' && k[4] == '\"' && k[5] == '[' && k[6] == ']';
    assert k[7] == '=' && k[8] == ',' && q[0] == '\'' && q[1] == '`' && q[2] == '\"' && q[3] == '\\';
  }
}
