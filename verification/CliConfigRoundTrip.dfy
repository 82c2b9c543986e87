/** Config values round trip: what ini_join prints is read back as the list it was made of. */
module CliConfigRoundTrip {
  import opened Text
  import opened Results
  import opened CliEscape
  import opened CliBinary
  import opened CliBrackets
  import opened CliConfigValue

  // ---- the tokens that are printed ----

  /** Plain text: no whitespace, bracket, quote, comma or comment sign. */
  predicate IsPlainChar(c: char) {
    ('0' <= c <= '9') || ('a' <= c <= 'z') || ('A' <= c <= 'Z') || c == '.' || c == '-' || c == '+'
  }

  predicate IsPlainToken(t: string) { t != "" && forall i | 0 <= i < |t| :: IsPlainChar(t[i]) }

  /** Text between single quotes, or between double quotes with its escapes. */
  datatype Token = PlainToken(text: string) | LiteralToken(body: string) | StringToken(text: string) {
    predicate Valid() {
      match this
      case PlainToken(text) => IsPlainToken(text)
      case LiteralToken(body) => '\'' !in body
      case StringToken(_) => true
    }

    function Render(): string {
      match this
      case PlainToken(text) => text
      case LiteralToken(body) => "'" + body + "'"
      case StringToken(text) => "\"" + AddEscaped(text) + "\""
    }
  }

  /** The token of an argument. */
  function TokenOf(arg: string, isNumber: Number): Token {
    if arg == "" then StringToken("")
    else if IsPlain(arg, isNumber) then PlainToken(arg)
    else if (|arg| == 1 && !IsPrint(arg[0])) || (|arg| > 1 && !IsPrintable(arg)) then
      LiteralToken("B\"(" + Unquoted(EscapedBody(arg, false)) + ")\"")
    else if |arg| == 1 && arg != "'" then LiteralToken(arg)
    else StringToken(arg)
  }

  lemma {:induction false} NothingToEscape(s: string)
    requires forall i | 0 <= i < |s| :: !IsEscapable(s[i])
    ensures AddEscaped(s) == s
  {
    if s != "" { NothingToEscape(s[1..]); assert s == [s[0]] + s[1..]; }
  }

  lemma {:induction false} NotPrintableNeedsEscape(s: string, afterBackslash: bool)
    ensures |EscapedBody(s, afterBackslash)| >= |s|
    ensures (exists i | 0 <= i < |s| :: !IsPrint(s[i])) ==> |EscapedBody(s, afterBackslash)| > |s|
    decreases |s|
  {
    hide HexDigits;
    if s != "" {
      NotPrintableNeedsEscape(s[1..], s[0] == '\\');
      if i :| 0 <= i < |s| && !IsPrint(s[i]) {
        assert 0 < i ==> s[1..][i - 1] == s[i];
      }
    }
  }

  lemma {:induction false} PlainIsToken(arg: string, isNumber: Number)
    requires arg != "" && IsPlain(arg, isNumber)
    ensures IsPlainToken(arg)
  {
    if |arg| > 1 && arg[0] == '0' && arg[1] in "xob" {
      assert forall i | 2 <= i < |arg| :: arg[i] == arg[2..][i - 2];
    }
  }

  /** What is printed for an argument is its token. */
  lemma {:induction false} ConvertIsToken(arg: string, disableMultiLine: bool, isNumber: Number)
    requires IsBytes(arg) && (disableMultiLine || !NeedsMultiLine(arg, isNumber))
    ensures TokenOf(arg, isNumber).Valid()
    ensures ConvertArg(arg, disableMultiLine, isNumber) == TokenOf(arg, isNumber).Render()
  {
    hide IndexOf, EscapedBody, Unquoted;
    if arg == "" {
      assert AddEscaped("") == "";
    } else if IsPlain(arg, isNumber) {
      PlainIsToken(arg, isNumber);
    } else if (|arg| == 1 && !IsPrint(arg[0])) || (|arg| > 1 && !IsPrintable(arg)) {
      NotPrintableNeedsEscape(arg, false);
      EscapedHasNoQuote(arg, false);
      var body := Unquoted(EscapedBody(arg, false));
      assert OPENING + body + CLOSING == "'" + ("B\"(" + body + ")\"") + "'";
    } else if |arg| == 1 {
      if arg == "'" {
        NotEscapable('\'');
        NothingToEscape(arg);
      } else {
        assert arg == [arg[0]];
      }
    } else if !HasEscapable(arg) {
      NothingToEscape(arg);
    }
  }

  lemma NotEscapable(c: char)
    requires c == '\''
    ensures !IsEscapable(c)
  {
  }

  // ---- a token and what follows it ----

  lemma EscapedFirst(c: char)
    ensures |Escaped(c)| == 1 ==> Escaped(c)[0] == c && c != '\"' && c != '\\'
    ensures |Escaped(c)| == 1 || (|Escaped(c)| == 2 && Escaped(c)[0] == '\\')
  {
    assert ESCAPED_CHARS[5] == '\"' && ESCAPED_CHARS[6] == '\\';
  }

  /** The closing quote of an escaped text is the one after it. */
  lemma {:induction false} StringEndOfEscaped(str: string, loc: nat, s: string)
    requires IsAt(str, loc, AddEscaped(s) + "\"")
    ensures StringEnd(str, loc, '\"') == loc + |AddEscaped(s)|
    decreases |s|
  {
    hide Escaped;
    IsAtSplit(str, loc, AddEscaped(s), "\"");
    if s == "" {
      assert str[loc..loc + 1][0] == str[loc];
    } else {
      EscapedFirst(s[0]);
      var e, rest := Escaped(s[0]), AddEscaped(s[1..]);
      assert AddEscaped(s) == e + rest;
      assert AddEscaped(s) + "\"" == e + (rest + "\"");
      IsAtSplit(str, loc, e, rest + "\"");
      assert str[loc..loc + |e|][0] == str[loc];
      StringEndOfEscaped(str, loc + |e|, s[1..]);
    }
  }

  lemma LiteralEndOfBody(str: string, loc: nat, body: string)
    requires '\'' !in body && IsAt(str, loc, body + "'")
    ensures LiteralEnd(str, loc, '\'') == loc + |body|
  {
    var rest := str[loc..];
    assert forall i | 0 <= i < |body| :: rest[i] == (body + "'")[i];
    assert rest[|body|] == (body + "'")[|body|];
  }

  predicate IsSplitter(delimiter: char) { delimiter == ',' || delimiter == '\0' || delimiter == '#' }

  /** split_up takes a printed token as one token. */
  lemma TokenIsTaken(t: Token, rest: string, delimiter: char)
    requires t.Valid() && IsSplitter(delimiter) && (rest == "" || Separates(rest[0], delimiter))
    ensures t.Render() != "" && TokenLength(t.Render() + rest, delimiter) == |t.Render()|
  {
    hide StringEnd, LiteralEnd, AddEscaped, IsAt, TokenLength, IsSplitter;
    match t {
      case PlainToken(text) =>
        PlainIsTaken(text, rest, delimiter);
      case LiteralToken(body) =>
        IsAtBehind('\'', body + "'", rest);
        Regroup("'", body, "'");
        LiteralEndOfBody(t.Render() + rest, 1, body);
        QuoteIsTaken(t.Render(), rest, delimiter);
      case StringToken(text) =>
        IsAtBehind('\"', AddEscaped(text) + "\"", rest);
        Regroup("\"", AddEscaped(text), "\"");
        StringEndOfEscaped(t.Render() + rest, 1, text);
        QuoteIsTaken(t.Render(), rest, delimiter);
    }
  }

  lemma PlainIsTaken(text: string, rest: string, delimiter: char)
    requires IsPlainToken(text) && IsSplitter(delimiter) && (rest == "" || Separates(rest[0], delimiter))
    ensures TokenLength(text + rest, delimiter) == |text|
  {
    hide SequenceEnd, FirstSeparator;
    var str := text + rest;
    assert str[0] == text[0];
    assert forall i | 0 <= i < |text| :: str[i] == text[i];
    var n := FirstSeparator(str, delimiter);
    assert rest != "" ==> str[|text|] == rest[0];
  }

  lemma QuoteIsTaken(quoted: string, rest: string, delimiter: char)
    requires |quoted| > 1 && IsQuote(quoted[0])
    requires SequenceEnd(quoted + rest, 0, quoted[0]) == |quoted| - 1
    ensures TokenLength(quoted + rest, delimiter) == |quoted|
  {
    hide SequenceEnd;
    assert (quoted + rest)[0] == quoted[0];
  }

  lemma IsAtBehind(c: char, part: string, rest: string)
    ensures IsAt([c] + part + rest, 1, part)
  {
  }

  lemma TokenEnds(t: Token)
    requires t.Valid()
    ensures t.Render() != "" && IsTrimmed(t.Render())
  {
    hide AddEscaped;
  }

  function Rendered(ts: seq<Token>): (r: seq<string>)
    ensures |r| == |ts|
    ensures forall i | 0 <= i < |r| :: r[i] == ts[i].Render()
  {
    seq(|ts|, i requires 0 <= i < |ts| => ts[i].Render())
  }

  predicate AllValid(ts: seq<Token>) { forall i | 0 <= i < |ts| :: ts[i].Valid() }

  lemma {:induction false} JoinedEnds(ts: seq<Token>)
    requires ts != [] && AllValid(ts)
    ensures JoinTokens(Rendered(ts)) != "" && IsTrimmed(JoinTokens(Rendered(ts)))
    decreases |ts|
  {
    TokenEnds(ts[0]);
    if |ts| > 1 {
      JoinedEnds(ts[1..]);
      assert Rendered(ts)[1..] == Rendered(ts[1..]);
      var j, rest := JoinTokens(Rendered(ts)), JoinTokens(Rendered(ts[1..]));
      assert j == ts[0].Render() + ", " + rest;
      assert j[0] == ts[0].Render()[0] && j[|j| - 1] == rest[|rest| - 1];
    }
  }

  /** split_up at ',' undoes the joining. */
  lemma {:induction false} TokensOfJoined(ts: seq<Token>)
    requires ts != [] && AllValid(ts)
    ensures Tokens(JoinTokens(Rendered(ts)), ',') == Rendered(ts)
    decreases |ts|
  {
    hide TokenLength, Trim, Token.Render, Token.Valid, FirstSeparator;
    var r := Rendered(ts);
    var j := JoinTokens(r);
    var t := ts[0].Render();
    JoinedEnds(ts);
    if |ts| == 1 {
      TokenIsTaken(ts[0], "", ',');
      assert t + "" == t && j == t;
      assert t[..|t|] == t;
      assert Tokens("", ',') == [];
    } else {
      var rest := JoinTokens(r[1..]);
      assert r[1..] == Rendered(ts[1..]);
      assert j == t + (", " + rest);
      TokenIsTaken(ts[0], ", " + rest, ',');
      assert j[|t| + 1..] == " " + rest;
      JoinedEnds(ts[1..]);
      TrimUnique(" ", rest, "");
      assert " " + rest + "" == " " + rest;
      TokensOfJoined(ts[1..]);
      assert j[..|t|] == t && AfterToken(j, ',') == rest;
    }
  }

  // ---- reading a token back ----

  lemma WrappedInner(c: char, body: string)
    ensures var s := [c] + body + [c]; IsWrapped(s, c) && s[1..|s| - 1] == body && (s[0] == c && s[|s| - 1] == c)
  {
  }

  /** Only quoted text that starts with B"( or with a single quote before it looks like a binary string. */
  lemma BinaryFormStart(s: string)
    ensures IsBinaryEscaped(s) ==> s != "" && (s[0] == 'B' || (s[0] == '\'' && |s| >= 7 && s[1] == 'B'))
    ensures s != "" && IsBinaryEscaped(s) && s[0] == 'B' ==> |s| >= 5 && s[1] == '\"'
  {
    FormLength(s);
    if InnerForm(s) { assert s[..3] == "B\"(" && s[0] == 'B' && s[1] == '\"'; }
    if OuterForm(s) { assert s[..4] == OPENING && s[0] == '\'' && s[1] == 'B'; }
  }

  lemma PlainReadBack(t: string)
    requires IsPlainToken(t)
    ensures ProcessQuoted(t) == Ok(t) && SecondaryArray(t) == t
  {
    hide Extract;
    BinaryFormStart(t);
    assert |t| > 1 ==> IsPlainChar(t[1]);
  }

  lemma StringReadBack(text: string)
    ensures ProcessQuoted(StringToken(text).Render()) == Ok(SecondaryArray(text))
  {
    hide Extract, AddEscaped, RemoveEscaped, SecondaryArray;
    var s := StringToken(text).Render();
    WrappedInner('\"', AddEscaped(text));
    BinaryFormStart(s);
    RemoveOfAdd(text);
    if '\\' !in AddEscaped(text) { NoBackslashNoEscape(text); }
  }

  lemma {:induction false} NoBackslashNoEscape(text: string)
    requires '\\' !in AddEscaped(text)
    ensures AddEscaped(text) == text
  {
    hide IndexOf;
    if text != "" {
      var e := Escaped(text[0]);
      assert AddEscaped(text) == e + AddEscaped(text[1..]);
      EscapedFirst(text[0]);
      NoBackslashNoEscape(text[1..]);
      assert text == [text[0]] + text[1..];
    }
  }

  lemma LiteralReadBack(c: char)
    requires c != '\''
    ensures ProcessQuoted("'" + [c] + "'") == Ok(SecondaryArray([c]))
  {
    hide Extract, SecondaryArray;
    var s := "'" + [c] + "'";
    WrappedInner('\'', [c]);
    BinaryFormStart(s);
  }

  lemma BinaryReadBack(arg: string)
    requires IsBytes(arg) && NeedsEscape(arg)
    ensures ProcessQuoted(BinaryEscape(arg)) == Ok(SecondaryArray(arg))
  {
    hide EscapedBody, Unquoted, Extract, SecondaryArray;
    var e := BinaryEscape(arg);
    BinaryRoundTrip(arg);
    assert e[..4] == OPENING && e[|e| - 3..] == CLOSING;
  }

  /** Processing the token of an argument gives the argument, in the form that _add_result takes
      for one string. */
  lemma TokenReadBack(arg: string, isNumber: Number)
    requires IsBytes(arg)
    ensures ProcessQuoted(TokenOf(arg, isNumber).Render()) == Ok(SecondaryArray(arg))
  {
    hide EscapedBody, Unquoted, Extract, SecondaryArray, ProcessQuoted, AddEscaped, IsPlain, IndexOf;
    if arg == "" {
      StringReadBack("");
    } else if IsPlain(arg, isNumber) {
      PlainIsToken(arg, isNumber);
      PlainReadBack(arg);
    } else if (|arg| == 1 && !IsPrint(arg[0])) || (|arg| > 1 && !IsPrintable(arg)) {
      NotPrintableNeedsEscape(arg, false);
      var body := Unquoted(EscapedBody(arg, false));
      assert OPENING + body + CLOSING == "'" + ("B\"(" + body + ")\"") + "'";
      BinaryReadBack(arg);
    } else if |arg| == 1 && arg != "'" {
      assert arg == [arg[0]];
      LiteralReadBack(arg[0]);
    } else {
      StringReadBack(arg);
    }
  }

  // ---- the value part of from_config ----

  /** A comment sign in the line makes split_up look for the end of the value. */
  function WithoutComment(item: string): string {
    if '#' in item && SplitUp(item, '#') != [] then Trim(SplitUp(item, '#')[0]) else item
  }

  /** The tokens of a value: of an array, of a list at commas or at spaces, or the value itself. */
  function ItemTokens(item: string): seq<string> {
    if |item| > 1 && item[0] == '[' then
      SplitUp(if item[|item| - 1] == ']' then item[1..|item| - 1] else item[1..], ',')
    else if ',' in item then SplitUp(item, ',')
    else if ' ' in item then SplitUp(item, '\0')
    else [item]
  }

  /** The results of an option for some tokens. */
  function ReadTokens(tokens: seq<string>, taking: Taking): Attempt<seq<string>> {
    if tokens == [] then Ok([])
    else
      var text :- ProcessQuoted(tokens[0]);
      var rest :- ReadTokens(tokens[1..], taking);
      Ok(AddedResults(text, taking) + rest)
  }

  function ReadValue(item: string, taking: Taking): Attempt<seq<string>> {
    ReadTokens(ItemTokens(WithoutComment(item)), taking)
  }

  /** Values that start with three quotes are read over several lines, in another way. */
  predicate IsMultiLine(item: string) { "'''" <= item || "\"\"\"" <= item }

  /** The loop over the tokens: quotes come off, and the option takes what is left. */
  method TakeTokens(items_buffer: seq<string>, taking: Taking) returns (results: Attempt<seq<string>>)
    ensures results == ReadTokens(items_buffer, taking)
  {
    hide ProcessQuoted, AddedResults;
    var res := [];
    var n := 0;
    ghost var whole := ReadTokens(items_buffer, taking);
    assert items_buffer[0..] == items_buffer && (whole.Ok? ==> [] + whole.value == whole.value);
    while n < |items_buffer|
      invariant 0 <= n <= |items_buffer|
      invariant whole == PrependedTo(res, ReadTokens(items_buffer[n..], taking))
    {
      assert items_buffer[n..][1..] == items_buffer[n + 1..];
      var it :- ProcessQuotedString(items_buffer[n]);
      ReadTokensStep(items_buffer[n..], taking, res);
      var added;
      res, added := AddResult(it, taking, res);
      n := n + 1;
    }
    assert res + [] == res;
    results := Ok(res);
  }

  function PrependedTo(res: seq<string>, rest: Attempt<seq<string>>): Attempt<seq<string>> {
    if rest.Ok? then Ok(res + rest.value) else rest
  }

  lemma {:induction false} ReadTokensStep(tokens: seq<string>, taking: Taking, res: seq<string>)
    requires tokens != [] && ProcessQuoted(tokens[0]).Ok?
    ensures var added := AddedResults(ProcessQuoted(tokens[0]).value, taking);
      PrependedTo(res, ReadTokens(tokens, taking)) == PrependedTo(res + added, ReadTokens(tokens[1..], taking))
  {
    hide ProcessQuoted, AddedResults;
    var added, rest := AddedResults(ProcessQuoted(tokens[0]).value, taking), ReadTokens(tokens[1..], taking);
    assert rest.Ok? ==> res + (added + rest.value) == res + added + rest.value;
  }

  function TokensOf(args: seq<string>, isNumber: Number): (r: seq<Token>)
    ensures |r| == |args|
    ensures forall i | 0 <= i < |r| :: r[i] == TokenOf(args[i], isNumber)
  {
    seq(|args|, i requires 0 <= i < |args| => TokenOf(args[i], isNumber))
  }

  /** No argument is taken apart at the delimiter of the option. */
  predicate AllUndivided(args: seq<string>, taking: Taking) {
    forall i | 0 <= i < |args| :: Undivided(args[i], taking)
  }

  /** The tokens of arguments give the arguments back, unless one is taken apart and the delimiter in it lost. */
  lemma {:induction false} ReadTokensBack(args: seq<string>, taking: Taking, isNumber: Number)
    requires forall i | 0 <= i < |args| :: IsBytes(args[i])
    ensures var r := ReadTokens(Rendered(TokensOf(args, isNumber)), taking);
      && r.Ok?
      && (AllUndivided(args, taking) ==> r.value == args)
      && (!AllUndivided(args, taking) ==> TotalLength(r.value) < TotalLength(args))
    decreases |args|
  {
    hide ProcessQuoted, SecondaryArray, AddedResults, TokenOf, IsBytes, Undivided, AllUndivided, TotalLength;
    hide ReadTokens;
    hide Token.Render;
    var r := Rendered(TokensOf(args, isNumber));
    if args == [] {
      assert r == [];
      NoTokens(taking);
    } else {
      assert r[1..] == Rendered(TokensOf(args[1..], isNumber));
      ReadTokensBack(args[1..], taking, isNumber);
      OneMoreBack(args, r, taking, isNumber);
    }
  }

  lemma OneMoreBack(args: seq<string>, r: seq<string>, taking: Taking, isNumber: Number)
    requires args != [] && IsBytes(args[0]) && r != [] && r[0] == TokenOf(args[0], isNumber).Render()
    requires ReadTokens(r[1..], taking).Ok?
    requires AllUndivided(args[1..], taking) ==> ReadTokens(r[1..], taking).value == args[1..]
    requires !AllUndivided(args[1..], taking) ==> TotalLength(ReadTokens(r[1..], taking).value) < TotalLength(args[1..])
    ensures ReadTokens(r, taking).Ok?
    ensures AllUndivided(args, taking) ==> ReadTokens(r, taking).value == args
    ensures !AllUndivided(args, taking) ==> TotalLength(ReadTokens(r, taking).value) < TotalLength(args)
  {
    hide ProcessQuoted, SecondaryArray, AddedResults, TokenOf, IsBytes, Undivided, AllUndivided, TotalLength;
    hide ReadTokens;
    hide Token.Render;
    assert r == [r[0]] + r[1..] && args == [args[0]] + args[1..];
    TokenReadBack(args[0], isNumber);
    OneResult(args[0], taking);
    UndividedStep(args, taking);
    var added := AddedResults(SecondaryArray(args[0]), taking);
    OneMoreToken(r[0], r[1..], taking);
    TotalOfBoth(added, ReadTokens(r[1..], taking).value);
    TotalStep(args[0], args[1..]);
    OneTotal(args[0]);
  }

  lemma NoTokens(taking: Taking)
    ensures ReadTokens([], taking) == Ok([]) && AllUndivided([], taking)
  {
  }

  lemma OneMoreToken(token: string, more: seq<string>, taking: Taking)
    requires ProcessQuoted(token).Ok? && ReadTokens(more, taking).Ok?
    ensures ReadTokens([token] + more, taking) ==
      Ok(AddedResults(ProcessQuoted(token).value, taking) + ReadTokens(more, taking).value)
  {
    hide ProcessQuoted, AddedResults;
    assert ([token] + more)[1..] == more;
  }

  lemma UndividedStep(args: seq<string>, taking: Taking)
    requires args != []
    ensures AllUndivided(args, taking) <==> Undivided(args[0], taking) && AllUndivided(args[1..], taking)
  {
    hide Undivided;
    assert forall i | 0 < i < |args| :: args[i] == args[1..][i - 1];
  }

  // ---- the end of an array ----

  /** Inside an array a token is passed over as a whole. */
  lemma TokenIsSkipped(str: string, loc: nat, t: Token)
    requires t.Valid() && IsAt(str, loc, t.Render())
    ensures NestedEnd(str, loc, ']') == NestedEnd(str, loc + |t.Render()|, ']')
  {
    hide AddEscaped, StringEnd, LiteralEnd, NestedEnd, IsAt;
    match t {
      case PlainToken(text) =>
        IsAtChars(str, loc, text);
        PlainIsSkipped(str, loc, |text|);
      case LiteralToken(body) =>
        Regroup("'", body, "'");
        IsAtSplit(str, loc, "'", body + "'");
        IsAtOne(str, loc, '\'');
        LiteralEndOfBody(str, loc + 1, body);
        QuoteIsSkipped(str, loc);
      case StringToken(text) =>
        Regroup("\"", AddEscaped(text), "\"");
        IsAtSplit(str, loc, "\"", AddEscaped(text) + "\"");
        IsAtOne(str, loc, '\"');
        StringEndOfEscaped(str, loc + 1, text);
        QuoteIsSkipped(str, loc);
    }
  }

  lemma IsAtChars(str: string, loc: nat, part: string)
    requires IsAt(str, loc, part)
    ensures loc + |part| <= |str| && forall i | loc <= i < loc + |part| :: str[i] == part[i - loc]
  {
  }

  lemma QuoteIsSkipped(str: string, loc: nat)
    requires loc < |str| && IsQuote(str[loc])
    ensures NestedEnd(str, loc, ']') == NestedEnd(str, QuoteEnd(str, loc) + 1, ']')
  {
    hide QuoteEnd;
  }

  predicate IsSkippable(c: char) { IsPlainChar(c) || c == ',' || c == ' ' }

  lemma {:induction false} PlainIsSkipped(str: string, loc: nat, n: nat)
    requires loc + n <= |str| && forall i | loc <= i < loc + n :: IsSkippable(str[i])
    ensures NestedEnd(str, loc, ']') == NestedEnd(str, loc + n, ']')
    decreases n
  {
    hide NestedEnd;
    if n > 0 {
      PlainIsPassed(str, loc);
      PlainIsSkipped(str, loc + 1, n - 1);
    }
  }

  lemma PlainIsPassed(str: string, loc: nat)
    requires loc < |str| && IsSkippable(str[loc])
    ensures NestedEnd(str, loc, ']') == NestedEnd(str, loc + 1, ']')
  {
    hide QuoteEnd;
  }

  lemma ClosesHere(str: string, loc: nat)
    requires loc < |str| && str[loc] == ']'
    ensures NestedEnd(str, loc, ']') == loc
  {
  }

  /** The bracket that ends a printed array is the one after its tokens. */
  lemma {:induction false} ArrayEnds(str: string, loc: nat, ts: seq<Token>)
    requires AllValid(ts) && ts != [] && IsAt(str, loc, JoinTokens(Rendered(ts)) + "]")
    ensures NestedEnd(str, loc, ']') == loc + |JoinTokens(Rendered(ts))|
    decreases |ts|
  {
    hide NestedEnd, IsAt, Token.Valid, Token.Render;
    var r := Rendered(ts);
    var t := r[0];
    if |ts| == 1 {
      IsAtSplit(str, loc, t, "]");
      TokenIsSkipped(str, loc, ts[0]);
      IsAtOne(str, loc + |t|, ']');
      ClosesHere(str, loc + |t|);
    } else {
      var rest := JoinTokens(r[1..]) + "]";
      assert r[1..] == Rendered(ts[1..]);
      JoinedParts(r);
      IsAtSplit(str, loc, t, ", " + rest);
      TokenIsSkipped(str, loc, ts[0]);
      IsAtSplit(str, loc + |t|, ", ", rest);
      CommaIsSkipped(str, loc + |t|);
      ArrayEnds(str, loc + |t| + 2, ts[1..]);
    }
  }

  lemma JoinedParts(r: seq<string>)
    requires |r| > 1
    ensures |JoinTokens(r)| == |r[0]| + 2 + |JoinTokens(r[1..])|
    ensures JoinTokens(r) + "]" == r[0] + (", " + (JoinTokens(r[1..]) + "]"))
  {
  }

  lemma CommaIsSkipped(str: string, loc: nat)
    requires IsAt(str, loc, ", ")
    ensures NestedEnd(str, loc, ']') == NestedEnd(str, loc + 2, ']')
  {
    assert str[loc..loc + 2][0] == str[loc] && str[loc..loc + 2][1] == str[loc + 1];
    PlainIsSkipped(str, loc, 2);
  }

  // ---- the round trip ----

  lemma OneToken(item: string, delimiter: char)
    requires item != "" && IsTrimmed(item) && TokenLength(item, delimiter) == |item|
    ensures SplitUp(item, delimiter) == [item]
  {
    hide TokenLength, Trim;
    TrimOfTrimmed(item);
    assert item[..|item|] == item;
    assert AfterToken(item, delimiter) == "";
    assert Tokens("", delimiter) == [];
  }

  lemma {:induction false} ArrayIsOneToken(ts: seq<Token>)
    requires AllValid(ts) && ts != []
    ensures var item := "[" + JoinTokens(Rendered(ts)) + "]"; WithoutComment(item) == item && IsTrimmed(item)
  {
    hide SplitUp, NestedEnd, Trim, JoinTokens;
    var item := "[" + JoinTokens(Rendered(ts)) + "]";
    assert item[1..] == JoinTokens(Rendered(ts)) + "]";
    ArrayEnds(item, 1, ts);
    OneToken(item, '#');
    TrimOfTrimmed(item);
  }

  lemma {:induction false} ValueIsOneToken(t: Token)
    requires t.Valid()
    ensures WithoutComment(t.Render()) == t.Render() && ItemTokens(t.Render()) == [t.Render()]
  {
    hide SplitUp, TokenLength, Trim, AddEscaped;
    var item := t.Render();
    TokenEnds(t);
    TokenIsTaken(t, "", ',');
    TokenIsTaken(t, "", '\0');
    TokenIsTaken(t, "", '#');
    assert item + "" == item;
    OneToken(item, ',');
    OneToken(item, '\0');
    OneToken(item, '#');
    TrimOfTrimmed(item);
  }

  // ---- one line ----

  lemma EscapedNoLineEnd(c: char)
    ensures '\n' !in Escaped(c)
  {
    assert ESCAPED_CHARS[2] == '\n';
    assert forall i | 0 <= i < 7 :: ESCAPED_CODES[i] != '\n';
  }

  lemma {:induction false} AddEscapedNoLineEnd(s: string)
    ensures '\n' !in AddEscaped(s)
  {
    hide Escaped;
    if s != "" {
      EscapedNoLineEnd(s[0]);
      AddEscapedNoLineEnd(s[1..]);
    }
  }

  lemma {:induction false} BodyNoLineEnd(s: string, afterBackslash: bool)
    ensures '\n' !in Unquoted(EscapedBody(s, afterBackslash))
    decreases |s|
  {
    hide HexDigit;
    if s != "" {
      UnquotedSplit(EscapedByte(s[0], afterBackslash), EscapedBody(s[1..], s[0] == '\\'));
      BodyNoLineEnd(s[1..], s[0] == '\\');
      ByteNoLineEnd(s[0], afterBackslash);
    }
  }

  lemma {:induction false} ByteNoLineEnd(c: char, afterBackslash: bool)
    ensures '\n' !in Unquoted(EscapedByte(c, afterBackslash))
  {
    if !IsPrint(c) || (IsX(c) && afterBackslash) {
      HexNoLineEnd(c as int, 2);
      UnquotedNoLineEnd(HexEscape(c));
    } else {
      UnquotedNoLineEnd([c]);
    }
  }

  lemma {:induction false} HexNoLineEnd(value: nat, n: nat)
    ensures '\n' !in HexDigits(value, n)
  {
    if n > 0 { HexNoLineEnd(value / 16, n - 1); }
  }

  lemma {:induction false} UnquotedNoLineEnd(s: string)
    requires '\n' !in s
    ensures '\n' !in Unquoted(s)
  {
    if s != "" { UnquotedNoLineEnd(s[1..]); }
  }

  lemma TokenNoLineEnd(arg: string, isNumber: Number)
    ensures '\n' !in TokenOf(arg, isNumber).Render()
  {
    hide AddEscaped, IsPlain, Unquoted, EscapedBody, IsPrintable;
    AddEscapedNoLineEnd(arg);
    AddEscapedNoLineEnd("");
    BodyNoLineEnd(arg, false);
    if arg != "" && IsPlain(arg, isNumber) { PlainIsToken(arg, isNumber); }
  }

  lemma {:induction false} JoinedNoLineEnd(tokens: seq<string>)
    requires forall i | 0 <= i < |tokens| :: '\n' !in tokens[i]
    ensures '\n' !in JoinTokens(tokens)
  {
    if tokens != [] { JoinedNoLineEnd(tokens[1..]); }
  }

  /** Lists that ini_join prints on one line. */
  predicate OnOneLine(args: seq<string>, isNumber: Number) {
    |args| == 1 ==> !NeedsMultiLine(args[0], isNumber)
  }

  lemma OneLineToken(t: Token)
    requires t.Valid()
    ensures !IsMultiLine(t.Render())
  {
    match t
    case PlainToken(text) =>
    case LiteralToken(body) =>
      assert t.Render()[0] == '\'';
      if body != "" { assert t.Render()[1] == body[0] && body[0] in body; }
    case StringToken(text) =>
      if text != "" {
        EscapedFirst(text[0]);
        assert t.Render()[1] == Escaped(text[0])[0];
      }
  }

  /** There is no comment, and an array ends on the line it starts on. */
  predicate EndsOnItsLine(item: string) {
    WithoutComment(item) == item && (|item| > 1 && item[0] == '[' ==> item[|item| - 1] == ']')
  }

  lemma {:induction false} JoinedIsTokens(args: seq<string>, isNumber: Number)
    requires args != [] && OnOneLine(args, isNumber) && forall i | 0 <= i < |args| :: IsBytes(args[i])
    ensures AllValid(TokensOf(args, isNumber))
    ensures ItemTokens(WithoutComment(Joined(args, isNumber))) == Rendered(TokensOf(args, isNumber))
    ensures !IsMultiLine(Joined(args, isNumber)) && '\n' !in Joined(args, isNumber) && IsTrimmed(Joined(args, isNumber))
    ensures EndsOnItsLine(Joined(args, isNumber)) && Joined(args, isNumber) != ""
  {
    hide ConvertArg, TokenOf, NeedsMultiLine, WithoutComment, Tokens, Trim, IsBytes, IsTrimmed;
    var ts := TokensOf(args, isNumber);
    forall i | 0 <= i < |args|
      ensures ts[i].Valid() && ConvertArg(args[i], |args| > 1, isNumber) == ts[i].Render() && '\n' !in ts[i].Render()
    {
      ConvertIsToken(args[i], |args| > 1, isNumber);
      TokenNoLineEnd(args[i], isNumber);
    }
    assert Converted(args, |args| > 1, isNumber) == Rendered(ts);
    JoinedNoLineEnd(Rendered(ts));
    var item := Joined(args, isNumber);
    if |args| == 1 {
      ValueIsOneToken(ts[0]);
      OneLineToken(ts[0]);
      TokenEnds(ts[0]);
      assert item == ts[0].Render() && Rendered(ts) == [item];
    } else {
      var j := JoinTokens(Rendered(ts));
      assert item == "[" + j + "]" && item[1..|item| - 1] == j;
      ArrayIsOneToken(ts);
      JoinedEnds(ts);
      TrimOfTrimmed(j);
      TokensOfJoined(ts);
    }
  }

  /** An empty list is printed as nothing, which reads back as one empty string. */
  lemma EmptyListIsLost(taking: Taking, isNumber: Number)
    ensures ReadValue(Joined([], isNumber), taking) == Ok([""])
  {
    OneResult("", taking);
    assert Ok([""]) == ReadTokens([""], taking) by {
      assert [""][1..] == [];
      assert [""] + [] == [""];
    }
  }

  /** A list of byte strings that is printed on one line comes back as it was, through split_up,
      process_quoted_string and _add_result, exactly when it is not empty and the option takes no
      argument apart, whatever counts as a number and however the option takes values. */
  lemma {:induction false} OneLineRoundTrip(args: seq<string>, taking: Taking, isNumber: Number)
    requires OnOneLine(args, isNumber) && forall i | 0 <= i < |args| :: IsBytes(args[i])
    ensures !IsMultiLine(Joined(args, isNumber)) && '\n' !in Joined(args, isNumber) && IsTrimmed(Joined(args, isNumber))
    ensures EndsOnItsLine(Joined(args, isNumber)) && (args != [] ==> Joined(args, isNumber) != "")
    ensures ReadValue(Joined(args, isNumber), taking) == Ok(args) <==> args != [] && AllUndivided(args, taking)
  {
    if args == [] {
      EmptyListIsLost(taking, isNumber);
    } else {
      hide Joined, OnOneLine, ReadTokens, IsBytes, IsMultiLine, AllUndivided;
      JoinedIsTokens(args, isNumber);
      ReadTokensBack(args, taking, isNumber);
    }
  }
}
