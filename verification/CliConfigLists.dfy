/** Lists in a config file that ini_join does not print: without brackets, and over several lines. */
module CliConfigLists {
  import opened Text
  import opened Results
  import opened CliEscape
  import opened CliBinary
  import opened CliBrackets
  import opened CliConfigValue
  import opened CliConfigRoundTrip
  import opened CliConfigLines
  import opened CliConfigEntry
  import opened CliConfigNotes

  // ---- tokens with any separator between them ----

  function Strung(tokens: seq<string>, separator: string): string {
    if tokens == [] then "" else if |tokens| == 1 then tokens[0]
    else tokens[0] + (separator + Strung(tokens[1..], separator))
  }

  predicate IsSeparator(separator: string, delimiter: char) {
    IsSplitter(delimiter) && separator != "" && Separates(separator[0], delimiter) && AllSpace(separator[1..])
  }

  lemma {:induction false} StrungEnds(ts: seq<Token>, separator: string)
    requires ts != [] && AllValid(ts)
    ensures var s := Strung(Rendered(ts), separator);
      s != "" && IsTrimmed(s) && s[0] == ts[0].Render()[0]
        && s[|s| - 1] == ts[|ts| - 1].Render()[|ts[|ts| - 1].Render()| - 1]
    decreases |ts|
  {
    hide Token.Render;
    TokenEnds(ts[0]);
    TokenEnds(ts[|ts| - 1]);
    if |ts| > 1 {
      StrungEnds(ts[1..], separator);
      assert Rendered(ts)[1..] == Rendered(ts[1..]);
    }
  }

  /** split_up finds the tokens again. */
  lemma {:induction false} TokensOfStrung(ts: seq<Token>, separator: string, delimiter: char)
    requires ts != [] && AllValid(ts) && IsSeparator(separator, delimiter)
    ensures Tokens(Strung(Rendered(ts), separator), delimiter) == Rendered(ts)
    decreases |ts|
  {
    hide TokenLength, Trim, Token.Render, Token.Valid, AfterToken;
    var t, j := ts[0].Render(), Strung(Rendered(ts), separator);
    if |ts| == 1 {
      TokenIsTaken(ts[0], "", delimiter);
      assert t + "" == t;
      CliConfigRoundTrip.OneToken(t, delimiter) by { TokenEnds(ts[0]); }
      TrimOfTrimmed(t) by { TokenEnds(ts[0]); }
    } else {
      var rest := Strung(Rendered(ts[1..]), separator);
      assert Rendered(ts)[1..] == Rendered(ts[1..]);
      TokenIsTaken(ts[0], separator + rest, delimiter);
      StrungEnds(ts[1..], separator);
      AfterFirst(t, separator, rest, delimiter);
      TokensOfStrung(ts[1..], separator, delimiter);
    }
  }

  lemma AfterFirst(t: string, separator: string, rest: string, delimiter: char)
    requires t != "" && separator != "" && AllSpace(separator[1..]) && rest != "" && IsTrimmed(rest)
    requires TokenLength(t + (separator + rest), delimiter) == |t|
    ensures var j := t + (separator + rest); j[..|t|] == t && AfterToken(j, delimiter) == rest
  {
    hide TokenLength, Trim;
    var j := t + (separator + rest);
    assert j[|t| + 1..] == separator[1..] + rest + "";
    TrimUnique(separator[1..], rest, "");
  }

  // ---- lists without brackets ----

  /** A list without brackets is read as the tokens that are in it: at commas when there is one, and at blanks when
      there is a space and no comma. */
  lemma {:induction false} BareTokens(ts: seq<Token>, separator: string)
    requires |ts| > 1 && AllValid(ts)
    requires
      var item := Strung(Rendered(ts), separator);
      IsSeparator(separator, ',') || (IsSeparator(separator, '\0') && separator[0] == ' ' && ',' !in item)
    ensures ItemTokens(Strung(Rendered(ts), separator)) == Rendered(ts)
  {
    hide Trim, Tokens, Token.Render, Token.Valid;
    var item := Strung(Rendered(ts), separator);
    StrungEnds(ts, separator);
    NoBracketFirst(ts[0]);
    TrimOfTrimmed(item);
    SeparatorIsIn(Rendered(ts), separator);
    TokensOfStrung(ts, separator, if separator[0] == ',' then ',' else '\0');
  }

  lemma NoBracketFirst(t: Token)
    requires t.Valid()
    ensures t.Render() != "" && t.Render()[0] != '['
  {
    hide AddEscaped;
  }

  lemma SeparatorIsIn(tokens: seq<string>, separator: string)
    requires |tokens| > 1 && separator != ""
    ensures separator[0] in Strung(tokens, separator)
  {
    var rest := Strung(tokens[1..], separator);
    assert Strung(tokens, separator)[|tokens[0]|] == separator[0];
  }

  lemma FirstIsShort(ts: seq<Token>, separator: string, delimiter: char)
    requires |ts| > 1 && AllValid(ts) && IsSeparator(separator, delimiter)
    ensures var item := Strung(Rendered(ts), separator);
      item != "" && ('#' in item ==> TokenLength(item, '#') < |item|)
  {
    hide SequenceEnd, Token.Render, Token.Valid, FirstSeparator;
    var item, t := Strung(Rendered(ts), separator), ts[0].Render();
    var rest := separator + Strung(Rendered(ts)[1..], separator);
    assert item == t + rest && rest[0] == separator[0];
    TokenIsTaken(ts[0], rest, delimiter);
    if '#' in item && !IsBracket(item[0]) {
      var i :| 0 <= i < |item| && item[i] == '#';
    }
  }

  /** A comment sign in the line leaves the list as it is exactly when it holds none itself, not even in quotes. */
  lemma {:induction false} BareListStays(ts: seq<Token>, separator: string)
    requires |ts| > 1 && AllValid(ts) && (IsSeparator(separator, ',') || IsSeparator(separator, '\0'))
    ensures var item := Strung(Rendered(ts), separator); WithoutComment(item) == item <==> '#' !in item
  {
    hide Trim, TokenLength, Token.Render, Token.Valid;
    var item := Strung(Rendered(ts), separator);
    var n := TokenLength(item, '#');
    StrungEnds(ts, separator);
    TrimOfTrimmed(item);
    if '#' in item {
      assert SplitUp(item, '#')[0] == item[..n];
      FirstIsShort(ts, separator, if IsSeparator(separator, ',') then ',' else '\0');
    }
  }

  /** The items of a value that is no text in triple quotes, behind a head. */
  lemma PlainItems(head: string, before: string, item: string, comment: bool, more: seq<string>)
    requires IsHead(head) && AllSpace(before) && IsTrimmed(item) && !IsMultiLine(item)
    ensures |head| - 1 < |Trim(head + (before + item))|
    ensures ItemsOfValue(head + (before + item), |head| - 1, comment, more) ==
      var kept := if comment then WithoutComment(item) else item;
      Ok(ItemTokens(if |kept| > 1 && kept[0] == '[' then ArrayText(kept, more) else kept))
  {
    hide Trim, QuotedText, IsMultiLine, WithoutComment, ItemTokens, ArrayText, Rtrim;
    HeadTrims(head, before + item);
    TrimUnique(before, item, "");
    assert before + item + "" == before + item;
  }

  /** Two values with the same items are read as the same entry. */
  lemma SameItems(name: string, around: string, before: string, a: string, more: seq<string>, b: string,
    after: seq<string>, taking: Taking)
    requires ValidName(name) && AllSpace(around) && AllSpace(before)
    requires
      var head := CleanName(name) + around + "=";
      && |head| - 1 < |Trim(head + (before + a))| && |head| - 1 < |Trim(head + (before + b))|
      && ItemsOfValue(head + (before + a), |head| - 1, '#' in a, more) ==
           ItemsOfValue(head + (before + b), |head| - 1, '#' in b, after)
    ensures var head := CleanName(name) + around + "=";
      ReadEntry(head + (before + a), more, taking) == ReadEntry(head + (before + b), after, taking)
  {
    hide ValidName, CleanName, DelimiterAt, CommentAt, ReadTokens, ItemsOfValue, ProcessQuoted, Trim, NameParts, Rtrim;
    var head, n := CleanName(name) + around + "=", |CleanName(name) + around|;
    NoSignInBlanks(before, a);
    NoSignInBlanks(before, b);
    LineFound(name, around, before + a, '#' in a);
    LineFound(name, around, before + b, '#' in b);
    EntryFound(head + (before + a), more, taking, n, '#' in a);
    EntryFound(head + (before + b), after, taking, n, '#' in b);
  }

  lemma NoSignInBlanks(before: string, v: string)
    requires AllSpace(before)
    ensures '#' in before + v <==> '#' in v
  {
    assert forall c | c in before :: IsSpace(c);
  }

  /** A list without brackets and comment signs is read as the list that is printed with brackets. */
  lemma {:induction false} BareListAsPrinted(name: string, around: string, before: string, args: seq<string>,
    separator: string, more: seq<string>, after: seq<string>, taking: Taking, isNumber: Number)
    requires ValidName(name) && AllSpace(around) && AllSpace(before)
    requires |args| > 1 && forall i | 0 <= i < |args| :: IsBytes(args[i])
    requires
      var item := Strung(Rendered(TokensOf(args, isNumber)), separator);
      && '#' !in item
      && (IsSeparator(separator, ',') || (IsSeparator(separator, '\0') && separator[0] == ' ' && ',' !in item))
    ensures var head := CleanName(name) + around + "=";
      ReadEntry(head + (before + Strung(Rendered(TokensOf(args, isNumber)), separator)), more, taking) ==
        ReadEntry(head + (before + Joined(args, isNumber)), after, taking)
  {
    hide ValidName, CleanName, ReadEntry, ItemTokens, WithoutComment, ArrayText, Joined, ItemsOfValue, IsBytes, TokenOf;
    hide Token.Valid, Token.Render, IsMultiLine, IsTrimmed, Trim, IsSeparator;
    var ts := TokensOf(args, isNumber);
    var head, item, printed := CleanName(name) + around + "=", Strung(Rendered(ts), separator), Joined(args, isNumber);
    JoinedIsTokens(args, isNumber);
    ArrayIsWhole(printed, after);
    NameBehindBlanks(name, around);
    StrungEnds(ts, separator);
    NoBracketFirst(ts[0]);
    BareTokens(ts, separator);
    StrungOnOneLine(ts, separator);
    PlainItems(head, before, item, false, more);
    PlainItems(head, before, printed, '#' in printed, after);
    SameItems(name, around, before, item, more, printed, after, taking);
  }

  lemma StrungOnOneLine(ts: seq<Token>, separator: string)
    requires |ts| > 1 && AllValid(ts) && (IsSeparator(separator, ',') || IsSeparator(separator, '\0'))
    ensures !IsMultiLine(Strung(Rendered(ts), separator))
  {
    hide IsMultiLine, Token.Render, Token.Valid;
    OneLineToken(ts[0]);
    NotMultiLine(ts[0].Render(), separator + Strung(Rendered(ts)[1..], separator));
  }

  // ---- arrays over several lines ----

  /** What is read on from the lines behind the first. */
  function Glued(lines: seq<string>): string { if lines == [] then "" else Trim(lines[0]) + Glued(lines[1..]) }

  predicate Closes(line: string) { var l := Trim(line); l != "" && l[|l| - 1] == ']' }

  /** Lines of which the last is the first that ends in ']'. */
  predicate CloseAtEnd(lines: seq<string>) {
    lines != [] && forall i | 0 <= i < |lines| :: Closes(lines[i]) <==> i == |lines| - 1
  }

  lemma {:induction false} GluedText(item: string, lines: seq<string>, after: seq<string>)
    requires item != "" && item[|item| - 1] != ']' && CloseAtEnd(lines)
    ensures ArrayText(item, lines + after) == item + Glued(lines)
    ensures Glued(lines) != "" && Glued(lines)[|Glued(lines)| - 1] == ']'
    decreases |lines|
  {
    hide Trim;
    var next, rest := item + Trim(lines[0]), lines[1..];
    assert (lines + after)[0] == lines[0] && (lines + after)[1..] == rest + after;
    assert Closes(lines[0]) <==> |lines| == 1;
    if |lines| == 1 {
      assert Glued(rest) == "";
      assert Glued(lines) == Trim(lines[0]);
    } else {
      forall i | 0 <= i < |rest| ensures Closes(rest[i]) <==> i == |rest| - 1 { assert rest[i] == lines[i + 1]; }
      GluedText(next, rest, after);
      Regroup(item, Trim(lines[0]), Glued(rest));
    }
  }

  /** An array over several lines is read as the same array on one line. */
  lemma {:induction false} ArrayOverLines(name: string, around: string, before: string, item: string,
    lines: seq<string>, after: seq<string>, more: seq<string>, taking: Taking)
    requires ValidName(name) && AllSpace(around) && AllSpace(before)
    requires |item| > 1 && item[0] == '[' && IsTrimmed(item) && item[|item| - 1] != ']'
    requires CloseAtEnd(lines) && '#' !in item + Glued(lines)
    ensures var head := CleanName(name) + around + "=";
      ReadEntry(head + (before + item), lines + after, taking) ==
        ReadEntry(head + (before + (item + Glued(lines))), more, taking)
  {
    hide ValidName, CleanName, ReadEntry, ItemTokens, WithoutComment, ItemsOfValue, CloseAtEnd, Trim;
    var head, whole := CleanName(name) + around + "=", item + Glued(lines);
    NameBehindBlanks(name, around);
    GluedText(item, lines, after);
    assert whole[0] == '[' && whole[|whole| - 1] == ']' && ArrayText(whole, more) == whole;
    assert forall i | 0 <= i < |item| :: item[i] == whole[i];
    BracketOnOneLine(item);
    BracketOnOneLine(whole);
    PlainItems(head, before, item, false, lines + after);
    PlainItems(head, before, whole, false, more);
    SameItems(name, around, before, item, lines + after, whole, more, taking);
  }

  lemma BracketOnOneLine(item: string)
    requires item != "" && item[0] == '['
    ensures !IsMultiLine(item)
  {
  }

  /** But an opening bracket alone on its line is read as a text, and the lines behind it count for themselves. */
  lemma BracketAloneIsText(name: string, more: seq<string>)
    requires ValidName(name) && NameComesBack(name)
    ensures ReadEntry(CleanName(name) + "=[", more, Taking(true, '\0')) == Ok(Entry([], name, ["["]))
  {
    hide ValidName, CleanName, NameComesBack, DelimiterAt, CommentAt, ReadTokens, ItemsOfValue, ProcessQuoted, Trim;
    hide NameParts, Rtrim;
    var head, taking := CleanName(name) + "=", Taking(true, '\0');
    assert CleanName(name) + "" + "=" == head && head + ("" + "[") == CleanName(name) + "=[" && "" + "[" == "[";
    NameBehindBlanks(name, "");
    NameRead(name);
    LineFound(name, "", "[", false);
    PlainItems(head, "", "[", false, more);
    EntryFound(head + "[", more, taking, |head| - 1, false);
    assert Trim(head + "[")[..|head| - 1] == CleanName(name);
    BracketItem();
  }

  lemma BracketItem()
    ensures ItemTokens("[") == ["["] && ReadTokens(["["], Taking(true, '\0')) == Ok(["["])
  {
    assert ["["][1..] == [] && ["["] + [] == ["["];
  }
}
