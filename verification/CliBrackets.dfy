/** Matching brackets and splitting at a delimiter: close_string_quote,
    close_literal_quote, close_sequence and split_up. */
module CliBrackets {
  import opened Text

  const BRACKET_CHARS: string := "\"'`[(<{"
  const MATCH_BRACKET_CHARS: string := "\"'`])>}"

  predicate IsQuote(c: char) { c == '\"' || c == '\'' || c == '`' }

  predicate IsOpening(c: char) { c == '[' || c == '(' || c == '<' || c == '{' }

  predicate IsClosing(c: char) { c == ']' || c == ')' || c == '>' || c == '}' }

  /** The character that ends what a bracket character starts. */
  function Closer(c: char): char
    requires IsQuote(c) || IsOpening(c)
  {
    if c == '[' then ']' else if c == '(' then ')' else if c == '<' then '>' else if c == '{' then '}' else c
  }

  lemma BracketTable(c: char)
    ensures var at := IndexOf(BRACKET_CHARS, c);
      && (at < 3 <==> IsQuote(c)) && (3 <= at < 7 <==> IsOpening(c))
      && (at < 7 ==> MATCH_BRACKET_CHARS[at] == Closer(c))
      && (at == 0 <==> c == '\"')
    ensures var at := IndexOf(MATCH_BRACKET_CHARS, c);
      && (at == 0 <==> c == '\"') && (3 <= at < 7 <==> IsClosing(c)) && (at < 3 <==> IsQuote(c))
  {
    hide IndexOf;
    var b, m := BRACKET_CHARS, MATCH_BRACKET_CHARS;
    assert b[0] == '\"' && b[1] == '\'' && b[2] == '`' && b[3] == '[' && b[4] == '(' && b[5] == '<' && b[6] == '{';
    assert m[0] == '\"' && m[1] == '\'' && m[2] == '`' && m[3] == ']' && m[4] == ')' && m[5] == '>' && m[6] == '}';
  }

  // ---- quotes ----

  /** The end of a string quote looked for from loc on; a backslash skips a character, so that
      the result can be one past the length. */
  function StringEnd(str: string, loc: nat, closer: char): (r: nat)
    requires loc <= |str| + 1
    ensures loc <= r <= |str| + 1
    ensures r < |str| ==> str[r] == closer
    decreases |str| + 1 - loc
  {
    if loc >= |str| || str[loc] == closer then loc
    else if str[loc] == '\\' then StringEnd(str, loc + 2, closer)
    else StringEnd(str, loc + 1, closer)
  }

  method CloseStringQuote(str: string, start: nat, closure_char: char) returns (loc: nat)
    requires start < |str|
    ensures loc == StringEnd(str, start + 1, closure_char)
  {
    loc := start + 1;
    while loc < |str|
      invariant loc <= |str| + 1
      invariant StringEnd(str, loc, closure_char) == StringEnd(str, start + 1, closure_char)
      decreases |str| - loc
    {
      if str[loc] == closure_char {
        break;
      }
      if str[loc] == '\\' {
        loc := loc + 1;
      }
      loc := loc + 1;
    }
  }

  /** The first closing character from loc on, or the length. */
  function LiteralEnd(str: string, loc: nat, closer: char): (r: nat)
    requires loc <= |str|
    ensures loc <= r <= |str|
    ensures r < |str| ==> str[r] == closer
  {
    loc + IndexOf(str[loc..], closer)
  }

  /** The end of the quote that starts at loc. */
  function QuoteEnd(str: string, loc: nat): (r: nat)
    requires loc < |str| && IsQuote(str[loc])
    ensures loc < r <= |str| + 1
  {
    if str[loc] == '\"' then StringEnd(str, loc + 1, '\"') else LiteralEnd(str, loc + 1, str[loc])
  }

  // ---- brackets ----

  /** Where the text between a bracket and its closer ends, as a nested reading: inside, quotes
      are read as one piece, and so is a bracket with all that belongs to it. */
  function NestedEnd(str: string, loc: nat, closer: char): (r: nat)
    ensures r <= |str|
    ensures loc <= |str| ==> loc <= r
    ensures r < |str| ==> str[r] == closer
    decreases |str| - loc
  {
    if loc >= |str| then |str|
    else if str[loc] == closer then loc
    else if IsQuote(str[loc]) then NestedEnd(str, QuoteEnd(str, loc) + 1, closer)
    else if IsOpening(str[loc]) then NestedEnd(str, NestedEnd(str, loc + 1, Closer(str[loc])) + 1, closer)
    else NestedEnd(str, loc + 1, closer)
  }

  /** Where the stack of pending closers empties: the innermost bracket ends first, then the one
      around it. */
  function StackEnd(str: string, loc: nat, closures: seq<char>): (r: nat)
    requires closures != []
    decreases |closures|
  {
    var e := NestedEnd(str, loc, closures[|closures| - 1]);
    if |closures| == 1 then e else StackEnd(str, e + 1, closures[..|closures| - 1])
  }

  lemma {:induction false} StackPastEnd(str: string, loc: nat, closures: seq<char>)
    requires closures != [] && loc >= |str|
    ensures StackEnd(str, loc, closures) == |str|
    decreases |closures|
  {
    if |closures| > 1 { StackPastEnd(str, |str| + 1, closures[..|closures| - 1]); }
  }

  /** What one round of the loop does to the position and the stack. */
  lemma StackStep(str: string, loc: nat, closures: seq<char>)
    requires closures != [] && loc < |str|
    requires forall i | 0 <= i < |closures| :: IsClosing(closures[i])
    ensures var c, top := str[loc], closures[|closures| - 1];
      StackEnd(str, loc, closures) ==
        if c == top then (if |closures| == 1 then loc else StackEnd(str, loc + 1, closures[..|closures| - 1]))
        else if IsQuote(c) then StackEnd(str, QuoteEnd(str, loc) + 1, closures)
        else if IsOpening(c) then StackEnd(str, loc + 1, closures + [Closer(c)])
        else StackEnd(str, loc + 1, closures)
  {
    hide StringEnd, LiteralEnd;
    var c := str[loc];
    if IsOpening(c) {
      var deeper := closures + [Closer(c)];
      assert deeper[..|deeper| - 1] == closures && deeper[|deeper| - 1] == Closer(c);
    }
  }

  /** close_sequence with a bracket: the loop over a stack of closers finds the end of the nested text. */
  method CloseBracket(str: string, start: nat, closure_char: char) returns (loc: nat)
    requires start < |str| && IsClosing(closure_char)
    ensures loc == NestedEnd(str, start + 1, closure_char)
  {
    hide NestedEnd, StackEnd, QuoteEnd, StringEnd, LiteralEnd, IndexOf;
    var closures: seq<char> := [closure_char];
    loc := start + 1;
    OneClosure(str, loc, closure_char);
    while loc < |str|
      invariant closures != [] && forall i | 0 <= i < |closures| :: IsClosing(closures[i])
      invariant StackEnd(str, loc, closures) == NestedEnd(str, start + 1, closure_char)
      decreases |str| - loc
    {
      var at := loc;
      var c := str[loc];
      StackStep(str, loc, closures);
      BracketTable(c);
      if c == closures[|closures| - 1] {
        closures := closures[..|closures| - 1];
        if closures == [] {
          return loc;
        }
      }
      var bracket_loc := IndexOf(BRACKET_CHARS, c);
      if bracket_loc < |BRACKET_CHARS| {
        if bracket_loc == 0 {
          loc := CloseStringQuote(str, loc, c);
          QuoteEndIs(str, at);
        } else if bracket_loc < 3 {
          loc := LiteralEnd(str, loc + 1, c);
          QuoteEndIs(str, at);
        } else {
          closures := closures + [MATCH_BRACKET_CHARS[bracket_loc]];
        }
      }
      loc := loc + 1;
    }
    StackPastEnd(str, loc, closures);
    if loc > |str| {
      loc := |str|;
    }
  }

  lemma OneClosure(str: string, loc: nat, closer: char)
    ensures StackEnd(str, loc, [closer]) == NestedEnd(str, loc, closer)
  {
  }

  lemma QuoteEndIs(str: string, loc: nat)
    requires loc < |str| && IsQuote(str[loc])
    ensures QuoteEnd(str, loc) ==
      if str[loc] == '\"' then StringEnd(str, loc + 1, '\"') else LiteralEnd(str, loc + 1, str[loc])
  {
  }

  /** The end of the sequence that starts at a position, for any closing character. */
  function SequenceEnd(str: string, start: nat, closer: char): nat
    requires start < |str|
  {
    if closer == '\"' then StringEnd(str, start + 1, closer)
    else if IsClosing(closer) then NestedEnd(str, start + 1, closer)
    else LiteralEnd(str, start + 1, closer)
  }

  method CloseSequence(str: string, start: nat, closure_char: char) returns (loc: nat)
    requires start < |str|
    ensures loc == SequenceEnd(str, start, closure_char)
  {
    BracketTable(closure_char);
    var bracket_loc := IndexOf(MATCH_BRACKET_CHARS, closure_char);
    if bracket_loc == 0 {
      loc := CloseStringQuote(str, start, closure_char);
    } else if bracket_loc < 3 || bracket_loc == |MATCH_BRACKET_CHARS| {
      loc := LiteralEnd(str, start + 1, closure_char);
    } else {
      loc := CloseBracket(str, start, closure_char);
    }
  }

  // ---- what stands behind the end makes no difference ----

  /** The end found in a text and the one found with something behind it are the same when one of them is in the
      text. */
  predicate Stays(e: nat, all: nat, length: nat) { e < length || all < length ==> all == e }

  lemma {:induction false} StringEndStays(str: string, loc: nat, closer: char, rest: string)
    requires loc <= |str| + 1
    ensures Stays(StringEnd(str, loc, closer), StringEnd(str + rest, loc, closer), |str|)
    decreases |str| + 1 - loc
  {
    if loc < |str| && str[loc] != closer {
      StringEndStays(str, if str[loc] == '\\' then loc + 2 else loc + 1, closer, rest);
    }
  }

  lemma LiteralEndStays(str: string, loc: nat, closer: char, rest: string)
    requires loc <= |str|
    ensures Stays(LiteralEnd(str, loc, closer), LiteralEnd(str + rest, loc, closer), |str|)
  {
    hide IndexOf;
    forall i | 0 <= i < |str| - loc ensures (str + rest)[loc..][i] == str[loc..][i] { }
  }

  lemma QuoteEndStays(str: string, loc: nat, rest: string)
    requires loc < |str| && IsQuote(str[loc])
    ensures Stays(QuoteEnd(str, loc), QuoteEnd(str + rest, loc), |str|)
  {
    hide StringEnd, LiteralEnd;
    if str[loc] == '\"' {
      StringEndStays(str, loc + 1, '\"', rest);
    } else {
      LiteralEndStays(str, loc + 1, str[loc], rest);
    }
  }

  lemma {:induction false} NestedEndStays(str: string, loc: nat, closer: char, rest: string)
    ensures Stays(NestedEnd(str, loc, closer), NestedEnd(str + rest, loc, closer), |str|)
    decreases |str| - loc
  {
    hide QuoteEnd, NestedEnd, IsQuote, IsOpening, Closer, Stays;
    NestedStep(str, loc, closer);
    NestedStep(str + rest, loc, closer);
    PastEndStays(str, loc, closer, rest);
    if loc < |str| && str[loc] != closer {
      assert (str + rest)[loc] == str[loc];
      if IsQuote(str[loc]) {
        QuoteEndStays(str, loc, rest);
        NestedEndStays(str, QuoteEnd(str, loc) + 1, closer, rest);
        BehindStays(str, QuoteEnd(str, loc), QuoteEnd(str + rest, loc), closer, rest);
      } else if IsOpening(str[loc]) {
        var n, m := NestedEnd(str, loc + 1, Closer(str[loc])), NestedEnd(str + rest, loc + 1, Closer(str[loc]));
        NestedEndStays(str, loc + 1, Closer(str[loc]), rest);
        NestedEndStays(str, n + 1, closer, rest);
        BehindStays(str, n, m, closer, rest);
      } else {
        NestedEndStays(str, loc + 1, closer, rest);
      }
    }
  }

  lemma NestedStep(str: string, loc: nat, closer: char)
    ensures NestedEnd(str, loc, closer) ==
      if loc >= |str| then |str|
      else if str[loc] == closer then loc
      else if IsQuote(str[loc]) then NestedEnd(str, QuoteEnd(str, loc) + 1, closer)
      else if IsOpening(str[loc]) then NestedEnd(str, NestedEnd(str, loc + 1, Closer(str[loc])) + 1, closer)
      else NestedEnd(str, loc + 1, closer)
  {
    hide QuoteEnd;
  }

  lemma PastEndStays(str: string, loc: nat, closer: char, rest: string)
    ensures loc >= |str| || str[loc] == closer ==>
      Stays(NestedEnd(str, loc, closer), NestedEnd(str + rest, loc, closer), |str|)
  {
    hide QuoteEnd;
  }

  lemma BehindStays(str: string, n: nat, m: nat, closer: char, rest: string)
    requires Stays(n, m, |str|) && Stays(NestedEnd(str, n + 1, closer), NestedEnd(str + rest, n + 1, closer), |str|)
    ensures Stays(NestedEnd(str, n + 1, closer), NestedEnd(str + rest, m + 1, closer), |str|)
  {
    hide QuoteEnd;
  }

  /** Where a quote or bracket ends does not depend on what stands behind it. */
  lemma SequenceEndStays(str: string, start: nat, closer: char, rest: string)
    requires start < |str|
    ensures Stays(SequenceEnd(str, start, closer), SequenceEnd(str + rest, start, closer), |str|)
  {
    hide StringEnd, LiteralEnd, NestedEnd;
    if closer == '\"' {
      StringEndStays(str, start + 1, closer, rest);
    } else if IsClosing(closer) {
      NestedEndStays(str, start + 1, closer, rest);
    } else {
      LiteralEndStays(str, start + 1, closer, rest);
    }
  }

  // ---- split_up ----

  /** What separates two tokens: the delimiter, or any whitespace for the delimiter NUL. */
  predicate Separates(c: char, delimiter: char) {
    if delimiter == '\0' then IsSpace(c) else c == delimiter
  }

  /** The first separator, or the length. */
  function FirstSeparator(s: string, delimiter: char): (r: nat)
    ensures r <= |s|
    ensures forall i | 0 <= i < r :: !Separates(s[i], delimiter)
    ensures r < |s| ==> Separates(s[r], delimiter)
  {
    if s == "" || Separates(s[0], delimiter) then 0 else 1 + FirstSeparator(s[1..], delimiter)
  }

  predicate IsBracket(c: char) { IsQuote(c) || IsOpening(c) }

  /** The length of the token at the front of a text. */
  function TokenLength(str: string, delimiter: char): (n: nat)
    requires str != ""
    ensures n <= |str|
  {
    if IsBracket(str[0]) then
      var end := SequenceEnd(str, 0, Closer(str[0]));
      if end >= |str| then |str| else end + 1
    else FirstSeparator(str, delimiter)
  }

  /** What is left after the token and the one character behind it, which is dropped whatever it is. */
  function AfterToken(str: string, delimiter: char): (rest: string)
    requires str != ""
    ensures |rest| + TokenLength(str, delimiter) <= |str|
    ensures |rest| < |str|
  {
    var n := TokenLength(str, delimiter);
    if n + 1 < |str| then Trim(str[n + 1..]) else ""
  }

  function Tokens(str: string, delimiter: char): seq<string>
    decreases |str|
  {
    if str == "" then [] else [str[..TokenLength(str, delimiter)]] + Tokens(AfterToken(str, delimiter), delimiter)
  }

  function SplitUp(str: string, delimiter: char): seq<string> { Tokens(Trim(str), delimiter) }

  method SplitUpText(text: string, delimiter: char) returns (output: seq<string>)
    ensures output == SplitUp(text, delimiter)
  {
    hide SequenceEnd, Trim, IndexOf;
    var str := Trim(text);
    output := [];
    while str != ""
      invariant output + Tokens(str, delimiter) == SplitUp(text, delimiter)
      decreases |str|
    {
      var token, rest := OneToken(str, delimiter);
      ghost var more := Tokens(rest, delimiter);
      assert output + ([token] + more) == output + [token] + more;
      output := output + [token];
      str := rest;
    }
  }

  /** The loop body: one token and the trimmed rest. */
  method OneToken(str: string, delimiter: char) returns (token: string, rest: string)
    requires str != ""
    ensures token == str[..TokenLength(str, delimiter)] && rest == AfterToken(str, delimiter)
    ensures |rest| < |str|
  {
    hide SequenceEnd, Trim, IndexOf;
    BracketTable(str[0]);
    var bracketLoc := IndexOf(BRACKET_CHARS, str[0]);
    if bracketLoc < |BRACKET_CHARS| {
      var end := CloseSequence(str, 0, MATCH_BRACKET_CHARS[bracketLoc]);
      if end >= |str| {
        token, rest := str, "";
      } else {
        token := str[..end + 1];
        rest := if end + 2 < |str| then str[end + 2..] else "";
      }
    } else {
      var it := FirstSeparator(str, delimiter);
      if it < |str| {
        token, rest := str[..it], str[it + 1..];
      } else {
        token, rest := str, "";
      }
    }
    TrimNothing();
    rest := Trim(rest);
  }

  lemma TrimNothing()
    ensures Trim("") == ""
  {
  }

  function TotalLength(tokens: seq<string>): nat {
    if tokens == [] then 0 else |tokens[0]| + TotalLength(tokens[1..])
  }

  lemma TotalStep(token: string, more: seq<string>)
    ensures TotalLength([token] + more) == |token| + TotalLength(more)
  {
    assert ([token] + more)[1..] == more;
  }

  lemma {:induction false} TotalOfBoth(a: seq<string>, b: seq<string>)
    ensures TotalLength(a + b) == TotalLength(a) + TotalLength(b)
    decreases |a|
  {
    hide TotalLength;
    if a == [] {
      assert a + b == b;
      NoTotal();
    } else {
      assert a == [a[0]] + a[1..] && a + b == [a[0]] + (a[1..] + b);
      TotalStep(a[0], a[1..]);
      TotalStep(a[0], a[1..] + b);
      TotalOfBoth(a[1..], b);
    }
  }

  lemma NoTotal()
    ensures TotalLength([]) == 0
  {
  }

  lemma OneTotal(token: string)
    ensures TotalLength([token]) == |token|
  {
    assert [token][1..] == [];
  }

  /** The tokens of a text never hold more than the text: together with one dropped character
      between two of them they fit into it. */
  lemma {:induction false} TokensFit(str: string, delimiter: char)
    requires str != ""
    ensures TotalLength(Tokens(str, delimiter)) + |Tokens(str, delimiter)| - 1 <= |str|
    ensures forall i | 0 <= i < |Tokens(str, delimiter)| :: |Tokens(str, delimiter)[i]| <= |str|
    decreases |str|
  {
    hide TokenLength, Trim;
    var n, rest := TokenLength(str, delimiter), AfterToken(str, delimiter);
    var more := Tokens(rest, delimiter);
    assert ([str[..n]] + more)[1..] == more;
    RestIsShorter(str, delimiter);
    if rest != "" { TokensFit(rest, delimiter); }
  }

  lemma RestIsShorter(str: string, delimiter: char)
    requires str != ""
    ensures var rest := AfterToken(str, delimiter); rest != "" ==> TokenLength(str, delimiter) + 1 + |rest| <= |str|
  {
    hide TokenLength;
  }

  lemma {:induction false} SplitUpFits(str: string, delimiter: char)
    ensures forall i | 0 <= i < |SplitUp(str, delimiter)| :: |SplitUp(str, delimiter)[i]| <= |str|
  {
    hide Trim, TokenLength;
    if Trim(str) != "" { TokensFit(Trim(str), delimiter); }
  }
}
