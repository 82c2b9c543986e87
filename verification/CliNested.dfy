/** Bracketed texts as trees, and the bracket that close_sequence finds in them. */
module CliNested {
  import opened Text
  import opened CliBrackets

  /** A text of single characters, quoted pieces and bracketed pieces. */
  datatype Tree =
    | Nothing
    | Char(c: char, rest: Tree)
    | Quoted(quote: char, body: string, rest: Tree)
    | Group(open: char, inner: Tree, rest: Tree)
  {
    /** Inside a bracket with this closer: no other character opens or closes anything. A quote ends at its next
        occurrence, one that a backslash stands before being passed over between double quotes. */
    ghost predicate Inside(closer: char)
      decreases this
    {
      match this
      case Nothing => true
      case Char(c, rest) => c != closer && !IsQuote(c) && !IsOpening(c) && rest.Inside(closer)
      case Quoted(quote, body, rest) =>
        && IsQuote(quote) && rest.Inside(closer)
        && if quote == '\"' then IsStringBody(body) else quote !in body
      case Group(open, inner, rest) => IsOpening(open) && inner.Inside(Closer(open)) && rest.Inside(closer)
    }

    function Text(): string
      decreases this
    {
      match this
      case Nothing => ""
      case Char(c, rest) => [c] + rest.Text()
      case Quoted(quote, body, rest) => [quote] + body + [quote] + rest.Text()
      case Group(open, inner, rest) =>
        [open] + inner.Text() + [if IsOpening(open) then Closer(open) else open] + rest.Text()
    }
  }

  /** Between double quotes a backslash takes the next character along. */
  predicate IsStringBody(s: string) {
    s == "" || (if s[0] == '\\' then |s| >= 2 && IsStringBody(s[2..]) else s[0] != '\"' && IsStringBody(s[1..]))
  }

  lemma {:induction false} StringCloses(s: string, at: nat, body: string)
    requires IsStringBody(body) && IsAt(s, at, body + "\"")
    ensures StringEnd(s, at, '\"') == at + |body|
    decreases |body|
  {
    IsAtSplit(s, at, body, "\"");
    IsAtOne(s, at + |body|, '\"');
    if body != "" {
      assert s[at] == body[0] by { assert s[at..at + |body|][0] == s[at]; }
      var n := if body[0] == '\\' then 2 else 1;
      assert body + "\"" == body[..n] + (body[n..] + "\"");
      IsAtSplit(s, at, body[..n], body[n..] + "\"");
      StringCloses(s, at + n, body[n..]);
    }
  }

  lemma LiteralCloses(s: string, at: nat, body: string, quote: char)
    requires quote !in body && IsAt(s, at, body + [quote])
    ensures LiteralEnd(s, at, quote) == at + |body|
  {
    hide IndexOf;
    IsAtSplit(s, at, body, [quote]);
    IsAtOne(s, at + |body|, quote);
    var tail := s[at..];
    assert forall i | 0 <= i < |body| :: tail[i] == s[at..at + |body|][i] == body[i];
    assert tail[|body|] == s[at + |body|];
  }

  lemma QuoteCloses(s: string, at: nat, quote: char, body: string)
    requires IsQuote(quote) && (if quote == '\"' then IsStringBody(body) else quote !in body)
    requires IsAt(s, at, [quote] + body + [quote])
    ensures at < |s| && s[at] == quote && QuoteEnd(s, at) == at + 1 + |body|
  {
    hide StringEnd, LiteralEnd, IsStringBody, IsAt;
    Regroup([quote], body, [quote]);
    IsAtSplit(s, at, [quote], body + [quote]);
    IsAtOne(s, at, quote);
    if quote == '\"' { StringCloses(s, at + 1, body); } else { LiteralCloses(s, at + 1, body, quote); }
  }

  lemma NestedOne(s: string, at: nat, closer: char)
    ensures NestedEnd(s, at, closer) ==
      if at >= |s| then |s|
      else if s[at] == closer then at
      else if IsQuote(s[at]) then NestedEnd(s, QuoteEnd(s, at) + 1, closer)
      else if IsOpening(s[at]) then NestedEnd(s, NestedEnd(s, at + 1, Closer(s[at])) + 1, closer)
      else NestedEnd(s, at + 1, closer)
  {
    hide QuoteEnd;
  }

  /** A tree is passed over as a whole: the first closer behind it is the one that counts. */
  lemma {:induction false} TreeIsPassed(s: string, at: nat, t: Tree, closer: char)
    requires IsClosing(closer) && t.Inside(closer) && IsAt(s, at, t.Text())
    ensures NestedEnd(s, at, closer) == NestedEnd(s, at + |t.Text()|, closer)
    decreases t, 0
  {
    hide NestedEnd, IsAt, IsStringBody, QuoteEnd;
    NestedOne(s, at, closer);
    match t {
      case Nothing =>
      case Char(c, rest) =>
        IsAtSplit(s, at, [c], rest.Text());
        IsAtOne(s, at, c);
        TreeIsPassed(s, at + 1, rest, closer);
      case Quoted(quote, body, rest) =>
        IsAtSplit(s, at, [quote] + body + [quote], rest.Text());
        QuoteCloses(s, at, quote, body);
        TreeIsPassed(s, at + |body| + 2, rest, closer);
      case Group(open, inner, rest) =>
        var end := Closer(open);
        var all := inner.Text() + [end];
        GroupText(open, inner, rest);
        IsAtSplit(s, at, [open], all + rest.Text());
        IsAtSplit(s, at + 1, all, rest.Text());
        IsAtOne(s, at, open);
        GroupCloses(s, at + 1, inner, end);
        TreeIsPassed(s, at + |inner.Text()| + 2, rest, closer);
    }
  }

  lemma GroupText(open: char, inner: Tree, rest: Tree)
    requires IsOpening(open)
    ensures Group(open, inner, rest).Text() == [open] + (inner.Text() + [Closer(open)] + rest.Text())
    ensures IsClosing(Closer(open)) && !IsQuote(open)
  {
  }

  lemma {:induction false} GroupCloses(s: string, at: nat, inner: Tree, end: char)
    requires IsClosing(end) && inner.Inside(end) && IsAt(s, at, inner.Text() + [end])
    ensures NestedEnd(s, at, end) == at + |inner.Text()|
    decreases inner, 1
  {
    hide NestedEnd, IsAt;
    IsAtSplit(s, at, inner.Text(), [end]);
    IsAtOne(s, at + |inner.Text()|, end);
    TreeIsPassed(s, at, inner, end);
    NestedOne(s, at + |inner.Text()|, end);
  }

  /** In every text the bracket that ends a well-formed piece is found, however deep brackets and quotes are nested in
      it and whatever stands around it. */
  lemma BracketIsFound(before: string, open: char, inner: Tree, after: string)
    requires IsOpening(open) && inner.Inside(Closer(open))
    ensures var s := before + [open] + inner.Text() + [Closer(open)] + after;
      SequenceEnd(s, |before|, Closer(open)) == |before| + 1 + |inner.Text()|
  {
    hide NestedEnd;
    var s := before + [open] + inner.Text() + [Closer(open)] + after;
    assert s[|before| + 1..|before| + 2 + |inner.Text()|] == inner.Text() + [Closer(open)];
    GroupCloses(s, |before| + 1, inner, Closer(open));
  }

  /** A bracket that is never closed reaches to the end. */
  lemma OpenBracketReachesEnd(before: string, open: char, inner: Tree)
    requires IsOpening(open) && inner.Inside(Closer(open))
    ensures var s := before + [open] + inner.Text(); SequenceEnd(s, |before|, Closer(open)) == |s|
  {
    hide NestedEnd;
    var s := before + [open] + inner.Text();
    assert s[|before| + 1..|before| + 1 + |inner.Text()|] == inner.Text();
    TreeIsPassed(s, |before| + 1, inner, Closer(open));
    NestedOne(s, |s|, Closer(open));
  }
}
