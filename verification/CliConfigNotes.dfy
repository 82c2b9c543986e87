/** Comments behind values in a config file, flags without values, lists without brackets, and arrays over several
    lines. */
module CliConfigNotes {
  import opened Text
  import opened Results
  import opened CliEscape
  import opened CliBrackets
  import opened CliConfigValue
  import opened CliConfigRoundTrip
  import opened CliConfigLines
  import opened CliConfigEntry
  import Sections = CliSections

  // ---- a comment is cut off ----

  /** A value that starts with no quote or bracket and holds no comment sign, or one that ends where its quote or
      bracket closes. */
  predicate IsPiece(v: string) {
    if v == "" || !IsBracket(v[0]) then '#' !in v else SequenceEnd(v, 0, Closer(v[0])) == |v| - 1
  }

  /** What is dropped behind a piece: a comment with blanks in front of it, or, behind a quote or bracket that is
      closed, anything with a comment sign in it. */
  predicate IsTail(v: string, rest: string) {
    && '#' in rest && !IsQuote(rest[0])
    && ((v != "" && IsBracket(v[0])) || AllSpace(rest[..IndexOf(rest, '#')]))
  }

  lemma PieceIsToken(v: string, rest: string)
    requires IsPiece(v) && IsTrimmed(v) && IsTail(v, rest)
    ensures var n := TokenLength(v + rest, '#'); n <= |v + rest| && Trim((v + rest)[..n]) == v
  {
    hide SequenceEnd, Trim;
    if v != "" && IsBracket(v[0]) {
      SequenceEndStays(v, 0, Closer(v[0]), rest);
      assert (v + rest)[0] == v[0] && (v + rest)[..|v|] == v;
      TrimOfTrimmed(v);
    } else {
      PlainPiece(v, rest);
    }
  }

  lemma PlainPiece(v: string, rest: string)
    requires (v == "" || !IsBracket(v[0])) && '#' !in v && IsTrimmed(v) && IsTail(v, rest)
    ensures var n := TokenLength(v + rest, '#'); n <= |v + rest| && Trim((v + rest)[..n]) == v
  {
    hide SequenceEnd, Trim, FirstSeparator, IndexOf;
    var text, n := v + rest, |v| + IndexOf(rest, '#');
    assert forall i | 0 <= i < n :: text[i] == if i < |v| then v[i] else rest[i - |v|];
    assert n < |text| && text[n] == '#' && !IsBracket(text[0]);
    FirstSeparatorIs(text, '#', n);
    assert text[..n] == "" + v + rest[..n - |v|];
    TrimUnique("", v, rest[..n - |v|]);
  }

  lemma FirstSeparatorIs(s: string, delimiter: char, n: nat)
    requires n < |s| && Separates(s[n], delimiter) && forall i | 0 <= i < n :: !Separates(s[i], delimiter)
    ensures FirstSeparator(s, delimiter) == n
  {
    hide FirstSeparator, Separates;
  }

  /** What is left of a trimmed value with something to drop behind it. */
  lemma TailIsCut(v: string, rest: string)
    requires IsPiece(v) && IsTrimmed(v) && IsTail(v, rest) && IsTrimmed(v + rest)
    ensures WithoutComment(v + rest) == v
  {
    hide TokenLength, Trim, IsPiece;
    var text := v + rest;
    var i :| 0 <= i < |rest| && rest[i] == '#';
    assert text[|v| + i] == '#';
    PieceIsToken(v, rest);
    TrimOfTrimmed(text);
    assert SplitUp(text, '#')[0] == text[..TokenLength(text, '#')];
  }

  /** A value that is one piece is itself its first token. */
  lemma PieceStays(v: string)
    requires IsPiece(v) && IsTrimmed(v)
    ensures WithoutComment(v) == v
  {
    hide SequenceEnd, Trim;
    if '#' in v { CliConfigRoundTrip.OneToken(v, '#'); TrimOfTrimmed(v); }
  }

  /** A comment comes off a value and leaves it as it was exactly when the value is one piece: a list in quotes, as
      in "a", "b", is cut behind its first item. */
  lemma {:induction false} CommentComesOff(v: string, blanks: string, note: string)
    requires v != "" && IsTrimmed(v) && AllSpace(blanks) && note != "" && note[0] == '#' && IsTrimmed(note)
    ensures WithoutComment(v + (blanks + note)) == v <==> IsPiece(v)
  {
    hide TokenLength, Trim, IsPiece, WithoutComment;
    var rest := blanks + note;
    NoteIsTail(v, blanks, note);
    assert (v + rest)[0] == v[0] && (v + rest)[|v + rest| - 1] == note[|note| - 1];
    if IsPiece(v) { TailIsCut(v, rest); } else { NoPieceIsCut(v, rest); }
  }

  lemma NoteIsTail(v: string, blanks: string, note: string)
    requires AllSpace(blanks) && note != "" && note[0] == '#'
    ensures IsTail(v, blanks + note)
  {
    hide IndexOf;
    var rest := blanks + note;
    assert rest[|blanks|] == '#' && rest[0] == if blanks == "" then '#' else blanks[0];
    assert forall i | 0 <= i < |blanks| :: rest[i] == blanks[i];
    IndexIs(rest, '#', |blanks|);
  }

  lemma NoPieceIsCut(v: string, rest: string)
    requires !IsPiece(v) && v != "" && IsTrimmed(v) && IsTrimmed(v + rest) && '#' in rest
    ensures WithoutComment(v + rest) != v
  {
    hide Trim, SequenceEnd, FirstSeparator;
    var text := v + rest;
    var n := TokenLength(text, '#');
    var i :| 0 <= i < |rest| && rest[i] == '#';
    assert text[|v| + i] == '#' && text[0] == v[0];
    TrimOfTrimmed(text);
    assert SplitUp(text, '#')[0] == text[..n];
    if IsBracket(v[0]) {
      var e := SequenceEnd(text, 0, Closer(v[0]));
      SequenceEndStays(v, 0, Closer(v[0]), rest);
      EndsInInk(text, e, Closer(v[0]));
      assert n != |v|;
      if n > |v| { TrimOfTrimmed(text[..n]); }
    } else {
      var j :| 0 <= j < |v| && v[j] == '#';
      assert text[j] == '#';
    }
  }

  /** The character that closes a sequence is no whitespace. */
  lemma EndsInInk(text: string, e: nat, closer: char)
    requires text != "" && IsBracket(text[0]) && closer == Closer(text[0]) && e == SequenceEnd(text, 0, closer)
    ensures e < |text| ==> e > 0 && text[e] == closer && !IsSpace(closer)
  {
    hide StringEnd, LiteralEnd, NestedEnd;
  }

  lemma NotMultiLine(v: string, rest: string)
    requires !IsMultiLine(v) && rest != "" && !IsQuote(rest[0])
    ensures !IsMultiLine(v + rest)
  {
    var s := v + rest;
    if |s| >= 3 {
      assert s[..3] == [s[0], s[1], s[2]];
      if |v| >= 3 { assert v[..3] == [s[0], s[1], s[2]]; } else { assert s[|v|] == rest[0]; }
    }
  }

  /** A value, with blanks in front of it and something to drop behind it, trimmed. */
  lemma TailTrimmed(before: string, v: string, rest: string) returns (cut: string)
    requires AllSpace(before) && IsTrimmed(v) && IsTail(v, rest)
    ensures IsTail(v, cut) && IsTrimmed(v + cut) && Trim(before + (v + rest)) == v + cut
  {
    hide Trim, IsTail, IsTrimmed;
    var front, back;
    front, cut, back := TailParts(v, rest);
    Rearranged(before, v, front, cut, back);
    TrimUnique(before + front, v + cut, back);
  }

  lemma TailParts(v: string, rest: string) returns (front: string, cut: string, back: string)
    requires IsTrimmed(v) && IsTail(v, rest)
    ensures rest == front + cut + back && AllSpace(front) && AllSpace(back) && (v == "" || front == "")
    ensures IsTail(v, cut) && IsTrimmed(v + cut)
  {
    hide IndexOf, EndOfInk, IsTail, IsTrimmed;
    var n, k := IndexOf(rest, '#'), EndOfInk(rest);
    TailInk(v, rest);
    CutIsTail(v, rest, n, k);
    back := rest[k..];
    if v == "" {
      front, cut := rest[..n], rest[n..k];
    } else {
      front, cut := "", rest[..k];
    }
    EndsTrimmed(v, cut);
  }

  lemma TailInk(v: string, rest: string)
    requires IsTail(v, rest)
    ensures var n := IndexOf(rest, '#'); n < EndOfInk(rest) && rest[n] == '#' && (v == "" ==> AllSpace(rest[..n]))
  {
    hide EndOfInk;
  }

  lemma EndsTrimmed(v: string, cut: string)
    requires IsTrimmed(v) && cut != "" && (v == "" ==> !IsSpace(cut[0])) && !IsSpace(cut[|cut| - 1])
    ensures IsTrimmed(v + cut)
  {
    assert (v + cut)[0] == (if v == "" then cut[0] else v[0]) && (v + cut)[|v + cut| - 1] == cut[|cut| - 1];
  }

  lemma Rearranged(before: string, v: string, front: string, cut: string, back: string)
    requires v == "" || front == ""
    ensures before + (v + (front + cut + back)) == (before + front) + (v + cut) + back
  {
  }

  lemma CutIsTail(v: string, rest: string, n: nat, k: nat)
    requires IsTail(v, rest) && n == IndexOf(rest, '#') < k <= |rest|
    ensures IsTail(v, if v == "" then rest[n..k] else rest[..k])
  {
    hide IndexOf;
    var cut := if v == "" then rest[n..k] else rest[..k];
    var at := if v == "" then 0 else n;
    assert cut[at] == '#' && forall i | 0 <= i < at :: cut[i] == rest[i];
    IndexIs(cut, '#', at);
  }

  /** The items of a value do not depend on what is dropped behind it. */
  lemma ItemsWithTail(head: string, before: string, v: string, rest: string, more: seq<string>)
    requires IsHead(head) && AllSpace(before) && IsTrimmed(v) && IsPiece(v) && !IsMultiLine(v) && IsTail(v, rest)
    ensures var plain, noted := head + (before + v), head + (before + (v + rest));
      && |head| - 1 < |Trim(plain)| && |head| - 1 < |Trim(noted)|
      && ItemsOfValue(noted, |head| - 1, true, more) == ItemsOfValue(plain, |head| - 1, '#' in v, more)
  {
    hide Trim, QuotedText, IsMultiLine, WithoutComment, ItemTokens, ArrayText, Rtrim, IsPiece;
    HeadTrims(head, before + v);
    HeadTrims(head, before + (v + rest));
    TrimUnique(before, v, "");
    assert before + v + "" == before + v;
    var cut := TailTrimmed(before, v, rest);
    NotMultiLine(v, cut);
    TailIsCut(v, cut);
    PieceStays(v);
  }

  /** The parts of a printed name that is followed by blanks. */
  lemma NameBehindBlanks(name: string, blanks: string)
    requires ValidName(name) && AllSpace(blanks)
    ensures Trim(CleanName(name) + blanks) == Trim(CleanName(name))
    ensures IsHead(CleanName(name) + blanks + "=")
  {
    hide Trim, ValidName, NeedsQuotes, QuotedName;
    NameTrims(name);
    NoBlanksBefore(CleanName(name), blanks);
    if NeedsQuotes(name) { QuotedStart(name); }
    var head := CleanName(name) + blanks + "=";
    assert head[0] == CleanName(name)[0] && head[|head| - 1] == '=';
  }

  /** Whatever is dropped behind a value makes no difference, nor do blanks around '=': the line is read as the same
      entry, for every value that is one piece and no text in triple quotes. */
  lemma {:induction false} TailMakesNoDifference(name: string, around: string, before: string, v: string, rest: string,
    more: seq<string>, taking: Taking)
    requires ValidName(name) && AllSpace(around) && AllSpace(before)
    requires IsTrimmed(v) && IsPiece(v) && !IsMultiLine(v) && IsTail(v, rest)
    ensures var head := CleanName(name) + around + "=";
      ReadEntry(head + (before + (v + rest)), more, taking) == ReadEntry(head + (before + v), more, taking)
  {
    hide ValidName, CleanName, DelimiterAt, CommentAt, ReadTokens, ItemsOfValue, ProcessQuoted, Trim, NameParts, Rtrim;
    hide IsPiece, IsMultiLine;
    var head, n := CleanName(name) + around + "=", |CleanName(name) + around|;
    NameBehindBlanks(name, around);
    ItemsWithTail(head, before, v, rest, more);
    var i :| 0 <= i < |rest| && rest[i] == '#';
    assert (before + (v + rest))[|before| + |v| + i] == '#';
    LineFound(name, around, before + (v + rest), true);
    LineFound(name, around, before + v, '#' in v);
    EntryFound(head + (before + (v + rest)), more, taking, n, true);
    EntryFound(head + (before + v), more, taking, n, '#' in v);
  }

  /** In particular a comment behind a value makes no difference. */
  lemma NoteMakesNoDifference(name: string, around: string, before: string, v: string, blanks: string, note: string,
    more: seq<string>, taking: Taking)
    requires ValidName(name) && AllSpace(around) && AllSpace(before) && AllSpace(blanks)
    requires IsTrimmed(v) && IsPiece(v) && !IsMultiLine(v)
    ensures var head := CleanName(name) + around + "=";
      ReadEntry(head + (before + (v + (blanks + ("#" + note)))), more, taking) ==
        ReadEntry(head + (before + v), more, taking)
  {
    hide ValidName, CleanName, ReadEntry, IsTail, IsPiece, IsMultiLine;
    NoteIsTail(v, blanks, "#" + note);
    TailMakesNoDifference(name, around, before, v, blanks + ("#" + note), more, taking);
  }

  /** But with a comment a list in quotes is read as its first item alone. */
  lemma ListBehindIsLost(taking: Taking, more: seq<string>)
    ensures ReadEntry("x=\"a\", \"b\" # note", more, taking) == ReadEntry("x=\"a\"", more, taking)
  {
    hide ReadEntry, IsPiece, IsTail, IsMultiLine, ValidName, NeedsQuotes;
    var v, rest := "\"a\"", ", \"b\" # note";
    NameX();
    QuotedA();
    assert "x" + "" + "=" == "x=" && "" + v == v && "" + (v + rest) == v + rest;
    assert "x=" + v == "x=\"a\"" && "x=" + (v + rest) == "x=\"a\", \"b\" # note";
    TailMakesNoDifference("x", "", "", v, rest, more, taking);
  }

  lemma NameX()
    ensures ValidName("x") && !NeedsQuotes("x")
  {
    assert "x"[0] == 'x';
  }

  lemma QuotedA()
    ensures var v := "\"a\""; IsPiece(v) && IsTrimmed(v) && !IsMultiLine(v) && IsTail(v, ", \"b\" # note")
  {
    hide IndexOf;
    var v, rest := "\"a\"", ", \"b\" # note";
    assert v[0] == '\"' && v[1] == 'a' && v[2] == '\"';
    assert rest[0] == ',' && rest[6] == '#';
  }

  /** Where '=' and '#' are found in the trimmed line. */
  lemma LineFound(name: string, around: string, text: string, comment: bool)
    requires ValidName(name) && AllSpace(around) && (comment <==> '#' in text)
    ensures var head := CleanName(name) + around + "=";
      var line := Trim(head + text);
      && IsHead(head) && |head| <= |line| && line[..|head| - 1] == CleanName(name) + around
      && DelimiterAt(line) == |head| - 1 < CommentAt(line) && (CommentAt(line) < |line| <==> comment)
  {
    hide ValidName, CleanName, DelimiterAt, CommentAt, Trim, Rtrim;
    var head := CleanName(name) + around + "=";
    NameBehindBlanks(name, around);
    HeadTrims(head, text);
    NameFound(name, around, Rtrim(text));
    InkSurvives(text);
  }

  lemma InkSurvives(text: string)
    ensures '#' in text <==> '#' in Rtrim(text)
  {
    hide EndOfInk;
    var n := EndOfInk(text);
    if '#' in text {
      var i :| 0 <= i < |text| && text[i] == '#';
      assert i < n && text[..n][i] == '#';
    }
  }

  lemma EntryFound(buffer: string, more: seq<string>, taking: Taking, at: nat, comment: bool)
    requires var line := Trim(buffer);
      at < |line| && DelimiterAt(line) == at < CommentAt(line) && (CommentAt(line) < |line| <==> comment)
    ensures var parts, items := NameParts(Trim(Trim(buffer)[..at])), ItemsOfValue(buffer, at, comment, more);
      ReadEntry(buffer, more, taking) ==
        if items.Error? then Error(items.error)
        else if Sections.Segments(parts[..|parts| - 1]).Error? then Error(Sections.Segments(parts[..|parts| - 1]).error)
        else
          var name := ProcessQuoted(parts[|parts| - 1]);
          if name.Error? then Error(name.error)
          else
            var results := ReadTokens(items.value, taking);
            if results.Error? then Error(results.error)
            else Ok(Entry(Sections.Segments(parts[..|parts| - 1]).value, name.value, results.value))
  {
    hide DelimiterAt, CommentAt, ItemsOfValue, ProcessQuoted, ReadTokens, NameParts, Trim, Sections.Segments;
  }

  // ---- flags ----

  /** A name without a value is a flag, and so is one with a comment behind it, even when '=' stands in the comment. */
  lemma {:induction false} FlagLine(name: string, blanks: string, note: string, more: seq<string>, taking: Taking)
    requires ValidName(name) && !NeedsQuotes(name) && NameComesBack(name) && AllSpace(blanks)
    ensures var flag := ReadTokens(["true"], taking);
      && flag.Ok?
      && ReadEntry(name + blanks, more, taking) == Ok(Entry([], name, flag.value))
      && ReadEntry(name + blanks + "#" + note, more, taking) == Ok(Entry([], name, flag.value))
  {
    hide DelimiterAt, CommentAt, ReadTokens, ItemsOfValue, ProcessQuoted, Trim, NameParts, Rtrim, ValidName;
    hide NeedsQuotes;
    NameTrims(name);
    PlainNameRead(name);
    PlainIsOnePart(name);
    NoBlanksBefore(name, blanks);
    TrueIsRead(taking);
    NoSignsFound(name);
    CutStarts(note);
    var cut := Rtrim("#" + note);
    NotedFlag(name, blanks, cut);
    var tail := RtrimParts("#" + note);
    assert name + blanks + "#" + note == (name + blanks + cut) + tail by {
      assert "#" + note == cut + tail && name + blanks + "#" + note == name + blanks + ("#" + note);
    }
    NoBlanksBefore(name + blanks + cut, tail);
    var line := name + blanks + cut;
    assert line[0] == name[0] && line[|line| - 1] == cut[|cut| - 1];
    TrimOfTrimmed(line);
    assert line[..|name + blanks|] == name + blanks && name[..|name|] == name;
  }

  lemma CutStarts(note: string)
    ensures var cut := Rtrim("#" + note); cut != "" && cut[0] == '#' && IsTrimmed(cut)
  {
    hide EndOfInk;
    var text := "#" + note;
    assert text[0] == '#' && EndOfInk(text) > 0;
    assert Rtrim(text)[0] == text[0];
  }

  lemma TrueIsRead(taking: Taking)
    ensures ReadTokens(["true"], taking).Ok?
  {
    hide AddedResults;
    PlainReadBack("true");
    assert ["true"][1..] == [];
  }

  lemma NoSignsFound(name: string)
    requires !NeedsQuotes(name)
    ensures DelimiterAt(name) == CommentAt(name) == |name|
  {
    hide SearchFrom, NeedsQuotes;
    forall i | 0 <= i < |name| ensures !IsSign(name[i]) && !IsQuote(name[i]) { PlainNameChar(name, i); }
    assert "\"'`"[0] == '\"' && "\"'`"[1] == '\'' && "\"'`"[2] == '`';
    assert forall c | c in "\"'`" :: IsQuote(c);
  }

  lemma NotedFlag(name: string, blanks: string, note: string)
    requires name != "" && !IsSpace(name[0]) && !NeedsQuotes(name) && AllSpace(blanks) && note != "" && note[0] == '#'
    ensures var line := name + blanks + note; CommentAt(line) == |name + blanks| < DelimiterAt(line) <= |line|
  {
    hide SearchFrom, NeedsQuotes, HasAny, FirstSign;
    var n, line := |name + blanks|, name + blanks + note;
    forall i | 0 <= i < n ensures !IsSign(line[i]) && (i < |name| ==> !IsQuote(line[i])) {
      if i < |name| { PlainNameChar(name, i); } else { assert line[i] == blanks[i - |name|]; }
    }
    assert line[n] == '#';
    SignFound(line, 0, n);
    if HasAny(line, "\"'`") {
      SearchStep(line, 0);
      SearchStep(line, n);
    }
  }
}
