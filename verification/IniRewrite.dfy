/** Replacing the value on an old entry line: what the new line means. */
module IniRewrite {
  import opened Text
  import opened IniParser
  import opened IniEntry
  import opened IniWriter

  /** The part of a line that is parsed as an entry: no indentation, and for a line that
      starts with '[' nothing from the first ';' on. */
  ghost predicate IsEntryPart(line: string, before: string, cut: string, tail: string) {
    && line == before + cut + tail && AllSpace(before)
    && cut != "" && cut[0] != ';' && !IsSpace(cut[0])
    && (cut[0] == '[' ==> ';' !in cut && ']' !in cut)
    && (AllSpace(tail) || (cut[0] == '[' && tail[0] == ';'))
    && ParseLine(line) == ParseEntry(cut)
  }

  lemma EntryPart(line: string) returns (before: string, cut: string, tail: string)
    requires ParseLine(line).KeyValue?
    ensures IsEntryPart(line, before, cut, tail)
  {
    hide Trim, ParseEntry, IndexOf, LastIndexOf;
    var after;
    before, after := TrimParts(line);
    var l := Trim(line);
    if l[0] == '[' {
      var n := IndexOf(l, ';');
      cut, tail := l[..n], l[n..] + after;
      assert line == before + cut + tail;
      assert l[..n] + l[n..] == l;
      assert n == |l| ==> tail == after;
    } else {
      cut, tail := l, after;
    }
  }

  /** The separator of the line is that of its entry part. */
  lemma SeparatorOfPart(before: string, cut: string, tail: string)
    requires AllSpace(before) && Separator(cut) < |cut|
    ensures Separator(before + cut + tail) == |before| + Separator(cut)
    ensures IsSeparator(cut, Separator(cut))
  {
    hide Separator;
    var line, n := before + cut + tail, |before|;
    SeparatorIs(cut);
    SeparatorIs(line);
    var at := Separator(cut);
    assert line[n + at] == '=' && !EscapedEquals(line, n + at) by {
      if 0 < at { assert line[n + at - 1] == cut[at - 1]; } else { assert n > 0 ==> IsSpace(line[n - 1]); }
    }
    forall i: nat | i < n + at && line[i] == '=' ensures EscapedEquals(line, i) {
      assert i < n ==> IsSpace(line[i]);
      assert line[i] == cut[i - n] && EscapedEquals(cut, i - n);
      assert line[i - 1] == cut[i - n - 1];
    }
    assert IsSeparator(line, n + at);
  }

  // ---- the old value and what the search for it skips ----

  function BlankedTail(line: string, from: nat): string
    requires from <= |line|
  {
    BlankedAt(line);
    Blanked(line)[from..]
  }

  /** How far find_first_not_of(whitespace) goes on the blanked line, from a position on. */
  function Skipped(line: string, from: nat): nat
    requires from <= |line|
  {
    FirstInk(BlankedTail(line, from))
  }

  predicate InEscape(s: string, i: nat)
    requires i < |s|
  {
    (0 < i && s[i - 1] == '\\' && s[i] == '=') || (i + 1 < |s| && s[i] == '\\' && s[i + 1] == '=')
  }

  /** What follows the separator on the blanked line. */
  lemma BlankedRest(line: string, at: nat)
    requires IsSeparator(line, at)
    ensures |BlankedTail(line, at + 1)| == |line| - at - 1
    ensures var rest, b := line[at + 1..], BlankedTail(line, at + 1);
      forall i: nat | i < |rest| :: b[i] == (if InEscape(rest, i) then ' ' else rest[i])
  {
    hide Blanked;
    BlankedAt(line);
    var rest := line[at + 1..];
    forall i: nat | i < |rest|
      ensures BlankedTail(line, at + 1)[i] == (if InEscape(rest, i) then ' ' else rest[i])
    {
      assert rest[i] == line[at + 1 + i];
      assert Blanked(line)[at + 1 + i] == BlankedChar(line, at + 1 + i);
    }
  }

  /** The search skips whitespace and escaped '='; it skips only whitespace unless the text
      starts with an escaped '='. */
  lemma SkippedIsSpace(line: string, at: nat)
    requires IsSeparator(line, at)
    ensures FirstInk(line[at + 1..]) <= Skipped(line, at + 1) <= |line| - at - 1
    ensures var rest := line[at + 1..];
      forall i: nat | i < Skipped(line, at + 1) :: IsSpace(rest[i]) || rest[i] == '\\' || rest[i] == '='
    ensures Skipped(line, at + 1) == FirstInk(line[at + 1..]) <==>
      !("\\=" <= line[at + 1..][FirstInk(line[at + 1..])..])
  {
    hide Blanked, BlankedTail;
    BlankedRest(line, at);
    var rest, b := line[at + 1..], BlankedTail(line, at + 1);
    var f, g := Skipped(line, at + 1), FirstInk(rest);
    forall i: nat | i < f ensures IsSpace(rest[i]) || rest[i] == '\\' || rest[i] == '=' {
      assert IsSpace(b[i]);
    }
    forall i: nat | i < g ensures IsSpace(b[i]) {
      assert IsSpace(rest[i]);
    }
    StartsEscaped(rest[g..]);
    if g < |rest| {
      assert g > 0 ==> IsSpace(rest[g - 1]);
      assert b[g] == if InEscape(rest, g) then ' ' else rest[g];
    }
  }

  /** The value that was parsed starts with an escaped '=' exactly when the rest of the line does. */
  lemma OldValueStart(cut: string, at: nat, tail: string)
    requires at < |cut| && cut != ""
    requires cut[0] == '[' ==> ';' !in cut
    requires AllSpace(tail) || (cut[0] == '[' && tail[0] == ';')
    ensures var rest := cut[at + 1..] + tail;
      "\\=" <= rest[FirstInk(rest)..] <==> "\\=" <= Trim(cut[at + 1..])
  {
    hide FirstInk, Trim;
    var own := cut[at + 1..];
    if FirstInk(own) < |own| { ValueHere(own, tail); } else { NoValueHere(own, tail); }
  }

  lemma ValueHere(own: string, tail: string)
    requires FirstInk(own) < |own| && (AllSpace(tail) || tail[0] == ';')
    ensures var rest := own + tail; "\\=" <= rest[FirstInk(rest)..] <==> "\\=" <= Trim(own)
  {
    hide FirstInk, EndOfInk, Trim, IsTrimmed;
    var rest, g, e := own + tail, FirstInk(own), EndOfInk(own);
    InkStays(own, tail);
    TrimIs(own);
    SecondChar(own, tail, g, e);
    FrontsAlike(own[g..e], rest[g..]);
  }

  lemma SecondChar(own: string, tail: string, g: nat, e: nat)
    requires g < e <= |own| && (forall i | e <= i < |own| :: IsSpace(own[i])) && (AllSpace(tail) || tail[0] == ';')
    ensures var v, r := own[g..e], (own + tail)[g..];
      && |v| <= |r| && v[0] == r[0]
      && (|v| > 1 ==> v[1] == r[1]) && (|v| == 1 && |r| > 1 ==> r[1] != '=')
  {
    var r := (own + tail)[g..];
    assert forall i | 0 <= i < e - g :: r[i] == own[g + i];
    if e - g == 1 && |r| > 1 { assert r[1] == if e < |own| then own[e] else tail[0]; }
  }

  lemma FrontsAlike(v: string, r: string)
    requires v != "" && |v| <= |r| && v[0] == r[0]
    requires |v| > 1 ==> v[1] == r[1]
    requires |v| == 1 && |r| > 1 ==> r[1] != '='
    ensures "\\=" <= v <==> "\\=" <= r
  {
    StartsEscaped(v);
    StartsEscaped(r);
  }

  lemma InkStays(own: string, tail: string)
    requires FirstInk(own) < |own|
    ensures FirstInk(own + tail) == FirstInk(own)
  {
    hide FirstInk;
    var rest, g := own + tail, FirstInk(own);
    assert rest[g] == own[g] && forall i | 0 <= i < g :: rest[i] == own[i];
  }

  lemma TrimIs(own: string)
    requires FirstInk(own) < |own|
    ensures FirstInk(own) < EndOfInk(own) && Trim(own) == own[FirstInk(own)..EndOfInk(own)]
  {
    hide FirstInk, EndOfInk;
    var g, e := FirstInk(own), EndOfInk(own);
    assert own[g] == own[..e][g] && forall i | 0 <= i < g :: own[..e][i] == own[i];
    assert FirstInk(own[..e]) == g;
  }

  lemma NoValueHere(own: string, tail: string)
    requires FirstInk(own) == |own| && (AllSpace(tail) || tail[0] == ';')
    ensures var rest := own + tail; !("\\=" <= rest[FirstInk(rest)..]) && Trim(own) == ""
  {
    hide FirstInk, EndOfInk, Trim, IsTrimmed;
    AllBlank(own);
    var rest := own + tail;
    var h := FirstInk(rest);
    FirstBehind(own, tail);
    StartsEscaped(rest[h..]);
  }

  lemma AllBlank(own: string)
    requires FirstInk(own) == |own|
    ensures Trim(own) == ""
  {
    hide FirstInk, EndOfInk;
    assert EndOfInk(own) == 0;
  }

  lemma FirstBehind(own: string, tail: string)
    requires FirstInk(own) == |own| && (AllSpace(tail) || tail[0] == ';')
    ensures var rest := own + tail; FirstInk(rest) == |rest| || (FirstInk(rest) < |rest| && rest[FirstInk(rest)] == ';')
  {
    hide FirstInk;
    var rest := own + tail;
    assert forall i | 0 <= i < |rest| :: rest[i] == if i < |own| then own[i] else tail[i - |own|];
    if tail != "" { assert rest[|own|] == tail[0]; }
  }

  lemma StartsEscaped(s: string)
    ensures "\\=" <= s <==> |s| > 1 && s[0] == '\\' && s[1] == '='
  {
    if |s| > 1 { assert s[..2] == [s[0], s[1]]; }
  }

  // ---- the new line ----

  lemma LongerThanItsEnd(mid: string, t: string)
    requires IsTrimmed(t) && !AllSpace(mid)
    ensures Trim(mid + t) != t
  {
    var s := mid + t;
    var f := FirstInk(mid);
    assert f < |mid| && s[f] == mid[f];
    var e := EndOfInk(s);
    assert FirstInk(s) == f by {
      assert forall i | 0 <= i < f :: s[i] == mid[i];
    }
    if t == "" {
      assert f < e;
    } else {
      assert s[|s| - 1] == t[|t| - 1];
      assert e == |s|;
    }
    assert f < e && s[..e][f] == s[f];
    assert FirstInk(s[..e]) == f;
  }

  /** An unindented text before '=' and what follows, between blanks: trimming takes off the blanks at the ends. */
  lemma TrimmedEntry(before: string, pre: string, post: string)
    requires AllSpace(before) && (pre != "" ==> !IsSpace(pre[0]))
    ensures var n := EndOfInk(post);
      && Trim(before + pre + "=" + post) == pre + "=" + post[..n]
      && Trim(post[..n]) == Trim(post)
  {
    hide Trim, EndOfInk;
    var n := EndOfInk(post);
    var kept, blanks := post[..n], post[n..];
    var l := pre + "=" + kept;
    assert post == kept + blanks;
    assert l[|l| - 1] == if n == 0 then '=' else post[n - 1];
    assert l[0] == if pre == "" then '=' else pre[0];
    Rejoin(before, pre, kept, blanks);
    TrimUnique(before, l, blanks);
    TrimPadded("", kept, blanks);
    assert "" + kept + blanks == post;
  }

  lemma Rejoin(before: string, pre: string, kept: string, blanks: string)
    ensures before + pre + "=" + (kept + blanks) == before + (pre + "=" + kept) + blanks
  {
  }

  /** A line that keeps the entry part of an old one up to the separator is an entry with the
      same key, unless the text after the separator holds what ends a section header. */
  lemma KeptPrefix(before: string, cut: string, post: string)
    requires AllSpace(before) && cut != "" && cut[0] != ';' && !IsSpace(cut[0])
    requires cut[0] == '[' ==> ';' !in cut && ']' !in cut && ';' !in post && ']' !in post
    requires Separator(cut) < |cut|
    ensures ParseLine(before + cut[..Separator(cut)] + "=" + post) ==
      KeyValue(UnescapeKey(Trim(cut[..Separator(cut)])), Trim(post))
  {
    hide Separator, Trim, UnescapeKey, ParseEntry, ParseLine, EndOfInk;
    SeparatorIs(cut);
    var pre := cut[..Separator(cut)];
    var n := EndOfInk(post);
    var l := pre + "=" + post[..n];
    TrimmedEntry(before, pre, post);
    forall i: nat | i < |pre| && pre[i] == '=' ensures EscapedEquals(pre, i) {
      assert EscapedEquals(cut, i);
    }
    EntrySplits(pre, post[..n]);
    assert l[0] == cut[0];
    if l[0] == '[' { assert ';' !in l && ']' !in l; }
    LineIsEntry(before + pre + "=" + post);
  }

  /** A line that starts with '[' has a key that does. */
  lemma BracketKey(cut: string, at: nat)
    requires 0 < at < |cut| && cut[0] == '['
    ensures UnescapeKey(Trim(cut[..at])) != "" && UnescapeKey(Trim(cut[..at]))[0] == '['
  {
    var pre := cut[..at];
    assert FirstInk(pre[..EndOfInk(pre)]) == 0 by { assert pre[0] == '['; }
    var x := Trim(pre);
    assert x[0] == '[';
    StartsEscaped(x);
  }

  function RewriteMid(line: string, at: nat): string
    requires at < |line| && Skipped(line, at + 1) <= |line| - at - 1
  {
    line[at + 1..][..Skipped(line, at + 1)]
  }

  function RewriteGap(line: string, at: nat, pretty: bool): string
    requires at < |line|
  {
    if pretty && Skipped(line, at + 1) == 0 && at + 1 < |line| then " " else ""
  }

  /** The new line: everything through the separator, what the search skips, perhaps a space, and the value. */
  lemma RewriteParts(line: string, at: nat, value: string, pretty: bool)
    requires Separator(line) == at < |line| && line[at] == '='
    ensures Skipped(line, at + 1) <= |line| - at - 1
    ensures RewriteLine(line, value, pretty) ==
      line[..at] + "=" + (RewriteMid(line, at) + RewriteGap(line, at, pretty) + Trim(value))
  {
    hide Separator, Trim, Blanked, FirstInk;
    BlankedAt(line);
    var f, mid, gap := Skipped(line, at + 1), RewriteMid(line, at), RewriteGap(line, at, pretty);
    assert line[..at + 1 + f] == line[..at] + "=" + mid;
    assert RewriteLine(line, value, pretty) == line[..at] + "=" + mid + gap + Trim(value);
    Regroup(line[..at] + "=", mid, gap);
    Regroup(line[..at] + "=", mid + gap, Trim(value));
  }

  /** The text after the separator of the new line reads as the value unless it starts with escaped '='. */
  lemma RewriteValueBack(line: string, at: nat, value: string, pretty: bool)
    requires IsSeparator(line, at) && Skipped(line, at + 1) <= |line| - at - 1
    ensures var rest := line[at + 1..];
      Trim(RewriteMid(line, at) + RewriteGap(line, at, pretty) + Trim(value)) == Trim(value) <==>
      !("\\=" <= rest[FirstInk(rest)..])
  {
    hide Trim, Skipped;
    SkippedIsSpace(line, at);
    var rest, v := line[at + 1..], Trim(value);
    var mid, gap := RewriteMid(line, at), RewriteGap(line, at, pretty);
    if Skipped(line, at + 1) == FirstInk(rest) {
      TrimUnique(mid + gap, v, "");
      assert mid + gap + v == (mid + gap) + v + "";
    } else {
      assert mid[FirstInk(rest)] == rest[FirstInk(rest)];
      LongerThanItsEnd(mid, v);
      assert mid + gap + v == mid + v;
    }
  }

  lemma RewriteLacks(line: string, at: nat, value: string, pretty: bool)
    requires IsSeparator(line, at) && Skipped(line, at + 1) <= |line| - at - 1
    requires ';' !in Trim(value) && ']' !in Trim(value)
    ensures var post := RewriteMid(line, at) + RewriteGap(line, at, pretty) + Trim(value); ';' !in post && ']' !in post
  {
    hide Trim, Skipped;
    SkippedIsSpace(line, at);
    var rest := line[at + 1..];
    assert forall i | 0 <= i < |RewriteMid(line, at)| :: RewriteMid(line, at)[i] == rest[i];
  }

  /** The search for the old value skips more than blanks exactly when the value starts with an escaped '='. */
  lemma SkipsEscape(line: string)
    requires ParseLine(line).KeyValue?
    ensures var at := Separator(line);
      && IsSeparator(line, at) && FirstInk(line[at + 1..]) <= Skipped(line, at + 1) <= |line| - at - 1
      && ("\\=" <= ParseLine(line).value <==> Skipped(line, at + 1) != FirstInk(line[at + 1..]))
  {
    hide ParseLine, Separator, Trim, Skipped, FirstInk, IsSeparator, IsEntryPart;
    var before, cut, tail := EntryPart(line);
    PartValue(line, before, cut, tail);
    SkippedIsSpace(line, Separator(line));
    OldValueStart(cut, Separator(cut), tail);
  }

  /** The separator and the value of an entry line, from its part without comment and blanks. */
  lemma PartValue(line: string, before: string, cut: string, tail: string)
    requires IsEntryPart(line, before, cut, tail) && ParseLine(line).KeyValue?
    ensures Separator(cut) < |cut| && Separator(line) == |before| + Separator(cut) < |line|
    ensures IsSeparator(line, Separator(line)) && line[Separator(line) + 1..] == cut[Separator(cut) + 1..] + tail
    ensures ParseLine(line).value == Trim(cut[Separator(cut) + 1..])
    ensures (cut[0] == '[' ==> ';' !in cut) && (AllSpace(tail) || (cut[0] == '[' && tail[0] == ';'))
  {
    hide ParseLine, Separator, Trim, UnescapeKey, Blanked, FirstInk, IsSeparator;
    SeparatorOfPart(before, cut, tail);
    ValuePart(before, cut, tail, Separator(cut));
    FoundIsSeparator(line);
  }

  lemma ValuePart(before: string, cut: string, tail: string, n: nat)
    requires n < |cut|
    ensures (before + cut + tail)[|before| + n + 1..] == cut[n + 1..] + tail
  {
  }

  lemma FoundIsSeparator(line: string)
    requires Separator(line) < |line|
    ensures IsSeparator(line, Separator(line))
  {
    hide Separator, Blanked;
    SeparatorIs(line);
  }

  /** What stands behind the part of an entry line that a new value leaves alone. */
  function ReplacedPart(line: string): string {
    BlankedAt(line);
    var at := Separator(line);
    if at == |line| then "" else line[at + 1..][FirstInk(Blanked(line)[at + 1..])..]
  }

  lemma ReplacedPartIs(line: string)
    requires IsSeparator(line, Separator(line)) && Skipped(line, Separator(line) + 1) <= |line| - Separator(line) - 1
    ensures var at := Separator(line); ReplacedPart(line) == line[at + 1..][Skipped(line, at + 1)..]
  {
    hide Separator, Blanked;
    BlankedAt(line);
  }

  /** A rewritten line is the old one exactly when the new value already stands where the old one is
      taken to start. */
  lemma RewriteSame(line: string, value: string, pretty: bool)
    requires ParseLine(line).KeyValue? && IsTrimmed(value)
    ensures RewriteLine(line, value, pretty) == line <==>
      ReplacedPart(line) == value && (Separator(line) < |line| ==> RewriteGap(line, Separator(line), pretty) == "")
  {
    hide ParseLine, Separator, Trim, Blanked, RewriteLine, RewriteGap, Skipped, ReplacedPart;
    SkipsEscape(line);
    ReplacedPartIs(line);
    TrimOfTrimmed(value);
    var at := Separator(line);
    RewriteParts(line, at, value, pretty);
    var mid, gap, rest := RewriteMid(line, at), RewriteGap(line, at, pretty), ReplacedPart(line);
    assert mid + rest == line[at + 1..];
    assert line == line[..at] + "=" + (mid + rest);
    GapIsNoBlank(line, at, pretty);
    SameText(line[..at] + "=", mid, gap, value, rest);
  }

  lemma SameText(front: string, mid: string, gap: string, value: string, rest: string)
    requires gap == "" || (gap == " " && rest != "" && rest[0] != ' ')
    ensures front + (mid + gap + value) == front + (mid + rest) <==> gap == "" && rest == value
  {
    var new_, old_ := mid + gap + value, mid + rest;
    assert (front + new_)[|front|..] == new_ && (front + old_)[|front|..] == old_;
    assert new_[|mid|..] == gap + value && old_[|mid|..] == rest;
    assert (" " + value)[0] == ' ' && "" + value == value && mid + "" == mid;
  }

  /** A space is only put in front of a text that does not start with one. */
  lemma GapIsNoBlank(line: string, at: nat, pretty: bool)
    requires IsSeparator(line, at) && Skipped(line, at + 1) <= |line| - at - 1
    ensures RewriteGap(line, at, pretty) == "" || RewriteGap(line, at, pretty) == " "
    ensures var rest := line[at + 1..][Skipped(line, at + 1)..];
      RewriteGap(line, at, pretty) != "" ==> rest != "" && rest[0] != ' '
  {
    hide Blanked;
    BlankedRest(line, at);
  }

  /** A line on which a value is replaced stays as it is exactly when the value is the old one, or the
      old one starts with an escaped '=' that the search skips and the new one is what stands behind it. */
  lemma ReplacedSame(line: string, value: string, pretty: bool)
    requires ParseLine(line).KeyValue? && IsTrimmed(value) && Readable(ParseLine(line).key, value)
    ensures var old_ := ParseLine(line).value;
      EntryOutput(line, old_, value, pretty) == line <==>
      value == old_ || ("\\=" <= old_ && ReplacedPart(line) == value)
  {
    hide ParseLine, Separator, Trim, Blanked, RewriteLine, Skipped, ReplacedPart, Readable;
    SkipsEscape(line);
    TrimOfTrimmed(value);
    RewriteSame(line, value, pretty);
    RewriteRoundTrip(line, value, pretty);
  }

  /** Writing a new value on an old entry line keeps the key, and the value comes back exactly
      when the old one did not start with an escaped '=', which the search for it skips. */
  lemma RewriteRoundTrip(line: string, value: string, pretty: bool)
    requires ParseLine(line).KeyValue?
    requires Readable(ParseLine(line).key, Trim(value))
    ensures var old_, new_ := ParseLine(line), ParseLine(RewriteLine(line, value, pretty));
      && new_.KeyValue? && new_.key == old_.key
      && (new_.value == Trim(value) <==> !("\\=" <= old_.value))
  {
    hide ParseLine, Separator, Trim, UnescapeKey, Blanked, RewriteLine, RewriteMid, RewriteGap, Skipped;
    var before, cut, tail := EntryPart(line);
    SeparatorOfPart(before, cut, tail);
    SeparatorIs(line);
    var n := Separator(cut);
    var at := |before| + n;
    assert line[at + 1..] == cut[n + 1..] + tail && line[..at] == before + cut[..n];
    RewriteParts(line, at, value, pretty);
    RewriteValueBack(line, at, value, pretty);
    OldValueStart(cut, n, tail);
    if cut[0] == '[' {
      assert cut[n] == '=';
      BracketKey(cut, n);
      RewriteLacks(line, at, value, pretty);
    }
    KeptPrefix(before, cut, RewriteMid(line, at) + RewriteGap(line, at, pretty) + Trim(value));
  }

  /** For example a value \=b cannot be changed to c in place. */
  lemma EscapedValueStays(pretty: bool)
    ensures var line := EntryLine("a", "\\=b", false);
      ParseLine(line) == KeyValue("a", "\\=b") && ParseLine(RewriteLine(line, "c", pretty)) != KeyValue("a", "c")
  {
    hide ParseLine, RewriteLine, EntryLine;
    TrimOfTrimmed("\\=b");
    TrimOfTrimmed("c");
    EntryRoundTrip("a", "\\=b", false);
    RewriteRoundTrip(EntryLine("a", "\\=b", false), "c", pretty);
  }
}
