/** Lazy writing keeps the comments of the old file, in order, unless a new key would itself
    be read as one. */
module IniComments {
  import opened Text
  import opened IniParser
  import opened IniEntry
  import opened IniMap
  import opened IniReader
  import opened IniGenerator
  import opened IniMeaning
  import opened IniWriter
  import opened IniRewrite
  import opened IniLazy

  function Comments(lines: seq<string>): seq<string>
    decreases lines
  {
    if lines == [] then []
    else (if ParseLine(lines[0]).Comment? then [lines[0]] else []) + Comments(lines[1..])
  }

  predicate NoComments(lines: seq<string>) { forall i | 0 <= i < |lines| :: !ParseLine(lines[i]).Comment? }

  lemma {:induction false} CommentsSplit(a: seq<string>, b: seq<string>)
    ensures Comments(a + b) == Comments(a) + Comments(b)
    decreases |a|
  {
    hide ParseLine;
    if a == [] {
      assert a + b == b;
    } else {
      assert (a + b)[1..] == a[1..] + b;
      CommentsSplit(a[1..], b);
    }
  }

  lemma {:induction false} NoCommentsAtAll(lines: seq<string>)
    ensures NoComments(lines) <==> Comments(lines) == []
    decreases |lines|
  {
    hide ParseLine;
    if lines != [] {
      NoCommentsAtAll(lines[1..]);
      assert NoComments(lines) <==> !ParseLine(lines[0]).Comment? && NoComments(lines[1..]);
    }
  }

  lemma {:induction false} CommentsOne(lines: seq<string>, line: string)
    ensures Comments(lines + [line]) == Comments(lines) + if ParseLine(line).Comment? then [line] else []
  {
    hide ParseLine;
    CommentsSplit(lines, [line]);
    assert [line][1..] == [] && Comments([]) == [];
  }

  predicate CommentKey(key: string) { key != "" && key[0] == ';' }

  /** A comment is a line whose first character that is not whitespace is ';'. */
  lemma CommentLine(before: string, rest: string)
    requires AllSpace(before) && rest != "" && !IsSpace(rest[0])
    ensures ParseLine(before + rest).Comment? <==> rest[0] == ';'
  {
    hide Blanked, UnescapeKey;
    var e := EndOfInk(rest);
    assert 0 < e;
    var t := rest[..e];
    assert before + rest == before + t + rest[e..];
    TrimUnique(before, t, rest[e..]);
  }

  lemma EntryLineComment(key: string, value: string, pretty: bool)
    requires IsTrimmed(key)
    ensures ParseLine(EntryLine(key, value, pretty)).Comment? <==> CommentKey(key)
  {
    hide ParseLine, EscapeKey, Trim;
    EscapedShape(key);
    var line := EntryLine(key, value, pretty);
    if key == "" {
      var before := if pretty then " " else "";
      CommentLine(before, (if pretty then "= " else "=") + Trim(value));
      assert line == before + ((if pretty then "= " else "=") + Trim(value));
    } else {
      assert line[0] == EscapeKey(key)[0];
      CommentLine("", line);
      assert "" + line == line;
    }
  }

  /** A rewritten entry is never a comment. */
  lemma RewriteComment(line: string, value: string, pretty: bool)
    requires ParseLine(line).KeyValue?
    ensures !ParseLine(RewriteLine(line, value, pretty)).Comment?
  {
    hide ParseLine, Separator, Trim, Blanked, RewriteLine, RewriteMid, RewriteGap, Skipped;
    var before, cut, tail := EntryPart(line);
    SeparatorOfPart(before, cut, tail);
    SeparatorIs(line);
    var n := Separator(cut);
    var at := |before| + n;
    RewriteParts(line, at, value, pretty);
    var rest := cut[..n] + "=" + (RewriteMid(line, at) + RewriteGap(line, at, pretty) + Trim(value));
    assert line[..at] == before + cut[..n];
    assert RewriteLine(line, value, pretty) == before + rest;
    assert rest[0] == cut[0] by { assert cut[n] == '='; }
    CommentLine(before, rest);
  }

  /** The new keys of a section that would be read as comments. */
  predicate HasCommentKey(entries: Entries, known: Entries) {
    exists j | 0 <= j < |entries| :: !Has(known, entries[j].0) && CommentKey(entries[j].0)
  }

  lemma {:induction false} AddedComments(entries: Entries, known: Entries, pretty: bool)
    requires AllNormal(entries)
    ensures Comments(AddedLines(entries, known, pretty)) == [] <==> !HasCommentKey(entries, known)
    decreases |entries|
  {
    hide ParseLine, EntryLine, Normal, Find, CommentKey;
    if entries != [] {
      var (key, value) := entries[0];
      var rest := AddedLines(entries[1..], known, pretty);
      AddedComments(entries[1..], known, pretty);
      NormalShape(key);
      EntryLineComment(key, value, pretty);
      assert [] + rest == rest;
      assert ([EntryLine(key, value, pretty)] + rest)[1..] == rest;
      HasCommentKeyStep(entries, known);
    }
  }

  lemma HasCommentKeyStep(entries: Entries, known: Entries)
    requires entries != []
    ensures HasCommentKey(entries, known) <==>
      (!Has(known, entries[0].0) && CommentKey(entries[0].0)) || HasCommentKey(entries[1..], known)
  {
    hide Find, CommentKey;
    if HasCommentKey(entries[1..], known) {
      var j :| 0 <= j < |entries| - 1 && !Has(known, entries[1..][j].0) && CommentKey(entries[1..][j].0);
      assert entries[j + 1] == entries[1..][j];
    }
    if HasCommentKey(entries, known) {
      var j :| 0 <= j < |entries| && !Has(known, entries[j].0) && CommentKey(entries[j].0);
      assert 0 < j ==> entries[1..][j - 1] == entries[j];
    }
  }

  // ---- the merge ----

  lemma {:induction false} FlushComments(job: Job, st: LazyState)
    ensures var news := Comments(NewKeyLines(job, st.section));
      && |Comments(Flush(job, st).output)| == |Comments(st.output)| + |news|
      && (news == [] ==> Comments(Flush(job, st).output) == Comments(st.output))
  {
    hide Comments, NewKeyLines;
    var head, adds, tail := st.output[..st.keyEnd], NewKeyLines(job, st.section), st.output[st.keyEnd..];
    CommentsSplit(head + adds, tail);
    CommentsSplit(head, adds);
    CommentsSplit(head, tail);
    assert st.output == head + tail;
  }

  /** One line adds itself when it is a comment, and the new keys of a section that ends. */
  lemma {:induction false} LineComments(job: Job, st: LazyState, line: string)
    ensures var next := LazyLine(job, st, line);
      var own := if ParseLine(line).Comment? then [line] else [];
      var news := if ParseLine(line).Section? && st.parsing then Comments(NewKeyLines(job, st.section)) else [];
      && |Comments(next.output)| == |Comments(st.output)| + |news| + |own|
      && (news == [] ==> Comments(next.output) == Comments(st.output) + own)
  {
    hide ParseLine, Comments, NewKeyLines, Flush, Find, Normal, RewriteLine;
    var next := LazyLine(job, st, line);
    if ParseLine(line).Section? {
      if st.parsing { FlushComments(job, st); }
      var base := if st.parsing then Flush(job, st) else st;
      CommentsOne(base.output, line);
      assert Comments(base.output) + [] == Comments(base.output);
    } else if ParseLine(line).KeyValue? {
      var key, value := Normal(ParseLine(line).key), ParseLine(line).value;
      if next.output != st.output {
        var newValue := Get(Get(job.data, st.section), key);
        RewriteComment(line, newValue, job.pretty);
        CommentsOne(st.output, EntryOutput(line, value, newValue, job.pretty));
      }
      assert Comments(st.output) + [] == Comments(st.output);
    } else {
      EmptyIsNothing();
      CommentsOne(st.output, line);
      assert Comments(st.output) + [] == Comments(st.output);
    }
  }

  predicate HeaderOf(line: string, s: string) {
    ParseLine(line).Section? && Normal(ParseLine(line).name) == s
  }

  predicate HeaderIn(lines: seq<string>, s: string) { exists i | 0 <= i < |lines| :: HeaderOf(lines[i], s) }

  lemma HeaderInStep(lines: seq<string>, s: string)
    requires lines != []
    ensures HeaderIn(lines, s) <==> HeaderOf(lines[0], s) || HeaderIn(lines[1..], s)
  {
    hide HeaderOf;
    if HeaderIn(lines[1..], s) {
      var i :| 0 <= i < |lines| - 1 && HeaderOf(lines[1..][i], s);
      assert lines[i + 1] == lines[1..][i];
    }
    if HeaderIn(lines, s) {
      var i :| 0 <= i < |lines| && HeaderOf(lines[i], s);
      assert 0 < i ==> lines[1..][i - 1] == lines[i];
    }
  }

  /** A section that was read had a header. */
  lemma {:induction false} ReadSectionsHaveHeaders(o: State, lines: seq<string>, s: string)
    requires s in Effects(o, lines).sections
    ensures s in o.sections || HeaderIn(lines, s)
    decreases |lines|
  {
    hide ParseLine, Normal;
    if lines != [] {
      ReadSectionsHaveHeaders(Effect(o, ParseLine(lines[0])), lines[1..], s);
      HeaderInStep(lines, s);
    }
  }

  predicate Pending(st: LazyState, s: string) { st.parsing && st.section == s }

  /** No comment is lost, none is added when no new key looks like one, and the comments among
      the new keys of a section appear when the section ends. */
  lemma {:induction false} LinesComments(job: Job, st: LazyState, lines: seq<string>, s: string)
    ensures var last := LazyLines(job, st, lines);
      && |Comments(last.output)| >= |Comments(st.output)| + |Comments(lines)|
      && ((forall t :: Comments(NewKeyLines(job, t)) == []) ==>
            Comments(last.output) == Comments(st.output) + Comments(lines))
      && (&& Comments(NewKeyLines(job, s)) != [] && Has(job.data, s)
          && (Pending(st, s) || HeaderIn(lines, s)) && !Pending(last, s) ==>
          |Comments(last.output)| > |Comments(st.output)| + |Comments(lines)|)
    decreases |lines|
  {
    hide ParseLine, Normal, Find, NewKeyLines, LazyLine, HeaderOf, Comments, Pending, HeaderIn;
    NoCommentsAtAll([]);
    Regroup(Comments(st.output), [], []);
    if lines == [] {
      NoHeaderIn(s);
    } else {
      var next := LazyLine(job, st, lines[0]);
      var own := if ParseLine(lines[0]).Comment? then [lines[0]] else [];
      LineComments(job, st, lines[0]);
      LineSection(job, st, lines[0], s);
      PendingIs(st, s);
      HeaderInStep(lines, s);
      LinesComments(job, next, lines[1..], s);
      FirstComment(lines);
      Regroup(Comments(st.output), own, Comments(lines[1..]));
    }
  }

  lemma NoHeaderIn(s: string)
    ensures !HeaderIn([], s)
  {
  }

  lemma PendingIs(st: LazyState, s: string)
    ensures Pending(st, s) ==> st.parsing && st.section == s
  {
  }

  lemma FirstComment(lines: seq<string>)
    requires lines != []
    ensures Comments(lines) == (if ParseLine(lines[0]).Comment? then [lines[0]] else []) + Comments(lines[1..])
  {
    hide ParseLine;
  }

  lemma LineSection(job: Job, st: LazyState, line: string, s: string)
    ensures var next := LazyLine(job, st, line);
      && (ParseLine(line).Section? && Has(job.data, s) && HeaderOf(line, s) ==> Pending(next, s))
      && (!ParseLine(line).Section? ==> !HeaderOf(line, s) && (Pending(next, s) <==> Pending(st, s)))
  {
    hide ParseLine, Normal, Find, NewKeyLines, EntryOutput;
  }

  /** The sections whose new keys would be read as comments. */
  predicate NewComment(job: Job, s: string) {
    Has(job.data, s) && HasCommentKey(Get(job.data, s), if Has(job.original, s) then Get(job.original, s) else [])
  }

  lemma {:induction false} NewKeyComments(job: Job, s: string)
    requires JobOk(job)
    ensures Comments(NewKeyLines(job, s)) != [] <==> Has(job.original, s) && NewComment(job, s)
  {
    hide ParseLine, Comments, AddedLines, Find, Normal, HasCommentKey;
    assert Comments([]) == [] by { NoCommentsAtAll([]); }
    if Has(job.data, s) && Has(job.original, s) {
      AddedComments(Get(job.data, s), Get(job.original, s), job.pretty);
    }
  }

  lemma {:induction false} MergedComments(job: Job, lines: seq<string>, s: string)
    requires JobOk(job) && Flat(job.original) == MeaningOf(lines)
    ensures var merged := Comments(MergedLines(job, lines));
      && |merged| >= |Comments(lines)|
      && ((forall t :: Has(job.original, t) ==> !NewComment(job, t)) ==> merged == Comments(lines))
      && (Has(job.original, s) && NewComment(job, s) ==> |merged| > |Comments(lines)|)
  {
    hide ParseLine, Normal, Find, NewKeyLines, NewComment, LazyLines, Flat, HeaderIn, Comments, Effects, StructureOk;
    FlatHas(job.original, s);
    forall t ensures Comments(NewKeyLines(job, t)) != [] <==> Has(job.original, t) && NewComment(job, t) {
      NewKeyComments(job, t);
    }
    NoCommentsAtAll([]);
    if lines == [] {
      NoSections();
    } else {
      var last := LazyLines(job, START, lines);
      LinesComments(job, START, lines, s);
      FlushComments(job, last);
      assert Comments(START.output) + Comments(lines) == Comments(lines);
      if Has(job.original, s) { ReadSectionsHaveHeaders(NOWHERE, lines, s); }
      NewCommentHas(job, s);
    }
  }

  lemma NewCommentHas(job: Job, s: string)
    ensures NewComment(job, s) ==> Has(job.data, s)
  {
  }

  lemma NoSections()
    ensures MeaningOf([]) == map[]
  {
  }

  lemma {:induction false} BlockComments(name: string, entries: Entries, pretty: bool)
    requires AllNormal(entries)
    ensures Comments(Block(name, entries, pretty)) == [] <==> !HasCommentKey(entries, [])
  {
    hide ParseLine, Normal, EntryLine, HasCommentKey, AddedLines;
    EntryLinesAreAdded(entries, pretty);
    AddedComments(entries, [], pretty);
    var lines := Block(name, entries, pretty);
    CommentLine("", SectionLine(name));
    assert "" + SectionLine(name) == SectionLine(name);
    assert lines[1..] == EntryLines(entries, pretty);
    assert [] + Comments(lines[1..]) == Comments(lines[1..]);
  }

  /** No new section holds a key that would be read as a comment. */
  predicate QuietSections(sections: Structure, original: Structure)
    decreases sections
  {
    sections == [] ||
    ((Has(original, sections[0].0) || !HasCommentKey(sections[0].1, [])) && QuietSections(sections[1..], original))
  }

  lemma {:induction false} QuietSectionsIs(sections: Structure, original: Structure)
    requires WellFormed(sections)
    ensures QuietSections(sections, original) <==>
      forall s | Has(sections, s) && !Has(original, s) :: !HasCommentKey(Get(sections, s), [])
    decreases |sections|
  {
    hide Find, HasCommentKey, WellFormed;
    if sections == [] {
      NothingFound<Entries>();
    } else {
      TailWellFormed(sections);
      FirstIsFound(sections);
      QuietSectionsIs(sections[1..], original);
    }
  }

  lemma {:induction false} AppendComments(job: Job, output: seq<string>, sections: Structure)
    requires forall i | 0 <= i < |sections| :: AllNormal(sections[i].1)
    ensures var all := Comments(AppendSections(job, output, sections));
      && |all| >= |Comments(output)|
      && (if QuietSections(sections, job.original) then all == Comments(output) else |all| > |Comments(output)|)
    decreases |sections|
  {
    hide ParseLine, Normal, WithSection, Comments, Find, HasCommentKey, AllNormal, Block;
    if sections != [] {
      var (name, entries) := sections[0];
      SectionComments(job, output, name, entries);
      BlockComments(name, entries, job.pretty);
      AppendComments(job, WithSection(job, output, name, entries), sections[1..]);
    }
  }

  /** A new section adds the comments of its block. */
  lemma {:induction false} SectionComments(job: Job, output: seq<string>, name: string, entries: Entries)
    ensures Comments(WithSection(job, output, name, entries)) ==
      Comments(output) + if Has(job.original, name) then [] else Comments(Block(name, entries, job.pretty))
  {
    hide ParseLine, Normal, Block, Comments, Find, Gap;
    var gap, block := Gap(output, job.pretty), Block(name, entries, job.pretty);
    CommentsSplit(output + gap, block);
    CommentsSplit(output, gap);
    EmptyIsNothing();
    NoCommentsAtAll(gap);
    Regroup(Comments(output), [], []);
  }

  // ---- no comment is lost ----

  /** Some of the elements of b, in their order, are a. */
  predicate Sub<T(==)>(a: seq<T>, b: seq<T>)
    decreases |b|
  {
    a == [] || (b != [] && ((a[0] == b[0] && Sub(a[1..], b[1..])) || Sub(a, b[1..])))
  }

  lemma {:induction false} SubSelf<T>(a: seq<T>)
    ensures Sub(a, a)
    decreases |a|
  {
    if a != [] { SubSelf(a[1..]); }
  }

  lemma {:induction false} SubBoth<T>(a: seq<T>, b: seq<T>, c: seq<T>, d: seq<T>)
    requires Sub(a, b) && Sub(c, d)
    ensures Sub(a + c, b + d)
    decreases |b|
  {
    if b == [] {
      assert a + c == c && b + d == d;
    } else {
      assert (b + d)[1..] == b[1..] + d;
      if a == [] {
        SubBoth([], b[1..], c, d);
        assert [] + c == a + c == c;
      } else if a[0] == b[0] && Sub(a[1..], b[1..]) {
        assert (a + c)[1..] == a[1..] + c;
        SubBoth(a[1..], b[1..], c, d);
      } else {
        SubBoth(a, b[1..], c, d);
      }
    }
  }

  lemma {:induction false} SubInsert<T>(a: seq<T>, head: seq<T>, added: seq<T>, tail: seq<T>)
    requires Sub(a, head + tail)
    ensures Sub(a, head + added + tail)
    decreases |head|
  {
    if head == [] {
      assert head + tail == tail && head + added + tail == added + tail;
      SubBoth([], added, a, tail);
      assert [] + a == a;
    } else if a != [] {
      assert (head + tail)[1..] == head[1..] + tail && (head + added + tail)[1..] == head[1..] + added + tail;
      if a[0] == head[0] && Sub(a[1..], head[1..] + tail) {
        SubInsert(a[1..], head[1..], added, tail);
      } else {
        SubInsert(a, head[1..], added, tail);
      }
    }
  }

  lemma {:induction false} FlushSub(job: Job, st: LazyState, old_: seq<string>)
    requires Sub(old_, Comments(st.output))
    ensures Sub(old_, Comments(Flush(job, st).output))
  {
    hide Comments, NewKeyLines, Sub;
    var head, adds, tail := st.output[..st.keyEnd], NewKeyLines(job, st.section), st.output[st.keyEnd..];
    CommentsSplit(head + adds, tail);
    CommentsSplit(head, adds);
    CommentsSplit(head, tail);
    assert st.output == head + tail;
    SubInsert(old_, Comments(head), Comments(adds), Comments(tail));
  }

  lemma {:induction false} LineSub(job: Job, st: LazyState, line: string, old_: seq<string>)
    requires Sub(old_, Comments(st.output))
    ensures Sub(old_ + Comments([line]), Comments(LazyLine(job, st, line).output))
  {
    hide ParseLine, NewKeyLines, Flush, Find, Normal, EntryOutput, Sub, Comments;
    var base := if ParseLine(line).Section? && st.parsing then Flush(job, st) else st;
    FlushSub(job, st, old_);
    CommentsOne([], line);
    NoCommentsAtAll([]);
    assert [] + [line] == [line];
    Regroup(old_, [], []);
    EmptyIsNothing();
    var next := LazyLine(job, st, line);
    if next.output != base.output {
      var written := next.output[|base.output|];
      assert next.output == base.output + [written];
      CommentsSplit(base.output, [written]);
      NothingSub(Comments([written]));
      SubSelf(Comments([line]));
      SubBoth(old_, Comments(base.output), Comments([line]), Comments([written]));
    }
  }

  lemma NothingSub<T>(b: seq<T>)
    ensures Sub([], b)
  {
  }

  lemma {:induction false} LinesSub(job: Job, st: LazyState, lines: seq<string>, old_: seq<string>)
    requires Sub(old_, Comments(st.output))
    ensures Sub(old_ + Comments(lines), Comments(LazyLines(job, st, lines).output))
    decreases |lines|
  {
    hide LazyLine, Sub, Comments;
    NoCommentsAtAll([]);
    Regroup(old_, [], []);
    if lines != [] {
      var own := Comments([lines[0]]);
      LineSub(job, st, lines[0], old_);
      LinesSub(job, LazyLine(job, st, lines[0]), lines[1..], old_ + own);
      CommentsSplit([lines[0]], lines[1..]);
      assert [lines[0]] + lines[1..] == lines;
      Regroup(old_, own, Comments(lines[1..]));
    }
  }

  lemma {:induction false} AppendSub(job: Job, output: seq<string>, sections: Structure, old_: seq<string>)
    requires Sub(old_, Comments(output))
    ensures Sub(old_, Comments(AppendSections(job, output, sections)))
    decreases |sections|
  {
    hide WithSection, Comments, Sub, Find, Block;
    if sections != [] {
      var (name, entries) := sections[0];
      var added := if Has(job.original, name) then [] else Comments(Block(name, entries, job.pretty));
      SectionComments(job, output, name, entries);
      NothingSub(added);
      SubBoth(old_, Comments(output), [], added);
      Regroup(old_, [], []);
      AppendSub(job, WithSection(job, output, name, entries), sections[1..], old_);
    }
  }

  /** Whatever is written over whatever file, no comment of it is lost, and the comments keep their order. */
  lemma {:induction false} CommentsStay(job: Job, lines: seq<string>)
    ensures Sub(Comments(lines), Comments(LazyOutput(job, lines)))
  {
    hide Comments, LazyLines, Flush, AppendSections, Sub;
    NoCommentsAtAll([]);
    NothingSub(Comments([]));
    if lines != [] {
      LinesSub(job, START, lines, []);
      Regroup(Comments(lines), [], []);
      FlushSub(job, LazyLines(job, START, lines), Comments(lines));
    }
    AppendSub(job, MergedLines(job, lines), job.data, Comments(lines));
  }

  /** The comments of the old file are exactly the comments of the new one, in order, unless a
      new key starts with ';'; then there are more. */
  lemma {:induction false} CommentsKept(job: Job, lines: seq<string>)
    requires JobOk(job) && Flat(job.original) == MeaningOf(lines)
    ensures Comments(LazyOutput(job, lines)) == Comments(lines) <==> forall s :: !NewComment(job, s)
    ensures |Comments(LazyOutput(job, lines))| >= |Comments(lines)|
  {
    hide ParseLine, Normal, Find, Flat, MergedLines, AppendSections, Comments, QuietSections, HasCommentKey, MeaningOf;
    hide WellFormed;
    var merged := MergedLines(job, lines);
    assert forall i | 0 <= i < |job.data| :: AllNormal(job.data[i].1) by { InnerNormal(job.data); }
    AppendComments(job, merged, job.data);
    QuietSectionsIs(job.data, job.original);
    if forall s :: !NewComment(job, s) {
      MergedComments(job, lines, "");
      forall s | Has(job.data, s) && !Has(job.original, s) ensures !HasCommentKey(Get(job.data, s), []) {
        assert !NewComment(job, s);
      }
    } else {
      var s :| NewComment(job, s);
      MergedComments(job, lines, s);
    }
  }

  lemma {:induction false} InnerNormal(s: Structure)
    requires StructureOk(s)
    ensures forall i | 0 <= i < |s| :: AllNormal(s[i].1)
  {
    hide Normal;
  }

  /** For example a new key ;a in a new file. */
  lemma NewKeyBecomesComment(pretty: bool)
    ensures var job := Job([("s", [(";a", "1")])], [], pretty);
      JobOk(job) && Comments(LazyOutput(job, [])) != Comments([])
  {
    hide LazyOutput, Comments;
    var entries: Entries := [(";a", "1")];
    var job := Job([("s", entries)], [], pretty);
    NormalOfPlain("s");
    NormalOfPlain(";a");
    assert Flat(job.original) == MeaningOf([]);
    assert !Has<string>([], entries[0].0) && CommentKey(entries[0].0);
    assert NewComment(job, "s");
    CommentsKept(job, []);
  }
}
