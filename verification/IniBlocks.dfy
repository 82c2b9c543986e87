/** Where everything goes in a merged file: the preamble, and section by section the header, the entries that stay,
    the new keys behind the last of them, and the comments and blank lines. */
module IniBlocks {
  import opened Text
  import opened IniParser
  import opened IniEntry
  import opened IniMap
  import opened IniReader
  import opened IniGenerator
  import opened IniWriter
  import opened IniLazy

  // ---- the parts of a file ----

  /** A header and the lines up to the next one. */
  datatype Part = Part(header: string, body: seq<string>)

  predicate IsHeader(line: string) { ParseLine(line).Section? }

  predicate NoHeaders(lines: seq<string>) { forall i | 0 <= i < |lines| :: !IsHeader(lines[i]) }

  /** The number of lines in front of the first header. */
  function ToHeader(lines: seq<string>): (n: nat)
    ensures n <= |lines|
  {
    if lines == [] || IsHeader(lines[0]) then 0 else 1 + ToHeader(lines[1..])
  }

  lemma {:induction false} ToHeaderIs(lines: seq<string>)
    ensures var n := ToHeader(lines); NoHeaders(lines[..n]) && (n < |lines| ==> IsHeader(lines[n]))
  {
    hide IsHeader;
    if lines != [] && !IsHeader(lines[0]) {
      ToHeaderIs(lines[1..]);
      var n := ToHeader(lines[1..]);
      forall i | 0 <= i < n + 1 ensures !IsHeader(lines[i]) {
        if i > 0 { assert lines[i] == lines[1..][..n][i - 1]; }
      }
    }
  }

  function PartsOf(lines: seq<string>): seq<Part>
    decreases |lines|
  {
    if lines == [] then []
    else
      var n := ToHeader(lines[1..]) + 1;
      [Part(lines[0], lines[1..n])] + PartsOf(lines[n..])
  }

  // ---- what is written of a part ----

  /** An old entry of a section with a key that the data has. */
  predicate Stays(job: Job, section: string, line: string) {
    && ParseLine(line).KeyValue?
    && Has(job.data, section) && Has(Get(job.data, section), Normal(ParseLine(line).key))
  }

  predicate IsQuiet(line: string) { ParseLine(line).Nothing? || ParseLine(line).Comment? }

  function WrittenOne(job: Job, section: string, line: string): (r: seq<string>)
    ensures |r| <= 1
  {
    if IsQuiet(line) then [line]
    else if Stays(job, section, line) then
      var old_ := ParseLine(line);
      [EntryOutput(line, old_.value, Get(Get(job.data, section), Normal(old_.key)), job.pretty)]
    else []
  }

  /** Comments and blank lines are kept, and so are entries that stay, with their new values. */
  function Written(job: Job, section: string, body: seq<string>): seq<string>
    decreases |body|
  {
    if body == [] then []
    else Written(job, section, body[..|body| - 1]) + WrittenOne(job, section, body[|body| - 1])
  }

  /** The comments and blank lines alone. */
  function Quiet(body: seq<string>): seq<string> {
    if body == [] then []
    else Quiet(body[..|body| - 1]) + if IsQuiet(body[|body| - 1]) then [body[|body| - 1]] else []
  }

  /** The number of lines up to the last entry that stays. */
  function ToLastEntry(job: Job, section: string, body: seq<string>): (n: nat)
    ensures n <= |body|
  {
    if body == [] then 0
    else if Stays(job, section, body[|body| - 1]) then |body|
    else ToLastEntry(job, section, body[..|body| - 1])
  }

  /** The new keys of a section stand behind its last entry that stays, or behind its header. */
  function WithNewKeys(job: Job, section: string, body: seq<string>): seq<string> {
    var n := ToLastEntry(job, section, body);
    Written(job, section, body[..n]) + NewKeyLines(job, section) + Quiet(body[n..])
  }

  function WithoutFirstEmpty(body: seq<string>): seq<string> {
    if body == [] then [] else if body[0] == "" then body[1..] else [body[0]] + WithoutFirstEmpty(body[1..])
  }

  function PartOutput(job: Job, part: Part): seq<string>
    requires IsHeader(part.header)
  {
    var section := Normal(ParseLine(part.header).name);
    if Has(job.data, section) then [part.header] + WithNewKeys(job, section, part.body)
    else Quiet(WithoutFirstEmpty(part.body))
  }

  predicate AllHeaded(parts: seq<Part>) { forall i | 0 <= i < |parts| :: IsHeader(parts[i].header) }

  function PartsOutput(job: Job, parts: seq<Part>): seq<string>
    requires AllHeaded(parts)
  {
    if parts == [] then [] else PartOutput(job, parts[0]) + PartsOutput(job, parts[1..])
  }

  lemma {:induction false} PartsAreHeaded(lines: seq<string>)
    requires lines == [] || IsHeader(lines[0])
    ensures AllHeaded(PartsOf(lines))
    decreases |lines|
  {
    hide IsHeader;
    if lines != [] {
      var n := ToHeader(lines[1..]) + 1;
      ToHeaderIs(lines[1..]);
      assert n < |lines| ==> lines[1..][n - 1] == lines[n];
      PartsAreHeaded(lines[n..]);
    }
  }

  // ---- one part ----

  lemma {:induction false} LazySnoc(job: Job, st: LazyState, lines: seq<string>)
    requires lines != []
    ensures var n := |lines| - 1; LazyLines(job, st, lines) == LazyLine(job, LazyLines(job, st, lines[..n]), lines[n])
    decreases |lines|
  {
    hide LazyLine;
    var n := |lines| - 1;
    if n > 0 {
      LazySnoc(job, LazyLine(job, st, lines[0]), lines[1..]);
      assert lines[1..][..n - 1] == lines[..n][1..];
    }
  }

  /** One line of a section that is written. */
  lemma LineWritten(job: Job, st: LazyState, line: string)
    requires !IsHeader(line) && !st.skipping && !st.discard
    ensures LazyLine(job, st, line) == st.(output := st.output + WrittenOne(job, st.section, line),
      keyEnd := if Stays(job, st.section, line) then |st.output| + 1 else st.keyEnd)
    ensures Stays(job, st.section, line) ==> |WrittenOne(job, st.section, line)| == 1
  {
    hide ParseLine, Find, EntryOutput;
    assert st.output + [] == st.output;
  }

  lemma WrittenSnoc(job: Job, section: string, body: seq<string>, line: string)
    ensures Written(job, section, body + [line]) == Written(job, section, body) + WrittenOne(job, section, line)
    ensures ToLastEntry(job, section, body + [line]) ==
      if Stays(job, section, line) then |body| + 1 else ToLastEntry(job, section, body)
  {
    hide Stays, WrittenOne;
    assert (body + [line])[..|body|] == body;
  }

  /** A section that is written: where its lines go, and where its keys end. */
  lemma {:induction false} SectionBody(job: Job, st: LazyState, body: seq<string>)
    requires NoHeaders(body) && !st.skipping && !st.discard
    ensures var n := ToLastEntry(job, st.section, body);
      LazyLines(job, st, body) == st.(output := st.output + Written(job, st.section, body),
        keyEnd := if n == 0 then st.keyEnd else |st.output| + |Written(job, st.section, body[..n])|)
    decreases |body|
  {
    hide IsHeader, LazyLine, LazyLines, Stays, WrittenOne, Written, ToLastEntry;
    if body == [] {
      NothingLazy(job, st);
      assert st.output + [] == st.output;
    } else {
      var k := |body| - 1;
      var front := body[..k];
      SectionBody(job, st, front);
      LazySnoc(job, st, body);
      assert body == front + [body[k]];
      WrittenSnoc(job, st.section, front, body[k]);
      LineWritten(job, LazyLines(job, st, front), body[k]);
      var n := ToLastEntry(job, st.section, front);
      assert front[..n] == body[..n] && body[..|body|] == body;
      Regroup(st.output, Written(job, st.section, front), WrittenOne(job, st.section, body[k]));
    }
  }

  lemma NothingLazy(job: Job, st: LazyState)
    ensures LazyLines(job, st, []) == st && Written(job, st.section, []) == [] && ToLastEntry(job, st.section, []) == 0
  {
  }

  /** A section that is left out: its first empty line goes with it. */
  lemma {:induction false} SkippedBody(job: Job, st: LazyState, body: seq<string>)
    requires NoHeaders(body) && st.skipping && st.discard
    ensures LazyLines(job, st, body) ==
      st.(output := st.output + Quiet(WithoutFirstEmpty(body)), discard := "" !in body)
    decreases |body|
  {
    hide IsHeader, LazyLine, LazyLines, Quiet, WithoutFirstEmpty, IsQuiet;
    NoQuiet();
    if body == [] {
      NothingLazy(job, st);
      assert st.output + [] == st.output;
    } else {
      var k := |body| - 1;
      var front := body[..k];
      SkippedBody(job, st, front);
      LazySnoc(job, st, body);
      assert body == front + [body[k]];
      FirstEmptySnoc(front, body[k]);
      QuietSnoc(WithoutFirstEmpty(front), body[k]);
      LineSkipped(job, LazyLines(job, st, front), body[k]);
      Regroup(st.output, Quiet(WithoutFirstEmpty(front)), if IsQuiet(body[k]) then [body[k]] else []);
    }
  }

  lemma NoQuiet()
    ensures Quiet([]) == [] && WithoutFirstEmpty([]) == []
  {
  }

  lemma LineSkipped(job: Job, st: LazyState, line: string)
    requires !IsHeader(line) && st.skipping
    ensures LazyLine(job, st, line) ==
      if line == "" && st.discard then st.(discard := false)
      else st.(output := st.output + if IsQuiet(line) then [line] else [])
  {
    hide ParseLine, Find, EntryOutput;
    EmptyIsNothing();
    assert st.output + [] == st.output;
  }

  lemma {:induction false} FirstEmptySnoc(body: seq<string>, line: string)
    ensures WithoutFirstEmpty(body + [line]) ==
      if line == "" && "" !in body then WithoutFirstEmpty(body) else WithoutFirstEmpty(body) + [line]
    decreases |body|
  {
    if body == [] {
      assert [] + [line] == [line] && [line][1..] == [];
    } else {
      assert (body + [line])[1..] == body[1..] + [line];
      FirstEmptySnoc(body[1..], line);
      Regroup([body[0]], WithoutFirstEmpty(body[1..]), [line]);
    }
  }

  lemma QuietSnoc(body: seq<string>, line: string)
    ensures Quiet(body + [line]) == Quiet(body) + if IsQuiet(line) then [line] else []
  {
    hide IsQuiet;
    assert (body + [line])[..|body|] == body;
  }

  /** Behind the last entry that stays only comments and blank lines are written. */
  lemma {:induction false} WrittenTail(job: Job, section: string, body: seq<string>)
    ensures var n := ToLastEntry(job, section, body);
      Written(job, section, body) == Written(job, section, body[..n]) + Quiet(body[n..])
    decreases |body|
  {
    hide Stays, IsQuiet, Written, WrittenOne, Quiet, ToLastEntry;
    var n := ToLastEntry(job, section, body);
    NoQuiet();
    if n == |body| {
      assert body[..n] == body && body[n..] == [];
    } else {
      var k := |body| - 1;
      var front := body[..k];
      assert body == front + [body[k]];
      WrittenSnoc(job, section, front, body[k]);
      assert ToLastEntry(job, section, front) == n;
      WrittenTail(job, section, front);
      assert front[..n] == body[..n] && body[n..] == front[n..] + [body[k]];
      QuietSnoc(front[n..], body[k]);
      QuietOne(job, section, body[k]);
      Regroup(Written(job, section, body[..n]), Quiet(front[n..]), WrittenOne(job, section, body[k]));
    }
  }

  lemma QuietOne(job: Job, section: string, line: string)
    ensures !Stays(job, section, line) ==> WrittenOne(job, section, line) == if IsQuiet(line) then [line] else []
  {
    hide Stays, IsQuiet;
  }

  /** The part that ends at some state. */
  function Ended(job: Job, st: LazyState): seq<string> { if st.parsing then Flush(job, st).output else st.output }

  /** The new keys are inserted between the entries and what follows them. */
  lemma FlushInserts(job: Job, st: LazyState, front: seq<string>, body: seq<string>)
    requires NoHeaders(body) && !st.skipping && !st.discard && st.output == front && st.keyEnd == |front|
    ensures Flush(job, LazyLines(job, st, body)).output == front + WithNewKeys(job, st.section, body)
  {
    hide IsHeader, LazyLines, Written, ToLastEntry, Quiet, NewKeyLines;
    SectionBody(job, st, body);
    WrittenTail(job, st.section, body);
    var n, s := ToLastEntry(job, st.section, body), st.section;
    var head, tail := Written(job, s, body[..n]), Quiet(body[n..]);
    var end := LazyLines(job, st, body);
    NothingLazy(job, st);
    assert body[..0] == [];
    assert end.keyEnd == |front| + |head| && end.output == front + (head + tail);
    InsertedAt(front, head, NewKeyLines(job, s), tail);
  }

  lemma InsertedAt(front: seq<string>, head: seq<string>, new_: seq<string>, tail: seq<string>)
    ensures var all, n := front + (head + tail), |front| + |head|;
      all[..n] + new_ + all[n..] == front + (head + new_ + tail)
  {
    var all, n := front + (head + tail), |front| + |head|;
    assert all[..n] == front + head && all[n..] == tail;
  }

  lemma PartTaken(job: Job, st: LazyState, part: Part)
    requires IsHeader(part.header) && NoHeaders(part.body) && (st.skipping ==> !st.parsing)
    ensures var next := LazyLines(job, LazyLine(job, st, part.header), part.body);
      && Ended(job, next) == Ended(job, st) + PartOutput(job, part)
      && (next.skipping ==> !next.parsing) && (!next.parsing ==> !Has(job.data, next.section))
  {
    hide ParseLine, Find, LazyLines, Flush, WithNewKeys, NoHeaders, Quiet, WithoutFirstEmpty, Normal;
    var section, front := Normal(ParseLine(part.header).name), Ended(job, st);
    var st' := if st.parsing then Flush(job, st) else st;
    var begun := LazyHeader(job, st', part.header, section);
    FlushKeeps(job, st);
    assert LazyLine(job, st, part.header) == begun;
    if Has(job.data, section) {
      SectionBody(job, begun, part.body);
      FlushInserts(job, begun, front + [part.header], part.body);
      Regroup(front, [part.header], WithNewKeys(job, section, part.body));
    } else {
      SkippedBody(job, begun, part.body);
    }
  }

  lemma FlushKeeps(job: Job, st: LazyState)
    ensures var f := Flush(job, st); f.parsing == st.parsing && f.skipping == st.skipping && f.section == st.section
  {
  }

  lemma {:induction false} LazyAppend(job: Job, st: LazyState, a: seq<string>, b: seq<string>)
    ensures LazyLines(job, st, a + b) == LazyLines(job, LazyLines(job, st, a), b)
    decreases |a|
  {
    hide LazyLine;
    if a == [] {
      assert a + b == b;
    } else {
      assert (a + b)[1..] == a[1..] + b;
      LazyAppend(job, LazyLine(job, st, a[0]), a[1..], b);
    }
  }

  lemma LazyFirst(job: Job, st: LazyState, lines: seq<string>)
    requires lines != []
    ensures LazyLines(job, st, lines) == LazyLines(job, LazyLine(job, st, lines[0]), lines[1..])
  {
    hide LazyLine;
  }

  /** The parts one after the other. */
  lemma {:induction false} PartsMerged(job: Job, st: LazyState, lines: seq<string>)
    requires (lines == [] || IsHeader(lines[0])) && (st.skipping ==> !st.parsing)
    requires lines == [] && !st.parsing ==> !Has(job.data, st.section)
    ensures AllHeaded(PartsOf(lines))
    ensures Flush(job, LazyLines(job, st, lines)).output == Ended(job, st) + PartsOutput(job, PartsOf(lines))
    decreases |lines|
  {
    hide IsHeader, LazyLine, LazyLines, Flush, PartOutput;
    PartsAreHeaded(lines);
    if lines == [] {
      NothingLazy(job, st);
      if !st.parsing { FlushOfSkipped(job, st); }
      Regroup(Ended(job, st), [], []);
    } else {
      var n := ToHeader(lines[1..]) + 1;
      var part, rest := Part(lines[0], lines[1..n]), lines[n..];
      ToHeaderIs(lines[1..]);
      assert lines[1..] == part.body + rest && part.body == lines[1..][..n - 1];
      assert n < |lines| ==> lines[n] == lines[1..][n - 1];
      LazyFirst(job, st, lines);
      LazyAppend(job, LazyLine(job, st, lines[0]), part.body, rest);
      PartTaken(job, st, part);
      var next := LazyLines(job, LazyLine(job, st, lines[0]), part.body);
      PartsMerged(job, next, rest);
      Regroup(Ended(job, st), PartOutput(job, part), PartsOutput(job, PartsOf(rest)));
    }
  }

  /** The merged lines of every file and job: what stands in front of the first header, and the parts in their
      order. A file without any header is one section without a name. */
  lemma {:induction false} MergedIsParts(job: Job, lines: seq<string>)
    ensures var n := ToHeader(lines);
      && AllHeaded(PartsOf(lines[n..]))
      && MergedLines(job, lines) ==
           if lines == [] then []
           else if n == |lines| then WithNewKeys(job, "", lines)
           else Written(job, "", lines[..n]) + PartsOutput(job, PartsOf(lines[n..]))
  {
    hide IsHeader, LazyLines, Flush, Written, WithNewKeys, PartsOutput, PartsOf;
    var n := ToHeader(lines);
    ToHeaderIs(lines);
    PartsAreHeaded(lines[n..]);
    if n == |lines| {
      assert lines[..n] == lines;
      FlushInserts(job, START, [], lines);
      Regroup([], [], WithNewKeys(job, "", lines));
    } else {
      assert lines == lines[..n] + lines[n..];
      HeadersMerged(job, lines[..n], lines[n..]);
    }
  }

  lemma HeadersMerged(job: Job, front: seq<string>, rest: seq<string>)
    requires NoHeaders(front) && rest != [] && IsHeader(rest[0])
    ensures AllHeaded(PartsOf(rest))
    ensures MergedLines(job, front + rest) == Written(job, "", front) + PartsOutput(job, PartsOf(rest))
  {
    hide IsHeader, LazyLines, Flush, Written, PartsOutput, PartsOf, Ended, NoHeaders, AllHeaded;
    LazyAppend(job, START, front, rest);
    PreambleTaken(job, front);
    PartsMerged(job, LazyLines(job, START, front), rest);
  }

  lemma PreambleTaken(job: Job, front: seq<string>)
    requires NoHeaders(front)
    ensures var st := LazyLines(job, START, front);
      Ended(job, st) == Written(job, "", front) && !st.parsing && !st.skipping
  {
    hide IsHeader, LazyLines, Written, ToLastEntry;
    SectionBody(job, START, front);
    Regroup(Written(job, "", front), [], []);
  }

  // ---- what this says of a file ----

  function Flattened(parts: seq<Part>): seq<string> {
    if parts == [] then [] else [parts[0].header] + parts[0].body + Flattened(parts[1..])
  }

  /** The parts are the file: every header starts one, and no line is lost. */
  lemma {:induction false} PartsAreTheFile(lines: seq<string>)
    requires lines == [] || IsHeader(lines[0])
    ensures Flattened(PartsOf(lines)) == lines
    ensures forall i | 0 <= i < |PartsOf(lines)| ::
      IsHeader(PartsOf(lines)[i].header) && NoHeaders(PartsOf(lines)[i].body)
    decreases |lines|
  {
    hide IsHeader;
    if lines != [] {
      var n := ToHeader(lines[1..]) + 1;
      ToHeaderIs(lines[1..]);
      assert n < |lines| ==> lines[1..][n - 1] == lines[n];
      assert lines[1..n] == lines[1..][..n - 1];
      PartsAreTheFile(lines[n..]);
      ThreePieces(lines, n);
    }
  }

  lemma ThreePieces(lines: seq<string>, n: nat)
    requires 0 < n <= |lines|
    ensures lines == [lines[0]] + lines[1..n] + lines[n..]
  {
  }

  /** The new keys of a section stand directly behind its header or behind one of its entries, and between them and the
      next header there are only comments and blank lines of the old file. */
  lemma {:induction false} NewKeysStand(job: Job, part: Part) returns (n: nat, front: seq<string>)
    requires IsHeader(part.header) && Has(job.data, Normal(ParseLine(part.header).name))
    ensures var section := Normal(ParseLine(part.header).name);
      && n <= |part.body| && front != []
      && PartOutput(job, part) == front + NewKeyLines(job, section) + Quiet(part.body[n..])
      && (forall i | n <= i < |part.body| :: !Stays(job, section, part.body[i]))
      && if n == 0 then front == [part.header]
         else
           && Stays(job, section, part.body[n - 1])
           && var old_ := ParseLine(part.body[n - 1]);
              var value := Get(Get(job.data, section), Normal(old_.key));
              && front[|front| - 1] == EntryOutput(part.body[n - 1], old_.value, value, job.pretty)
              && (Readable(old_.key, Trim(value)) ==>
                    ParseLine(front[|front| - 1]).KeyValue? && ParseLine(front[|front| - 1]).key == old_.key)
  {
    hide ParseLine, Find, EntryOutput, Quiet, NewKeyLines, Readable, Normal, Trim;
    var section, body := Normal(ParseLine(part.header).name), part.body;
    n := ToLastEntry(job, section, body);
    LastEntryIs(job, section, body);
    front := [part.header] + Written(job, section, body[..n]);
    Regroup([part.header], Written(job, section, body[..n]) + NewKeyLines(job, section), Quiet(body[n..]));
    Regroup([part.header], Written(job, section, body[..n]), NewKeyLines(job, section));
    if n > 0 {
      var old_ := ParseLine(body[n - 1]);
      assert body[..n][..n - 1] == body[..n - 1];
      var value := Get(Get(job.data, section), Normal(old_.key));
      if Readable(old_.key, Trim(value)) { EntryOutputBack(body[n - 1], value, job.pretty); }
    }
  }

  lemma {:induction false} LastEntryIs(job: Job, section: string, body: seq<string>)
    ensures var n := ToLastEntry(job, section, body);
      (n > 0 ==> Stays(job, section, body[n - 1])) && forall i | n <= i < |body| :: !Stays(job, section, body[i])
    decreases |body|
  {
    hide Stays;
    if body != [] {
      LastEntryIs(job, section, body[..|body| - 1]);
      assert forall i | 0 <= i < |body| - 1 :: body[i] == body[..|body| - 1][i];
    }
  }

  /** From some position on the new sections follow, in the order of the data: each with a blank line in front, when
      they are to be pretty and there is none yet. */
  predicate AreAppended(job: Job, sections: Structure, out: seq<string>, n: nat)
    decreases |sections|
  {
    if sections == [] then n == |out|
    else if Has(job.original, sections[0].0) then AreAppended(job, sections[1..], out, n)
    else
      && n < |out|
      && var block := Block(sections[0].0, sections[0].1, job.pretty);
         var p := if job.pretty && n > 0 && out[n - 1] != "" then n + 1 else n;
         && p + |block| <= |out| && out[p..p + |block|] == block && (p > n ==> out[n] == "")
         && AreAppended(job, sections[1..], out, p + |block|)
  }

  lemma {:induction false} AppendedStay(job: Job, output: seq<string>, sections: Structure)
    ensures output <= AppendSections(job, output, sections)
    ensures AreAppended(job, sections, AppendSections(job, output, sections), |output|)
    decreases |sections|
  {
    hide Find, Block;
    if sections != [] {
      var (name, entries) := sections[0];
      var next := WithSection(job, output, name, entries);
      AppendedStay(job, next, sections[1..]);
      if !Has(job.original, name) {
        BlockNotEmpty(name, entries, job.pretty);
        BlockStands(output, Gap(output, job.pretty), Block(name, entries, job.pretty),
          AppendSections(job, output, sections));
      }
    }
  }

  lemma BlockStands(output: seq<string>, gap: seq<string>, block: seq<string>, out: seq<string>)
    requires output + gap + block <= out && (gap == [] || gap == [""]) && block != []
    ensures var p := |output| + |gap|;
      && |output| < |out| && p + |block| <= |out| && out[p..p + |block|] == block && output <= out
      && (gap != [] ==> out[|output|] == "") && (output != [] ==> out[|output| - 1] == output[|output| - 1])
  {
    var all := output + gap + block;
    assert out[..|all|] == all;
    assert all[|output| + |gap|..] == block && all[..|output|] == output;
    assert out[|output| + |gap|..|all|] == all[|output| + |gap|..];
    if gap != [] { assert out[|output|] == all[|output|] == gap[0]; }
  }

  lemma BlockNotEmpty(name: string, entries: Entries, pretty: bool)
    ensures Block(name, entries, pretty) != []
  {
  }

  /** The output of lazy writing for every file and job: the merged lines and then the new sections. */
  lemma LazyOutputIs(job: Job, lines: seq<string>)
    ensures MergedLines(job, lines) <= LazyOutput(job, lines)
    ensures AreAppended(job, job.data, LazyOutput(job, lines), |MergedLines(job, lines)|)
  {
    AppendedStay(job, MergedLines(job, lines), job.data);
  }
}
