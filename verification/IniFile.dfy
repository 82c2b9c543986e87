/** INIWriter::operator<< on the text of a file: read, merge, write; and INIFile::read of the result. */
module IniFile {
  import opened Text
  import opened IniParser
  import opened IniEntry
  import opened IniMap
  import opened IniReader
  import opened IniGenerator
  import opened IniMeaning
  import opened IniWriter
  import opened IniLazy
  import opened IniLazyExact
  import opened IniComments

  const BOM: string := [0xEF as char, 0xBB as char, 0xBF as char]

  function FileText(isBOM: bool, lines: seq<string>): string {
    (if isBOM then BOM else "") + JoinLines(lines)
  }

  function FileJob(contents: string, data: Structure, pretty: bool): Job {
    Job(data, Read(FileLines(contents)), pretty)
  }

  function OldLines(contents: string): seq<string> { KeptLines(FileLines(contents), false) }

  /** The new text of an existing file. */
  function LazyFile(contents: string, data: Structure, pretty: bool): string {
    FileText(HasBOM(contents), LazyOutput(FileJob(contents, data, pretty), OldLines(contents)))
  }

  method WriteExisting(contents: string, data: Structure, prettyPrint: bool) returns (text: string)
    ensures text == LazyFile(contents, data, prettyPrint)
  {
    var originalData := new INIMap<Entries>();
    var fileIsBOM, fileLines := ReadFile(contents);
    var lineData := ReadStructure(fileLines, originalData);
    var output, visits := GetLazyOutput(lineData, data, originalData.data, prettyPrint);
    var body := WriteLines(output);
    text := (if fileIsBOM then BOM else "") + body;
  }

  method WriteLines(output: seq<string>) returns (text: string)
    ensures text == JoinLines(output)
  {
    text := "";
    if output != [] {
      var line := 0;
      while true
        invariant 0 <= line < |output|
        invariant text + JoinLines(output[line..]) == JoinLines(output)
        decreases |output| - line
      {
        var rest := output[line + 1..];
        assert output[line..] == [output[line]] + rest;
        if rest != [] { JoinStep(output[line], rest); }
        Appended(text, output[line], "\n", JoinLines(rest));
        text := text + output[line];
        line := line + 1;
        if line == |output| { break; }
        text := text + "\n";
      }
    }
  }

  // ---- text and lines ----

  lemma {:induction false} SplitDropsNul(text: string, buffer: string)
    ensures SplitLines(text + "\0\0\0", buffer) == SplitLines(text, buffer)
    decreases |text|
  {
    if text == "" {
      assert text + "\0\0\0" == "\0\0\0";
      assert "\0\0\0"[1..] == "\0\0" && "\0\0"[1..] == "\0" && "\0"[1..] == "";
      assert SplitLines("\0", buffer) == [buffer];
      assert SplitLines("\0\0", buffer) == [buffer];
    } else {
      assert (text + "\0\0\0")[1..] == text[1..] + "\0\0\0";
      SplitDropsNul(text[1..],
        if text[0] == LINE_END then "" else if Dropped(text[0]) then buffer else buffer + [text[0]]);
    }
  }

  /** Clean lines mean the same after a trip through the text of a file. */
  lemma {:induction false} FileTextReadsBack(isBOM: bool, lines: seq<string>)
    requires AllClean(lines) && (isBOM || !HasBOM(JoinLines(lines)))
    ensures MeaningOf(FileLines(FileText(isBOM, lines))) == MeaningOf(lines)
  {
    hide ParseLine, SplitLines;
    var text := FileText(isBOM, lines);
    if isBOM {
      assert text[3..] == JoinLines(lines) && HasBOM(text);
      SplitDropsNul(JoinLines(lines), "");
      if lines == [] { NothingToRead(); } else { SplitOfJoin(lines); }
    } else {
      assert text == JoinLines(lines);
      if lines == [] { } else if text == "" { EmptyLines(lines); } else { SplitOfJoin(lines); }
    }
  }

  lemma NothingToRead()
    ensures MeaningOf(SplitLines("", "")) == MeaningOf([])
  {
    EmptyIsNothing();
    assert SplitLines("", "") == [""] && [""][1..] == [];
  }

  lemma EmptyLines(lines: seq<string>)
    requires lines != [] && JoinLines(lines) == ""
    ensures MeaningOf(lines) == MeaningOf([])
  {
    EmptyIsNothing();
    assert |lines| == 1 && lines == [""] && [""][1..] == [];
  }

  // ---- what is written is clean and does not look like a byte order mark ----

  predicate CleanStructure(data: Structure) {
    forall i | 0 <= i < |data| :: Clean(data[i].0) && CleanEntries(data[i].1)
  }

  predicate CleanEntries(entries: Entries) {
    forall j | 0 <= j < |entries| :: Clean(entries[j].0) && Clean(Trim(entries[j].1))
  }

  predicate PlainStart(line: string) { line != "" ==> line[0] as int != 0xEF }

  /** A first line that does not start with the first byte of a BOM. */
  predicate PlainLines(lines: seq<string>) { AllClean(lines) && (lines != [] ==> PlainStart(lines[0])) }

  lemma StartsPlain(line: string)
    requires ParseLine(line).Section? || ParseLine(line).Comment? || ParseLine(line).Nothing?
    ensures PlainStart(line)
  {
    hide Blanked, UnescapeKey;
  }

  lemma {:induction false} EntryLineClean(key: string, value: string, pretty: bool)
    requires Clean(key) && Clean(Trim(value))
    ensures Clean(EntryLine(key, value, pretty))
  {
    hide EscapeKey, Trim;
    EscapedIsClean(key);
  }

  lemma {:induction false} AddedClean(entries: Entries, known: Entries, pretty: bool)
    requires CleanEntries(entries)
    ensures AllClean(AddedLines(entries, known, pretty))
    decreases |entries|
  {
    hide EntryLine, Clean, Find, Trim;
    if entries != [] {
      EntryLineClean(entries[0].0, entries[0].1, pretty);
      AddedClean(entries[1..], known, pretty);
    }
  }

  lemma RewriteClean(line: string, value: string, pretty: bool)
    requires Clean(line) && Clean(Trim(value))
    ensures Clean(RewriteLine(line, value, pretty))
  {
    hide Trim, Blanked;
    BlankedAt(line);
    var at := Separator(line);
    var from := if at == |line| then 0 else at + 1;
    var kept := line[..from + FirstInk(Blanked(line)[from..])];
    assert Clean(kept) && Clean(kept + " ");
  }

  ghost predicate WrittenOk(job: Job, st: LazyState, inSection: bool) {
    && PlainLines(st.output)
    && inSection == (st.parsing || st.skipping)
    && (st.parsing ==> 0 < st.keyEnd)
    && (st.skipping ==> !Has(job.data, st.section))
  }

  lemma {:induction false} FlushWritten(job: Job, st: LazyState)
    requires CleanStructure(job.data) && PlainLines(st.output) && 0 < st.keyEnd
    ensures PlainLines(Flush(job, st).output)
  {
    hide Clean, Find, Trim, PlainStart, AddedLines;
    var s := st.section;
    if Has(job.data, s) && Has(job.original, s) {
      ItemAtFind(job.data, s);
      AddedClean(Get(job.data, s), Get(job.original, s), job.pretty);
    }
  }

  lemma ItemAtFind(data: Structure, s: string)
    requires Has(data, s)
    ensures exists i | 0 <= i < |data| :: data[i] == (s, Get(data, s))
  {
    assert data[Find(data, s)] == (s, Get(data, s));
  }

  lemma {:induction false} LineWritten(job: Job, st: LazyState, line: string, inSection: bool)
    requires CleanStructure(job.data) && WrittenOk(job, st, inSection) && Clean(line)
    requires ParseLine(line).KeyValue? ==> inSection
    ensures WrittenOk(job, LazyLine(job, st, line), inSection || ParseLine(line).Section?)
  {
    hide ParseLine, Clean, Find, Trim, PlainStart, Flush, Normal, RewriteLine;
    var p := ParseLine(line);
    if p.Section? {
      StartsPlain(line);
      if st.parsing { FlushWritten(job, st); }
    } else if p.KeyValue? {
      if LazyLine(job, st, line).output != st.output {
        var entries, key := Get(job.data, st.section), Normal(p.key);
        ItemAtFind(job.data, st.section);
        assert entries[Find(entries, key)].1 == Get(entries, key);
        RewriteClean(line, Get(entries, key), job.pretty);
      }
    } else if !p.Unknown? {
      StartsPlain(line);
    }
  }

  lemma {:induction false} LinesWritten(job: Job, st: LazyState, lines: seq<string>, inSection: bool)
    requires CleanStructure(job.data) && WrittenOk(job, st, inSection) && AllClean(lines)
    requires EntriesInSections(lines, inSection)
    ensures var last := LazyLines(job, st, lines);
      WrittenOk(job, last, last.parsing || last.skipping) &&
      (inSection || (exists s :: HeaderIn(lines, s)) ==> last.parsing || last.skipping)
    decreases |lines|
  {
    hide ParseLine, Clean, LazyLine, CleanStructure, HeaderOf, PlainLines;
    if lines != [] {
      var now := inSection || ParseLine(lines[0]).Section?;
      LineWritten(job, st, lines[0], inSection);
      LinesWritten(job, LazyLine(job, st, lines[0]), lines[1..], now);
      forall s ensures HeaderIn(lines, s) ==> now || HeaderIn(lines[1..], s) {
        HeaderInStep(lines, s);
        HeaderIsSection(lines[0], s);
      }
    }
  }

  lemma HeaderIsSection(line: string, s: string)
    ensures HeaderOf(line, s) ==> ParseLine(line).Section?
  {
  }

  lemma {:induction false} AppendWritten(job: Job, output: seq<string>, sections: Structure)
    requires CleanStructure(sections) && PlainLines(output)
    ensures PlainLines(AppendSections(job, output, sections))
    decreases |sections|
  {
    hide Clean, CleanEntries, PlainLines, WithSection;
    if sections != [] {
      SectionWritten(job, output, sections[0].0, sections[0].1);
      AppendWritten(job, WithSection(job, output, sections[0].0, sections[0].1), sections[1..]);
    }
  }

  lemma {:induction false} SectionWritten(job: Job, output: seq<string>, name: string, entries: Entries)
    requires Clean(name) && CleanEntries(entries) && PlainLines(output)
    ensures PlainLines(WithSection(job, output, name, entries))
  {
    hide Clean, Find, EntryLines, AddedLines, CleanEntries;
    EntryLinesAreAdded(entries, job.pretty);
    AddedClean(entries, [], job.pretty);
    SectionLineClean(name);
    EmptyClean();
    assert AllClean(Block(name, entries, job.pretty));
  }

  lemma EmptyClean()
    ensures Clean("")
  {
  }

  lemma SectionLineClean(name: string)
    requires Clean(name)
    ensures Clean(SectionLine(name))
  {
  }

  lemma {:induction false} OutputWritten(job: Job, lines: seq<string>)
    requires CleanStructure(job.data) && AllClean(lines) && EntriesInSections(lines, false)
    requires Flat(job.original) == MeaningOf(lines)
    ensures PlainLines(LazyOutput(job, lines))
  {
    hide ParseLine, Clean, Find, Trim, LazyLines, AppendSections, Flat, HeaderIn, Flush, CleanStructure, Effects;
    if lines != [] {
      var last := LazyLines(job, START, lines);
      LinesWritten(job, START, lines, false);
      if last.parsing {
        FlushWritten(job, last);
      } else {
        FlatHas(job.original, last.section);
        if Has(job.original, last.section) { ReadSectionsHaveHeaders(NOWHERE, lines, last.section); }
        FlushOfNothing(job, last);
      }
    }
    AppendWritten(job, MergedLines(job, lines), job.data);
  }

  lemma PlainIsNoBOM(lines: seq<string>)
    requires PlainLines(lines)
    ensures !HasBOM(JoinLines(lines))
  {
    if lines != [] && lines[0] == "" && |lines| > 1 {
      assert JoinLines(lines)[0] == LINE_END;
    }
  }

  // ---- the write of an existing file ----

  lemma {:induction false} FileJobOk(contents: string, data: Structure, pretty: bool)
    requires StructureOk(data)
    ensures JobOk(FileJob(contents, data, pretty))
    ensures Flat(FileJob(contents, data, pretty).original) == MeaningOf(OldLines(contents))
    ensures EntriesInSections(OldLines(contents), false) && AllClean(OldLines(contents))
  {
    hide ParseLine, Flat, SplitLines, Effects, ReadLines;
    var all := FileLines(contents);
    MeaningIsRead(all);
    MeaningIsRead(OldLines(contents));
    KeptLinesReadAlike(NOTHING_READ, all);
    KeptEntriesInSections(all, false);
    SplitLinesAreClean(Loaded(contents), "");
    KeptClean(all, false);
  }

  lemma {:induction false} KeptClean(lines: seq<string>, inSection: bool)
    requires AllClean(lines)
    ensures AllClean(KeptLines(lines, inSection))
    decreases |lines|
  {
    hide ParseLine, Clean;
    if lines != [] { KeptClean(lines[1..], inSection || ParseLine(lines[0]).Section?); }
  }

  /** A file that holds just the names and entries of a structure shows that they are clean. */
  lemma {:induction false} CleanWhenRead(data: Structure, contents: string)
    requires StructureOk(data) && Flat(Read(FileLines(contents))) == TrimmedMeaning(Flat(data))
    ensures CleanStructure(data)
  {
    hide ParseLine, Flat, FileLines, Read, Clean, TrimmedMeaning, StructureOk, CleanEntries, Trim, Denotable, Readable;
    forall i | 0 <= i < |data| ensures Clean(data[i].0) && CleanEntries(data[i].1) {
      CleanSection(data, contents, i);
    }
  }

  lemma {:induction false} CleanSection(data: Structure, contents: string, i: nat)
    requires StructureOk(data) && Flat(Read(FileLines(contents))) == TrimmedMeaning(Flat(data)) && i < |data|
    ensures Clean(data[i].0) && CleanEntries(data[i].1)
  {
    hide ParseLine, FileLines, Read, Clean, Trim, Readable, Find, Flat, View, Normal;
    var r, name, entries := Read(FileLines(contents)), data[i].0, data[i].1;
    ReadIsDenotable(contents);
    MeaningIsRead(FileLines(contents));
    ItemOfStructure(data, name, entries);
    SectionOfJob(data, name);
    SectionOfJob(r, name);
    assert r[Find(r, name)].0 == name;
    forall j | 0 <= j < |entries| ensures Clean(entries[j].0) && Clean(Trim(entries[j].1)) {
      var key := entries[j].0;
      ItemIsFound(entries, j);
      ViewHas(entries, key);
      var read := Get(r, name);
      ViewHas(read, key);
      var e := read[Find(read, key)];
      assert e.0 == key && e.1 == Trim(entries[j].1);
      assert Denotable(r[Find(r, name)].1[Find(read, key)].0, r[Find(r, name)].1[Find(read, key)].1);
    }
  }

  /** Writing over an existing file, whatever the file holds, and reading the file again gives the
      sections, keys and trimmed values of the structure exactly when the structure holds no line
      ends, NULs and carriage returns and is Preservable. */
  lemma {:induction false} WriteThenRead(contents: string, data: Structure, pretty: bool)
    requires StructureOk(data)
    ensures var D, O := Flat(data), Flat(Read(FileLines(contents)));
      Flat(Read(FileLines(LazyFile(contents, data, pretty)))) == TrimmedMeaning(D) <==>
      CleanStructure(data) && Preservable(D, O, pretty)
  {
    hide ParseLine, Flat, FileLines, Effects, ReadLines, LazyOutput, JoinLines, Preservable, HasBOM, TrimmedMeaning;
    hide CleanStructure;
    if CleanStructure(data) {
      CleanWriteThenRead(contents, data, pretty);
    } else if Flat(Read(FileLines(LazyFile(contents, data, pretty)))) == TrimmedMeaning(Flat(data)) {
      CleanWhenRead(data, LazyFile(contents, data, pretty));
    }
  }

  lemma {:induction false} CleanWriteThenRead(contents: string, data: Structure, pretty: bool)
    requires StructureOk(data) && CleanStructure(data)
    ensures var D, O := Flat(data), Flat(Read(FileLines(contents)));
      Flat(Read(FileLines(LazyFile(contents, data, pretty)))) == TrimmedMeaning(D) <==> Preservable(D, O, pretty)
  {
    hide ParseLine, Flat, FileLines, Effects, ReadLines, LazyOutput, JoinLines, Preservable, HasBOM, TrimmedMeaning;
    var job, lines := FileJob(contents, data, pretty), OldLines(contents);
    FileJobOk(contents, data, pretty);
    OutputWritten(job, lines);
    PlainIsNoBOM(LazyOutput(job, lines));
    FileTextReadsBack(HasBOM(contents), LazyOutput(job, lines));
    MeaningIsRead(FileLines(LazyFile(contents, data, pretty)));
    LazyPreserves(job, lines);
  }

  /** For example a value of two lines does not come back, whatever file it is written to. */
  lemma LineEndIsLost(contents: string, pretty: bool)
    ensures var data: Structure := [("s", [("k", "a\nb")])];
      Flat(Read(FileLines(LazyFile(contents, data, pretty)))) != TrimmedMeaning(Flat(data))
  {
    hide LazyFile, FileLines, Read, Flat, TrimmedMeaning, Preservable;
    var entries: Entries := [("k", "a\nb")];
    var data: Structure := [("s", entries)];
    NormalOfPlain("s");
    NormalOfPlain("k");
    TrimOfTrimmed("a\nb");
    assert !Clean("a\nb") by { assert Dropped("a\nb"[1]); }
    assert !Clean(Trim(entries[0].1)) && !CleanEntries(data[0].1);
    WriteThenRead(contents, data, pretty);
  }
}
