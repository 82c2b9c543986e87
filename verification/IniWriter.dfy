/** INIWriter::getLazyOutput: merging a changed structure into the lines of an
    existing file. LazyOutput describes the result by one pass over the lines;
    GetLazyOutput is the loop, which steps its iterator back to visit the
    headers again. */
module IniWriter {
  import opened Text
  import opened IniParser
  import opened IniEntry
  import opened IniMap
  import opened IniReader
  import opened IniGenerator

  /** The structure to write, the structure read from the file, and the style of new lines. */
  datatype Job = Job(data: Structure, original: Structure, pretty: bool)

  // ---- single lines ----

  /** An old entry line with a new value: everything up to the old value is kept. */
  function RewriteLine(line: string, value: string, pretty: bool): string {
    BlankedAt(line);
    var at := Separator(line);
    var from := if at == |line| then 0 else at + 1; // npos + 1 is 0
    var valueAt := from + FirstInk(Blanked(line)[from..]);
    line[..valueAt] + (if pretty && from == valueAt < |line| then " " else "") + Trim(value)
  }

  function EntryOutput(line: string, oldValue: string, newValue: string, pretty: bool): string {
    if oldValue == newValue then line else RewriteLine(line, newValue, pretty)
  }

  /** The lines of the entries whose key is not among the known ones. */
  function AddedLines(entries: Entries, known: Entries, pretty: bool): seq<string>
    decreases entries
  {
    if entries == [] then []
    else
      (if Has(known, entries[0].0) then [] else [EntryLine(entries[0].0, entries[0].1, pretty)])
      + AddedLines(entries[1..], known, pretty)
  }

  function NewKeyLines(job: Job, section: string): seq<string> {
    if Has(job.data, section) && Has(job.original, section) then
      AddedLines(Get(job.data, section), Get(job.original, section), job.pretty)
    else []
  }

  // ---- one pass over the lines ----

  /** What has been written, the section the last header named (by its normal name), whether
      that section is in the data or left out, whether the next empty line goes with it, and
      where the new keys of the section belong. */
  datatype LazyState_ =
    LazyState(output: seq<string>, section: string, parsing: bool, skipping: bool, discard: bool, keyEnd: nat)

  type LazyState = s: LazyState_ | s.keyEnd <= |s.output| witness LazyState([], "", false, false, false, 0)

  const START: LazyState := LazyState([], "", false, false, false, 0)

  /** The new keys of the current section follow its last key. */
  function Flush(job: Job, st: LazyState): LazyState {
    st.(output := st.output[..st.keyEnd] + NewKeyLines(job, st.section) + st.output[st.keyEnd..])
  }

  function LazyHeader(job: Job, st: LazyState, line: string, section: string): LazyState {
    if Has(job.data, section) then
      LazyState(st.output + [line], section, true, false, false, |st.output| + 1)
    else
      st.(section := section, parsing := false, skipping := true, discard := true)
  }

  function LazyEntry(job: Job, st: LazyState, line: string, key: string, value: string): LazyState {
    if st.skipping || !Has(job.data, st.section) || !Has(Get(job.data, st.section), key) then st
    else
      var newValue := Get(Get(job.data, st.section), key);
      st.(output := st.output + [EntryOutput(line, value, newValue, job.pretty)], keyEnd := |st.output| + 1)
  }

  function LazyLine(job: Job, st: LazyState, line: string): LazyState {
    match ParseLine(line)
    case Section(name) => LazyHeader(job, if st.parsing then Flush(job, st) else st, line, Normal(name))
    case KeyValue(key, value) => LazyEntry(job, st, line, Normal(key), value)
    case Nothing =>
      if st.discard && line == "" then st.(discard := false) else st.(output := st.output + [line])
    case Comment => st.(output := st.output + [line])
    case Unknown => st
  }

  function LazyLines(job: Job, st: LazyState, lines: seq<string>): LazyState
    decreases lines
  {
    if lines == [] then st else LazyLines(job, LazyLine(job, st, lines[0]), lines[1..])
  }

  /** All that is written for the lines of the old file. */
  function MergedLines(job: Job, lines: seq<string>): seq<string> {
    if lines == [] then [] else Flush(job, LazyLines(job, START, lines)).output
  }

  /** The blank line in front of a new section. */
  function Gap(output: seq<string>, pretty: bool): (gap: seq<string>)
    ensures gap == [] || gap == [""]
  {
    if pretty && output != [] && output[|output| - 1] != "" then [""] else []
  }

  /** A section that the old file does not have goes to the end. */
  function WithSection(job: Job, output: seq<string>, name: string, entries: Entries): seq<string> {
    if Has(job.original, name) then output else output + Gap(output, job.pretty) + Block(name, entries, job.pretty)
  }

  function AppendSections(job: Job, output: seq<string>, sections: Structure): seq<string>
    decreases sections
  {
    if sections == [] then output
    else AppendSections(job, WithSection(job, output, sections[0].0, sections[0].1), sections[1..])
  }

  function LazyOutput(job: Job, lines: seq<string>): seq<string> {
    AppendSections(job, MergedLines(job, lines), job.data)
  }

  // ---- the loop ----

  method RewriteValue(line: string, value: string, prettyPrint: bool) returns (outputLine: string)
    ensures outputLine == RewriteLine(line, value, prettyPrint)
  {
    hide Replaced, FirstInk, IndexOf, Trim;
    BlankedAt(line);
    var outputValue := Trim(value);
    var lineNorm := Replace(line, "\\=", "  ");
    var equalsAt := IndexOf(lineNorm, '=');
    var from := if equalsAt == |line| then 0 else equalsAt + 1;
    var valueAt := from + FirstInk(lineNorm[from..]);
    outputLine := line[..valueAt];
    if prettyPrint && valueAt < |line| && from == valueAt {
      outputLine := outputLine + " ";
    }
    outputLine := outputLine + outputValue;
  }

  /** The new lines of one section, collected for insertion. */
  method LinesToAdd(job: Job, section: string) returns (linesToAdd: seq<string>)
    ensures linesToAdd == NewKeyLines(job, section)
  {
    linesToAdd := [];
    if Has(job.data, section) && Has(job.original, section) {
      var collection, collectionOriginal := Get(job.data, section), Get(job.original, section);
      var n := 0;
      while n < |collection|
        invariant 0 <= n <= |collection|
        invariant linesToAdd + AddedLines(collection[n..], collectionOriginal, job.pretty) ==
          AddedLines(collection, collectionOriginal, job.pretty)
      {
        AddedStep(linesToAdd, collection, n, collectionOriginal, job.pretty);
        var (key, it) := collection[n];
        if !Has(collectionOriginal, key) {
          var escaped := Replace(key, "=", "\\=");
          var value := Trim(it);
          linesToAdd := linesToAdd + [escaped + (if job.pretty then " = " else "=") + value];
        }
        n := n + 1;
      }
    }
  }

  method InsertNewKeys(job: Job, section: string, written: seq<string>, lastKeyLine: nat) returns (output: seq<string>)
    requires lastKeyLine <= |written|
    ensures output == written[..lastKeyLine] + NewKeyLines(job, section) + written[lastKeyLine..]
  {
    output := written;
    var linesToAdd := LinesToAdd(job, section);
    if linesToAdd != [] {
      output := written[..lastKeyLine] + linesToAdd + written[lastKeyLine..];
    }
  }

  lemma {:induction false} AddedStep(before: seq<string>, entries: Entries, n: nat, known: Entries, pretty: bool)
    requires n < |entries|
    ensures before + AddedLines(entries[n..], known, pretty) ==
      (if Has(known, entries[n].0) then before else before + [EntryLine(entries[n].0, entries[n].1, pretty)])
      + AddedLines(entries[n + 1..], known, pretty)
  {
    hide Find, EntryLine;
    assert entries[n..][1..] == entries[n + 1..];
    var rest := AddedLines(entries[n + 1..], known, pretty);
    var head := if Has(known, entries[n].0) then [] else [EntryLine(entries[n].0, entries[n].1, pretty)];
    assert AddedLines(entries[n..], known, pretty) == head + rest;
    assert before + (head + rest) == (before + head) + rest && before + [] == before;
  }

  lemma {:induction false} UnfoldLazy(job: Job, st: LazyState, lines: seq<string>, n: nat)
    requires n < |lines|
    ensures LazyLines(job, st, lines[n..]) == LazyLines(job, LazyLine(job, st, lines[n]), lines[n + 1..])
  {
    hide LazyLine;
    assert lines[n..][1..] == lines[n + 1..];
  }

  lemma EmptyIsNormal()
    ensures Normal("") == ""
  {
    NormalShape("");
  }

  lemma EmptyIsNothing()
    ensures ParseLine("") == Nothing
  {
  }

  /** A section that is left out has no new keys. */
  lemma FlushOfSkipped(job: Job, st: LazyState)
    requires !Has(job.data, st.section)
    ensures Flush(job, st) == st
  {
    assert st.output[..st.keyEnd] + [] + st.output[st.keyEnd..] == st.output;
  }

  /** The block appended for one new section. */
  method SectionLines(section: string, collection: Entries, prettyPrint: bool) returns (lines: seq<string>)
    ensures lines == Block(section, collection, prettyPrint)
  {
    lines := ["[" + section + "]"];
    var n := 0;
    while n < |collection|
      invariant 0 <= n <= |collection|
      invariant lines + EntryLines(collection[n..], prettyPrint) == Block(section, collection, prettyPrint)
    {
      var key := Replace(collection[n].0, "=", "\\=");
      var value := Trim(collection[n].1);
      assert collection[n..][1..] == collection[n + 1..];
      var line := key + (if prettyPrint then " = " else "=") + value;
      ghost var rest := EntryLines(collection[n + 1..], prettyPrint);
      assert lines + ([line] + rest) == (lines + [line]) + rest;
      lines := lines + [line];
      n := n + 1;
    }
  }

  method AppendNewSections(job: Job, merged: seq<string>) returns (output: seq<string>)
    ensures output == AppendSections(job, merged, job.data)
  {
    output := merged;
    var n := 0;
    while n < |job.data|
      invariant 0 <= n <= |job.data|
      invariant AppendSections(job, output, job.data[n..]) == AppendSections(job, merged, job.data)
    {
      var (section, collection) := job.data[n];
      assert job.data[n..][1..] == job.data[n + 1..];
      assert output + [] == output;
      if !Has(job.original, section) {
        if job.pretty && output != [] && output[|output| - 1] != "" {
          output := output + [""];
        }
        var lines := SectionLines(section, collection, job.pretty);
        output := output + lines;
      }
      n := n + 1;
    }
  }

  /** The branches of the loop body for a line that does not interrupt a section. Afterwards
      the body is over at once when a header or an entry is left out. */
  method TakeLine(job: Job, line: string, written: seq<string>, section: string, parsing: bool, skipping: bool,
    discard: bool, keyEnd: nat)
    returns (output: seq<string>, sectionCurrent: string, parsingSection: bool, continueToNextSection: bool,
      discardNextEmpty: bool, lastKeyLine: nat)
    requires keyEnd <= |written|
    requires ParseLine(line).Section? ==> !parsing
    requires skipping ==> !Has(job.data, Normal(section))
    ensures lastKeyLine <= |output|
    ensures LazyState(output, Normal(sectionCurrent), parsingSection, continueToNextSection, discardNextEmpty,
      lastKeyLine) ==
      LazyLine(job, LazyState(written, Normal(section), parsing, skipping, discard, keyEnd), line)
    ensures continueToNextSection ==> !Has(job.data, Normal(sectionCurrent))
    ensures parsingSection ==> parsing || ParseLine(line).Section?
  {
    hide ParseLine, Trim, Find, RewriteLine;
    output, sectionCurrent, parsingSection := written, section, parsing;
    continueToNextSection, discardNextEmpty, lastKeyLine := skipping, discard, keyEnd;
    var parsed := ParseLine(line);
    if parsed.Section? {
      sectionCurrent := parsed.name;
      if Has(job.data, Normal(sectionCurrent)) {
        parsingSection := true;
        continueToNextSection := false;
        discardNextEmpty := false;
        output := output + [line];
        lastKeyLine := |output|;
      } else {
        continueToNextSection := true;
        discardNextEmpty := true;
      }
    } else if parsed.KeyValue? {
      if !continueToNextSection && Has(job.data, Normal(sectionCurrent)) {
        var collection := Get(job.data, Normal(sectionCurrent));
        var key, value := Normal(parsed.key), parsed.value;
        if Has(collection, key) {
          var outputValue := Get(collection, key);
          var outputLine := line;
          if value != outputValue {
            outputLine := RewriteValue(line, outputValue, job.pretty);
          }
          output := output + [outputLine];
          lastKeyLine := |output|;
        }
      }
    } else {
      EmptyIsNothing();
      if discardNextEmpty && line == "" {
        discardNextEmpty := false;
      } else if !parsed.Unknown? {
        output := output + [line];
      }
    }
  }

  /** Three visits of a header are enough: one to notice that the section before it is
      over, one to write that section's new keys, one to start the new section. */
  ghost predicate VisitsOk(visits: seq<nat>, lines: seq<string>, line: nat, again: nat) {
    && |visits| == |lines|
    && (forall j | 0 <= j < line && j < |lines| ::
          1 <= visits[j] <= 3 && (visits[j] > 1 ==> ParseLine(lines[j]).Section?))
    && (forall j | line < j < |lines| :: visits[j] == 0)
    && (line < |lines| ==> visits[line] == again && (again > 0 ==> ParseLine(lines[line]).Section?))
  }

  lemma VisitsBegin(lines: seq<string>)
    ensures VisitsOk(seq(|lines|, _ => 0), lines, 0, 0)
  {
  }

  /** One more visit of the current line: it is visited again, which only headers are, or it is done. */
  lemma VisitsStep(visits: seq<nat>, lines: seq<string>, line: nat, again: nat)
    requires VisitsOk(visits, lines, line, again) && line < |lines| && again <= 2
    ensures |visits| == |lines|
    ensures again > 0 || ParseLine(lines[line]).Section? ==>
      VisitsOk(visits[line := visits[line] + 1], lines, line, again + 1)
    ensures VisitsOk(visits[line := visits[line] + 1], lines, line + 1, 0)
  {
    hide ParseLine;
  }

  lemma VisitsEnd(visits: seq<nat>, lines: seq<string>)
    requires VisitsOk(visits, lines, |lines|, 0)
    ensures |visits| == |lines|
    ensures forall j | 0 <= j < |lines| :: 1 <= visits[j] <= 3 && (visits[j] > 1 ==> ParseLine(lines[j]).Section?)
  {
    hide ParseLine;
  }

  /** Flushing first and taking the header afterwards is what LazyLine does at once. */
  lemma HeaderAfterFlush(job: Job, st: LazyState, line: string)
    requires ParseLine(line).Section? && st.parsing
    ensures LazyLine(job, Flush(job, st).(parsing := false), line) == LazyLine(job, st, line)
  {
    hide ParseLine, NewKeyLines, Normal, Find;
  }

  lemma LastFlush(job: Job, st: LazyState, lines: seq<string>)
    requires lines != [] && LazyLines(job, st, lines[|lines|..]) == LazyLines(job, START, lines)
    ensures MergedLines(job, lines) == Flush(job, st).output
  {
  }

  /** The loop, with the iterator as a natural number so that it cannot leave the lines at the front. */
  method GetLazyOutput(lineData: seq<string>, data: Structure, original: Structure, prettyPrint: bool)
    returns (output: seq<string>, ghost visits: seq<nat>)
    ensures output == LazyOutput(Job(data, original, prettyPrint), lineData)
    ensures |visits| == |lineData|
    ensures forall j | 0 <= j < |lineData| :: 1 <= visits[j] <= 3 && (visits[j] > 1 ==> ParseLine(lineData[j]).Section?)
  {
    hide ParseLine, Trim, Find, RewriteLine, NewKeyLines, VisitsOk, MergedLines, LazyLine, LazyLines, AppendSections;
    hide Normal;
    var job := Job(data, original, prettyPrint);
    output := [];
    var sectionCurrent := "";
    var parsingSection, continueToNextSection, discardNextEmpty, writeNewKeys := false, false, false, false;
    var lastKeyLine: nat := 0;
    visits := seq(|lineData|, _ => 0);
    ghost var st: LazyState := START;
    ghost var again := 0;
    var line: nat := 0;
    VisitsBegin(lineData);
    EmptyIsNormal();
    EmptyMerge(job);
    while line < |lineData|
      invariant line <= |lineData| && lastKeyLine <= |output|
      invariant VisitsOk(visits, lineData, line, again) && (line == |lineData| ==> again == 0)
      invariant writeNewKeys || parsingSection ==> 0 < line
      invariant writeNewKeys ==> line < |lineData| && ParseLine(lineData[line]).Section?
      invariant continueToNextSection ==> !Has(data, Normal(sectionCurrent))
      invariant if writeNewKeys then again == 1 && !parsingSection else again == 0 || (again == 2 && !parsingSection)
      invariant line < |lineData| ==>
        && st == LazyState(output, Normal(sectionCurrent), parsingSection || writeNewKeys, continueToNextSection,
          discardNextEmpty, lastKeyLine)
        && LazyLines(job, st, lineData[line..]) == LazyLines(job, START, lineData)
      invariant line == |lineData| ==> output == MergedLines(job, lineData) && !writeNewKeys
      decreases |lineData| - line, if writeNewKeys then 1 else if parsingSection then 2 else 0
    {
      VisitsStep(visits, lineData, line, again);
      visits := visits[line := visits[line] + 1];
      again := again + 1;
      UnfoldLazy(job, st, lineData, line);
      if !writeNewKeys {
        var parsed := ParseLine(lineData[line]);
        if parsed.Section? {
          if parsingSection {
            writeNewKeys := true;
            parsingSection := false;
            line := line - 1;
            line := line + 1;
            continue;
          }
        }
        st := LazyLine(job, st, lineData[line]);
        output, sectionCurrent, parsingSection, continueToNextSection, discardNextEmpty, lastKeyLine :=
          TakeLine(job, lineData[line], output, sectionCurrent, parsingSection, continueToNextSection, discardNextEmpty,
            lastKeyLine);
        if continueToNextSection && (parsed.Section? || parsed.KeyValue?) {
          FlushOfSkipped(job, st);
          if line + 1 == |lineData| { LastFlush(job, st, lineData); }
          line := line + 1;
          again := 0;
          continue;
        }
      }
      assert st == LazyState(output, Normal(sectionCurrent), parsingSection || writeNewKeys, continueToNextSection,
        discardNextEmpty, lastKeyLine);
      if writeNewKeys || line + 1 == |lineData| {
        output := InsertNewKeys(job, Normal(sectionCurrent), output, lastKeyLine);
        assert output == Flush(job, st).output;
        if !writeNewKeys { LastFlush(job, st, lineData); }
        if writeNewKeys {
          HeaderAfterFlush(job, st, lineData[line]);
          st := Flush(job, st).(parsing := false);
          UnfoldLazy(job, st, lineData, line);
          writeNewKeys := false;
          line := line - 1;
        }
      }
      line := line + 1;
      again := if again == 2 then 2 else 0;
    }
    VisitsEnd(visits, lineData);
    output := AppendNewSections(job, output);
  }

  lemma EmptyMerge(job: Job)
    ensures MergedLines(job, []) == []
  {
  }
}
