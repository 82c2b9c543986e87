/** Writing back what was read from a file: exactly when every byte of the file stays. */
module IniFileUnchanged {
  import opened Text
  import opened IniParser
  import opened IniEntry
  import opened IniMap
  import opened IniReader
  import opened IniGenerator
  import opened IniMeaning
  import opened IniWriter
  import opened IniLazyExact
  import opened IniUnchanged
  import opened IniFile

  // ---- joining undoes splitting ----

  predicate NothingDropped(text: string) { '\0' !in text && '\r' !in text }

  /** A text without NULs and carriage returns is its lines. */
  lemma {:induction false} JoinOfSplit(text: string, buffer: string)
    requires NothingDropped(text)
    ensures JoinLines(SplitLines(text, buffer)) == buffer + text
    decreases |text|
  {
    if text != "" {
      assert text == [text[0]] + text[1..] && NothingDropped(text[1..]);
      if text[0] == LINE_END {
        JoinOfSplit(text[1..], "");
        var rest := SplitLines(text[1..], "");
        assert ([buffer] + rest)[1..] == rest;
      } else {
        JoinOfSplit(text[1..], buffer + [text[0]]);
        Regroup(buffer, [text[0]], text[1..]);
      }
    }
  }

  lemma {:induction false} JoinedKeepsClean(lines: seq<string>)
    requires AllClean(lines)
    ensures NothingDropped(JoinLines(lines))
    decreases |lines|
  {
    if |lines| > 1 { JoinedKeepsClean(lines[1..]); }
  }

  /** The contents of a file are its byte order mark and its lines, unless a character was dropped. */
  lemma ContentsAreLines(contents: string)
    requires NothingDropped(contents)
    ensures FileText(HasBOM(contents), FileLines(contents)) == contents
  {
    hide SplitLines, JoinLines;
    if contents == "" {
      NoLines();
    } else if HasBOM(contents) {
      SplitDropsNul(contents[3..], "");
      JoinOfSplit(contents[3..], "");
      assert "" + contents[3..] == contents[3..] && BOM == contents[..3];
    } else {
      JoinOfSplit(contents, "");
      assert "" + contents == contents;
    }
  }

  lemma NoLines()
    ensures JoinLines([]) == ""
  {
  }

  /** Clean lines that were written are read as they are; only no lines behind a byte order mark are one empty line. */
  lemma WrittenLinesRead(isBOM: bool, lines: seq<string>)
    requires AllClean(lines) && (isBOM || !HasBOM(JoinLines(lines)))
    ensures NothingDropped(FileText(isBOM, lines))
    ensures lines != [] && lines != [""] ==> FileLines(FileText(isBOM, lines)) == lines
    ensures isBOM && lines == [""] ==> FileLines(FileText(isBOM, lines)) == lines
    ensures lines == [] ==> FileLines(FileText(isBOM, lines)) == if isBOM then [""] else []
  {
    hide SplitLines, JoinLines;
    var text, body := FileText(isBOM, lines), JoinLines(lines);
    JoinedKeepsClean(lines);
    NoLines();
    EmptyText(lines);
    if isBOM {
      assert text[3..] == body && HasBOM(text) && NothingDropped(BOM);
      SplitDropsNul(body, "");
    } else {
      assert text == body;
    }
    if lines != [] { SplitOfJoin(lines); }
  }

  lemma EmptyText(lines: seq<string>)
    ensures JoinLines(lines) == "" <==> lines == [] || lines == [""]
    ensures SplitLines("", "") == [""]
  {
  }

  // ---- all lines are kept ----

  lemma {:induction false} KeptAreKept(lines: seq<string>, inSection: bool)
    ensures AllKept(KeptLines(lines, inSection)) && |KeptLines(lines, inSection)| <= |lines|
    ensures |KeptLines(lines, inSection)| == |lines| ==> KeptLines(lines, inSection) == lines
    decreases |lines|
  {
    hide ParseLine;
    if lines != [] {
      var now := inSection || ParseLine(lines[0]).Section?;
      KeptAreKept(lines[1..], now);
      assert lines == [lines[0]] + lines[1..];
    }
  }

  /** A kept line alone is kept from its file. */
  lemma EmptyLineIsKept()
    ensures KeptLines([""], false) == [""]
  {
    hide ParseLine;
    EmptyIsNothing();
    assert [""][1..] == [];
  }

  lemma {:induction false} UpdatedLength(o: State, lines: seq<string>, O: Meaning, pretty: bool)
    ensures |Updated(o, lines, O, pretty)| == |lines|
    decreases |lines|
  {
    hide ParseLine, Effect, EntryOutput, Normal;
    if lines != [] { UpdatedLength(Effect(o, ParseLine(lines[0])), lines[1..], O, pretty); }
  }

  // ---- the file stays ----

  lemma ReadIsTrimmed(lines: seq<string>)
    ensures TrimmedMeaning(MeaningOf(lines)) == MeaningOf(lines)
  {
    hide ParseLine, Effects, Trim, Readable, NameOk, IsTrimmed;
    var O := MeaningOf(lines);
    EffectsReadable(NOWHERE, lines);
    forall s, k | s in O && k in O[s] ensures Trim(O[s][k]) == O[s][k] { TrimOfTrimmed(O[s][k]); }
    forall s | s in O ensures TrimmedMeaning(O)[s] == O[s] { }
  }

  /** The lines that are written back are clean, and as many as those that were kept. */
  lemma {:induction false} WrittenBack(contents: string, data: Structure, pretty: bool)
    requires StructureOk(data) && Flat(data) == Flat(Read(FileLines(contents)))
    ensures var job, kept := FileJob(contents, data, pretty), OldLines(contents);
      var out := LazyOutput(job, kept);
      && PlainLines(out) && |out| == |kept|
      && (out == kept <==> Stays(NOWHERE, kept, MeaningOf(kept)))
      && MeaningOf(kept) == MeaningOf(FileLines(contents))
  {
    hide ParseLine, Flat, FileLines, Effects, LazyOutput, Updated, Stays, StructureOk, TrimmedMeaning, CleanStructure;
    hide Read, PlainLines;
    var job, kept := FileJob(contents, data, pretty), OldLines(contents);
    FileJobOk(contents, data, pretty);
    MeaningIsRead(FileLines(contents));
    ReadIsTrimmed(FileLines(contents));
    CleanWhenRead(data, contents);
    OutputWritten(job, kept);
    KeptAreKept(FileLines(contents), false);
    RewriteOfUnchanged(job, kept);
    UpdatedLength(NOWHERE, kept, MeaningOf(kept), pretty);
    UnchangedFile(job, kept);
  }

  /** Writing the names and entries of a file back leaves every byte of it as it is exactly when it holds no NUL and no
      carriage return, the reader keeps all of its lines, and every entry line keeps its text. */
  lemma {:induction false} UnchangedContents(contents: string, data: Structure, pretty: bool)
    requires StructureOk(data) && Flat(data) == Flat(Read(FileLines(contents)))
    ensures var lines := FileLines(contents);
      LazyFile(contents, data, pretty) == contents <==>
      NothingDropped(contents) && KeptLines(lines, false) == lines && Stays(NOWHERE, lines, MeaningOf(lines))
  {
    hide ParseLine, Flat, FileLines, Effects, LazyOutput, Stays, StructureOk, KeptLines, JoinLines, PlainStart, Read;
    hide HasBOM;
    var lines, kept := FileLines(contents), OldLines(contents);
    var out := LazyOutput(FileJob(contents, data, pretty), kept);
    WrittenBack(contents, data, pretty);
    if NothingDropped(contents) && kept == lines {
      ContentsAreLines(contents);
      if LazyFile(contents, data, pretty) == contents { SameLines(contents, out, kept); }
    } else if LazyFile(contents, data, pretty) == contents {
      SameLines(contents, out, kept);
    }
  }

  /** When the written text is the old one, the written lines are those of the file, and all lines were kept. */
  lemma SameLines(contents: string, out: seq<string>, kept: seq<string>)
    requires PlainLines(out) && |out| == |kept| && kept == KeptLines(FileLines(contents), false)
    requires FileText(HasBOM(contents), out) == contents
    ensures NothingDropped(contents) && kept == FileLines(contents) == out
  {
    hide SplitLines, JoinLines, KeptLines, PlainStart, Loaded;
    PlainIsNoBOM(out);
    WrittenLinesRead(HasBOM(contents), out);
    EmptyText(out);
    KeptAreKept(FileLines(contents), false);
    EmptyLineIsKept();
  }

  /** Of the files that repeat no key in a section just those stay from which nothing is dropped. */
  lemma {:induction false} UnrepeatedContents(contents: string, data: Structure, pretty: bool)
    requires StructureOk(data) && Flat(data) == Flat(Read(FileLines(contents)))
    requires NoRepeats(NOWHERE, FileLines(contents))
    ensures var lines := FileLines(contents);
      LazyFile(contents, data, pretty) == contents <==> NothingDropped(contents) && KeptLines(lines, false) == lines
  {
    hide Flat, FileLines, Effects, LazyFile, Settled, Stays, StructureOk, KeptLines, NoRepeats, Read;
    var lines := FileLines(contents);
    UnchangedContents(contents, data, pretty);
    NoRepeatsSettled(NOWHERE, lines);
    SettledStays(NOWHERE, lines, MeaningOf(lines));
  }

  /** For example a line that is neither blank, comment, header nor entry is not written back, although nothing is
      repeated. */
  lemma UnknownLineIsLost(pretty: bool)
    ensures var contents := "[s]\nfoo"; LazyFile(contents, Read(FileLines(contents)), pretty) != contents
  {
    hide ParseLine, LazyFile, Flat, Stays, Effects, FileLines, KeptLines, ReadLines;
    var contents := "[s]\nfoo";
    var lines := FileLines(contents);
    assert contents == "[s]" + [LINE_END] + "foo";
    TwoLines("[s]", "foo");
    NoEqualsUnknown("foo");
    LastIsDropped("[s]", "foo");
    ReadLinesOk(NOTHING_READ, lines);
    UnchangedContents(contents, Read(lines), pretty);
  }

  lemma TwoLines(a: string, b: string)
    requires Clean(a) && Clean(b) && a != "" && a[0] as int != 0xEF
    ensures FileLines(a + [LINE_END] + b) == [a, b]
  {
    hide SplitLines, Clean;
    assert [a, b][1..] == [b] && JoinLines([a, b]) == a + [LINE_END] + b;
    SplitOfJoin([a, b]);
  }

  lemma LastIsDropped(a: string, b: string)
    requires ParseLine(b).Unknown?
    ensures KeptLines([a, b], false) != [a, b]
  {
    hide ParseLine;
    assert [a, b][1..] == [b] && [b][1..] == [];
    var now := ParseLine(a).Section?;
    assert KeptLines([b], now) == [];
    assert |KeptLines([a, b], false)| <= 1;
  }

  lemma NoEqualsUnknown(line: string)
    requires line != "" && IsTrimmed(line) && '=' !in line && line[0] != ';' && line[0] != '['
    ensures ParseLine(line).Unknown?
  {
    hide Trim, Blanked, UnescapeKey;
    TrimOfTrimmed(line);
    BlankedAt(line);
    forall i: nat | i < |line| ensures Blanked(line)[i] != '=' { assert Blanked(line)[i] == BlankedChar(line, i); }
  }
}
