/** INIReader: splitting a file into lines and folding the lines into sections. */
module IniReader {
  import opened Text
  import opened IniParser
  import opened IniMap

  type Entries = Items<string>
  type Structure = Items<Entries>

  predicate StructureOk(s: Structure) {
    WellFormed(s) && forall i | 0 <= i < |s| :: WellFormed(s[i].1)
  }

  // ---- readFile ----

  const LINE_END := '\n'

  /** Characters that never reach a line: the line end itself, NUL and carriage return. */
  predicate Dropped(c: char) { c == '\n' || c == '\0' || c == '\r' }

  predicate Clean(s: string) { forall i | 0 <= i < |s| :: !Dropped(s[i]) }

  /** The UTF-8 byte order mark. */
  predicate HasBOM(contents: string) {
    |contents| >= 3 && contents[0] as int == 0xEF && contents[1] as int == 0xBB && contents[2] as int == 0xBF
  }

  /** The buffer after reading: past a BOM the buffer keeps its size, so three NULs end it. */
  function Loaded(contents: string): string {
    if HasBOM(contents) then contents[3..] + "\0\0\0" else contents
  }

  /** The lines of a text, the first of them continuing what is in the buffer. */
  function SplitLines(text: string, buffer: string): (lines: seq<string>)
    ensures |lines| > 0
    decreases |text|
  {
    if text == "" then [buffer]
    else if text[0] == LINE_END then [buffer] + SplitLines(text[1..], "")
    else SplitLines(text[1..], if Dropped(text[0]) then buffer else buffer + [text[0]])
  }

  function FileLines(contents: string): seq<string> {
    if contents == "" then [] else SplitLines(Loaded(contents), "")
  }

  method ReadFile(contents: string) returns (isBOM: bool, output: seq<string>)
    ensures isBOM == HasBOM(contents)
    ensures output == FileLines(contents)
  {
    isBOM := |contents| >= 3 && contents[0] as int == 0xEF && contents[1] as int == 0xBB && contents[2] as int == 0xBF;
    output := [];
    if contents == "" { return; }
    var fileContents := if isBOM then contents[3..] + "\0\0\0" else contents;
    var buffer := "";
    var i := 0;
    while i < |fileContents|
      invariant 0 <= i <= |fileContents|
      invariant output + SplitLines(fileContents[i..], buffer) == SplitLines(fileContents, "")
    {
      var c := fileContents[i];
      if c == '\n' {
        output := output + [buffer];
        buffer := "";
      } else if c != '\0' && c != '\r' {
        buffer := buffer + [c];
      }
      i := i + 1;
    }
    output := output + [buffer];
  }

  /** What the writers put between lines. */
  function JoinLines(lines: seq<string>): string {
    if lines == [] then "" else if |lines| == 1 then lines[0] else lines[0] + [LINE_END] + JoinLines(lines[1..])
  }

  lemma {:induction false} SplitCleanPrefix(line: string, rest: string, buffer: string)
    requires Clean(line)
    ensures SplitLines(line + rest, buffer) == SplitLines(rest, buffer + line)
    decreases |line|
  {
    if line == "" {
      assert line + rest == rest && buffer + line == buffer;
    } else {
      assert (line + rest)[1..] == line[1..] + rest;
      SplitCleanPrefix(line[1..], rest, buffer + [line[0]]);
      assert buffer + [line[0]] + line[1..] == buffer + line;
    }
  }

  /** Lines without line ends, NULs and carriage returns come back from the file as they were. */
  lemma {:induction false} SplitOfJoin(lines: seq<string>)
    requires lines != [] && forall i | 0 <= i < |lines| :: Clean(lines[i])
    ensures SplitLines(JoinLines(lines), "") == lines
  {
    hide Clean;
    if |lines| == 1 {
      SplitCleanPrefix(lines[0], "", "");
      assert lines[0] + "" == lines[0] && "" + lines[0] == lines[0];
    } else {
      var rest := [LINE_END] + JoinLines(lines[1..]);
      assert JoinLines(lines) == lines[0] + rest;
      SplitCleanPrefix(lines[0], rest, "");
      assert "" + lines[0] == lines[0] && rest[1..] == JoinLines(lines[1..]);
      SplitOfJoin(lines[1..]);
    }
  }

  lemma {:induction false} SplitLinesAreClean(text: string, buffer: string)
    requires Clean(buffer)
    ensures forall i | 0 <= i < |SplitLines(text, buffer)| :: Clean(SplitLines(text, buffer)[i])
    decreases |text|
  {
    if text != "" {
      if text[0] == LINE_END {
        SplitLinesAreClean(text[1..], "");
      } else {
        SplitLinesAreClean(text[1..], if Dropped(text[0]) then buffer else buffer + [text[0]]);
      }
    }
  }

  // ---- operator>> ----

  /** The sections read so far and the section that entries go to, by its normal name. */
  datatype Reading = Reading(sections: Structure, current: Option<string>)

  const NOTHING_READ := Reading([], None)

  function ReadLine(r: Reading, line: string): Reading {
    match ParseLine(line)
    case Section(name) =>
      Reading(Touch(r.sections, Normal(name), []), Some(Normal(name)))
    case KeyValue(key, value) =>
      if r.current.None? then r
      else
        var entries := Lookup(r.sections, r.current.value, []);
        r.(sections := Put(r.sections, r.current.value, Put(entries, Normal(key), value)))
    case _ => r
  }

  function ReadLines(r: Reading, lines: seq<string>): Reading
    decreases lines
  {
    if lines == [] then r else ReadLines(ReadLine(r, lines[0]), lines[1..])
  }

  /** The structure that reading the lines of a file yields. */
  function Read(lines: seq<string>): Structure { ReadLines(NOTHING_READ, lines).sections }

  /** The lines worth writing back: all but the unknown ones and the entries before the first section. */
  predicate Kept(line: string, inSection: bool) {
    var p := ParseLine(line);
    !p.Unknown? && (p.KeyValue? ==> inSection)
  }

  function KeptLines(lines: seq<string>, inSection: bool): seq<string>
    decreases lines
  {
    if lines == [] then []
    else
      var now := inSection || ParseLine(lines[0]).Section?;
      (if Kept(lines[0], now) then [lines[0]] else []) + KeptLines(lines[1..], now)
  }

  /** data[section][key] = value. */
  method Assign(data: INIMap<Entries>, section: string, key: string, value: string)
    requires data.Valid()
    modifies data
    ensures data.Valid()
    ensures data.data ==
      Put(old(data.data), Normal(section), Put(Lookup(old(data.data), Normal(section), []), Normal(key), value))
  {
    var entries := data.GetValue(section, []);
    data.Set(section, Put(entries, Normal(key), value));
  }

  /** The body of the reading loop for one line. */
  method ReadOne(data: INIMap<Entries>, line: string, section: string, inSection: bool)
    returns (parsed: Parsed, section': string, inSection': bool)
    requires data.Valid()
    modifies data
    ensures data.Valid() && parsed == ParseLine(line)
    ensures Reading(data.data, if inSection' then Some(Normal(section')) else None) ==
      ReadLine(Reading(old(data.data), if inSection then Some(Normal(section)) else None), line)
    ensures inSection' == (inSection || parsed.Section?)
  {
    parsed, section', inSection' := ParseLine(line), section, inSection;
    if parsed.Section? {
      inSection' := true;
      section' := parsed.name;
      var _ := data.Index(section', []);
    } else if inSection && parsed.KeyValue? {
      Assign(data, section, parsed.key, parsed.value);
    }
  }

  method ReadStructure(fileLines: seq<string>, data: INIMap<Entries>) returns (lineData: seq<string>)
    requires data.Valid() && data.data == []
    modifies data
    ensures data.Valid() && data.data == Read(fileLines)
    ensures lineData == KeptLines(fileLines, false)
  {
    lineData := [];
    var section := "";
    var inSection := false;
    ghost var r := NOTHING_READ;
    var n := 0;
    while n < |fileLines|
      invariant 0 <= n <= |fileLines| && data.Valid()
      invariant r == Reading(data.data, if inSection then Some(Normal(section)) else None)
      invariant ReadLines(r, fileLines[n..]) == ReadLines(NOTHING_READ, fileLines)
      invariant lineData + KeptLines(fileLines[n..], inSection) == KeptLines(fileLines, false)
    {
      var line := fileLines[n];
      UnfoldReading(r, fileLines, n);
      UnfoldKept(lineData, inSection, fileLines, n);
      r := ReadLine(r, line);
      var parsed;
      parsed, section, inSection := ReadOne(data, line, section, inSection);
      if !parsed.Unknown? && !(parsed.KeyValue? && !inSection) {
        lineData := lineData + [line];
      }
      n := n + 1;
    }
  }

  lemma {:induction false} UnfoldReading(r: Reading, lines: seq<string>, n: nat)
    requires n < |lines|
    ensures ReadLines(r, lines[n..]) == ReadLines(ReadLine(r, lines[n]), lines[n + 1..])
  {
    assert lines[n..][1..] == lines[n + 1..];
  }

  lemma {:induction false} UnfoldKept(kept: seq<string>, inSection: bool, lines: seq<string>, n: nat)
    requires n < |lines|
    ensures var now := inSection || ParseLine(lines[n]).Section?;
      var next := if Kept(lines[n], now) then kept + [lines[n]] else kept;
      kept + KeptLines(lines[n..], inSection) == next + KeptLines(lines[n + 1..], now)
  {
    hide ParseLine, Kept;
    var now := inSection || ParseLine(lines[n]).Section?;
    var rest := KeptLines(lines[n + 1..], now);
    var head := if Kept(lines[n], now) then [lines[n]] else [];
    assert lines[n..][1..] == lines[n + 1..];
    assert KeptLines(lines[n..], inSection) == head + rest;
    assert kept + (head + rest) == (kept + head) + rest;
    assert kept + [] == kept;
  }

  // ---- what reading keeps ----

  lemma {:induction false} ReadLinesSplit(r: Reading, a: seq<string>, b: seq<string>)
    ensures ReadLines(r, a + b) == ReadLines(ReadLines(r, a), b)
    decreases |a|
  {
    if a == [] {
      assert a + b == b;
    } else {
      assert (a + b)[1..] == a[1..] + b;
      ReadLinesSplit(ReadLine(r, a[0]), a[1..], b);
    }
  }

  ghost predicate ReadingOk(r: Reading) {
    && StructureOk(r.sections)
    && (r.current.Some? ==> Has(r.sections, r.current.value) && Normal(r.current.value) == r.current.value)
  }

  lemma {:induction false} ReadLineOk(r: Reading, line: string)
    requires ReadingOk(r)
    ensures ReadingOk(ReadLine(r, line))
  {
    match ParseLine(line)
    case Section(name) =>
      NormalShape(name);
      PutStructureOk(r.sections, Normal(name), []);
    case KeyValue(key, value) =>
      if r.current.Some? {
        NormalShape(key);
        var entries := Get(r.sections, r.current.value);
        PutWellFormed(entries, Normal(key), value);
        PutStructureOk(r.sections, r.current.value, Put(entries, Normal(key), value));
      }
    case _ =>
  }

  lemma {:induction false} PutStructureOk(s: Structure, name: string, entries: Entries)
    requires StructureOk(s) && Normal(name) == name && WellFormed(entries)
    ensures StructureOk(Put(s, name, entries)) && Has(Put(s, name, entries), name)
  {
    PutWellFormed(s, name, entries);
    FindAfterPut(s, name, entries, name);
  }

  lemma {:induction false} ReadLinesOk(r: Reading, lines: seq<string>)
    requires ReadingOk(r)
    ensures ReadingOk(ReadLines(r, lines))
    decreases |lines|
  {
    if lines != [] {
      ReadLineOk(r, lines[0]);
      ReadLinesOk(ReadLine(r, lines[0]), lines[1..]);
    }
  }

  /** Dropping the lines that are not kept changes nothing that is read. */
  lemma {:induction false} KeptLinesReadAlike(r: Reading, lines: seq<string>)
    ensures ReadLines(r, KeptLines(lines, r.current.Some?)) == ReadLines(r, lines)
    decreases |lines|
  {
    if lines != [] {
      var next := ReadLine(r, lines[0]);
      KeptLinesReadAlike(next, lines[1..]);
      KeptLinesStep(r, lines);
      var rest := KeptLines(lines[1..], next.current.Some?);
      assert ([lines[0]] + rest)[1..] == rest && [] + rest == rest;
    }
  }

  lemma {:induction false} KeptLinesStep(r: Reading, lines: seq<string>)
    requires lines != []
    ensures var next := ReadLine(r, lines[0]);
      var rest := KeptLines(lines[1..], next.current.Some?);
      KeptLines(lines, r.current.Some?) == (if Kept(lines[0], next.current.Some?) then [lines[0]] else []) + rest
    ensures !Kept(lines[0], ReadLine(r, lines[0]).current.Some?) ==> ReadLine(r, lines[0]) == r
  {
    var p := ParseLine(lines[0]);
    assert ReadLine(r, lines[0]).current.Some? == (r.current.Some? || p.Section?);
  }
}
