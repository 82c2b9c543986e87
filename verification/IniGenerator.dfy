/** INIGenerator: printing a structure, and exactly which structures survive
    being printed and read again. */
module IniGenerator {
  import opened Text
  import opened IniParser
  import opened IniEntry
  import opened IniMap
  import opened IniReader

  function EntryLines(entries: Entries, pretty: bool): seq<string> {
    if entries == [] then [] else [EntryLine(entries[0].0, entries[0].1, pretty)] + EntryLines(entries[1..], pretty)
  }

  function Block(name: string, entries: Entries, pretty: bool): seq<string> {
    [SectionLine(name)] + EntryLines(entries, pretty)
  }

  /** One block a section; pretty printing puts an empty line between two blocks. */
  function GeneratedLines(data: Structure, pretty: bool): seq<string> {
    if data == [] then []
    else
      Block(data[0].0, data[0].1, pretty) +
      (if |data| == 1 then [] else (if pretty then [""] else []) + GeneratedLines(data[1..], pretty))
  }

  lemma {:induction false} JoinStep(line: string, rest: seq<string>)
    requires rest != []
    ensures JoinLines([line] + rest) == line + [LINE_END] + JoinLines(rest)
  {
    assert ([line] + rest)[1..] == rest;
  }

  lemma {:induction false} JoinSplit(a: seq<string>, b: seq<string>)
    requires a != [] && b != []
    ensures JoinLines(a + b) == JoinLines(a) + [LINE_END] + JoinLines(b)
    decreases |a|
  {
    if |a| == 1 {
      assert a == [a[0]];
      JoinStep(a[0], b);
    } else {
      assert a + b == [a[0]] + (a[1..] + b);
      JoinStep(a[0], a[1..] + b);
      JoinSplit(a[1..], b);
    }
  }

  /** The inner loop: the entries of one section, line ends between them. */
  method WriteEntries(entries: Entries, prettyPrint: bool) returns (out: string)
    requires entries != []
    ensures out == JoinLines(EntryLines(entries, prettyPrint))
  {
    out := "";
    var it2 := 0;
    while true
      invariant 0 <= it2 < |entries|
      invariant out + JoinLines(EntryLines(entries[it2..], prettyPrint)) == JoinLines(EntryLines(entries, prettyPrint))
      decreases |entries| - it2
    {
      var key := Replace(entries[it2].0, "=", "\\=");
      var value := Trim(entries[it2].1);
      var line := key + (if prettyPrint then " = " else "=") + value;
      EntryText(entries, it2, prettyPrint);
      Appended(out, line, "\n", JoinLines(EntryLines(entries[it2 + 1..], prettyPrint)));
      out := out + line;
      it2 := it2 + 1;
      if it2 == |entries| { break; }
      out := out + "\n";
    }
  }

  lemma Appended(out: string, a: string, b: string, c: string)
    ensures out + (a + (b + c)) == out + a + b + c
  {
  }

  lemma {:induction false} EntryText(entries: Entries, j: nat, pretty: bool)
    requires j < |entries|
    ensures JoinLines(EntryLines(entries[j..], pretty)) == EntryLine(entries[j].0, entries[j].1, pretty) +
      (if j + 1 == |entries| then "" else "\n" + JoinLines(EntryLines(entries[j + 1..], pretty)))
  {
    assert entries[j..][1..] == entries[j + 1..];
    if j + 1 < |entries| {
      JoinStep(EntryLine(entries[j].0, entries[j].1, pretty), EntryLines(entries[j + 1..], pretty));
    }
  }

  /** A section header and, when there are any, its entries. */
  method WriteSection(section: string, collection: Entries, prettyPrint: bool) returns (out: string)
    ensures out == JoinLines(Block(section, collection, prettyPrint))
  {
    out := "[" + section + "]";
    if collection != [] {
      var entries := WriteEntries(collection, prettyPrint);
      JoinStep(SectionLine(section), EntryLines(collection, prettyPrint));
      out := out + "\n" + entries;
    }
  }

  method Generate(data: Structure, prettyPrint: bool) returns (out: string)
    ensures out == JoinLines(GeneratedLines(data, prettyPrint))
  {
    out := "";
    if data == [] { return; }
    var it := 0;
    while true
      invariant 0 <= it < |data|
      invariant out + JoinLines(GeneratedLines(data[it..], prettyPrint)) == JoinLines(GeneratedLines(data, prettyPrint))
      decreases |data| - it
    {
      var written := WriteSection(data[it].0, data[it].1, prettyPrint);
      BlockText(data, it, prettyPrint);
      ghost var rest := JoinLines(GeneratedLines(data[it + 1..], prettyPrint));
      Appended(out, written, if prettyPrint then "\n\n" else "\n", rest);
      out := out + written;
      it := it + 1;
      if it == |data| { break; }
      ghost var before := out;
      out := out + "\n";
      if prettyPrint {
        out := out + "\n";
        assert out == before + "\n\n";
      }
    }
  }

  lemma {:induction false} BlockText(data: Structure, it: nat, pretty: bool)
    requires it < |data|
    ensures JoinLines(GeneratedLines(data[it..], pretty)) ==
      JoinLines(Block(data[it].0, data[it].1, pretty)) +
      (if it + 1 == |data| then ""
       else (if pretty then "\n\n" else "\n") + JoinLines(GeneratedLines(data[it + 1..], pretty)))
  {
    var block := Block(data[it].0, data[it].1, pretty);
    assert data[it..][1..] == data[it + 1..];
    if it + 1 == |data| {
      assert GeneratedLines(data[it..], pretty) == block + [] == block;
    } else {
      var rest := GeneratedLines(data[it + 1..], pretty);
      if pretty {
        JoinSplit(block, [""] + rest);
        JoinStep("", rest);
      } else {
        assert [] + rest == rest;
        JoinSplit(block, rest);
      }
    }
  }

  // ---- what a generated file reads back as ----

  function TrimmedEntries(entries: Entries): (r: Entries)
    ensures |r| == |entries|
    ensures forall j | 0 <= j < |r| :: r[j] == (entries[j].0, Trim(entries[j].1))
  {
    seq(|entries|, j requires 0 <= j < |entries| => (entries[j].0, Trim(entries[j].1)))
  }

  /** The structure with its values trimmed. */
  function Trimmed(data: Structure): (r: Structure)
    ensures |r| == |data|
    ensures forall i | 0 <= i < |r| :: r[i] == (data[i].0, TrimmedEntries(data[i].1))
  {
    seq(|data|, i requires 0 <= i < |data| => (data[i].0, TrimmedEntries(data[i].1)))
  }

  predicate NameOk(name: string) { ';' !in name }

  predicate EntriesOk(entries: Entries, pretty: bool) {
    forall j | 0 <= j < |entries| :: EntryOk(entries[j].0, entries[j].1, pretty)
  }

  predicate LinesOk(data: Structure, pretty: bool) {
    forall i | 0 <= i < |data| :: NameOk(data[i].0) && EntriesOk(data[i].1, pretty)
  }

  lemma {:induction false} AppendItem<T>(m: Items<T>, key: string, value: T)
    requires !Has(m, key)
    ensures Put(m, key, value) == m + [(key, value)] == Touch(m, key, value)
    ensures Find(m + [(key, value)], key) == |m|
  {
    FindIs(m + [(key, value)], key, |m|);
  }

  lemma {:induction false} ReplaceLast<T>(m: Items<T>, key: string, old_: T, value: T)
    requires !Has(m, key)
    ensures Put(m + [(key, old_)], key, value) == m + [(key, value)]
    ensures Lookup(m + [(key, old_)], key, value) == old_
  {
    FindIs(m + [(key, old_)], key, |m|);
  }

  /** One well-formed entry is appended to the section being read. */
  lemma {:induction false} EntryReadBack(before: Structure, name: string, done: Entries, key: string, value: string,
    pretty: bool)
    requires !Has(before, name) && Normal(name) == name
    requires !Has(done, key) && Normal(key) == key && EntryOk(key, value, pretty)
    ensures ReadLine(Reading(before + [(name, done)], Some(name)), EntryLine(key, value, pretty)) ==
      Reading(before + [(name, done + [(key, Trim(value))])], Some(name))
  {
    hide ParseLine, EntryLine, Trim, EntryOk, Normal;
    NormalShape(key);
    EntryRoundTrip(key, value, pretty);
    AppendItem(done, key, Trim(value));
    ReplaceLast(before, name, done, done + [(key, Trim(value))]);
    ReplaceLast(before, name, done, []);
  }

  /** The lines of well-formed entries add them, in order, to the section being read. */
  lemma {:induction false} EntriesReadBack(before: Structure, name: string, done: Entries, entries: Entries,
    pretty: bool)
    requires !Has(before, name) && Normal(name) == name
    requires WellFormed(done + TrimmedEntries(entries)) && EntriesOk(entries, pretty)
    ensures ReadLines(Reading(before + [(name, done)], Some(name)), EntryLines(entries, pretty)) ==
      Reading(before + [(name, done + TrimmedEntries(entries))], Some(name))
    decreases |entries|
  {
    hide ParseLine, EntryLine, Trim, EntryOk, Normal, Find, Put;
    if entries == [] {
      assert done + TrimmedEntries(entries) == done;
    } else {
      var (key, value) := entries[0];
      NextEntryIsNew(done, entries);
      EntryReadBack(before, name, done, key, value, pretty);
      var next := done + [(key, Trim(value))];
      assert done + TrimmedEntries(entries) == next + TrimmedEntries(entries[1..]);
      EntriesReadBack(before, name, next, entries[1..], pretty);
      assert EntryLines(entries, pretty)[1..] == EntryLines(entries[1..], pretty);
    }
  }

  lemma {:induction false} NextEntryIsNew(done: Entries, entries: Entries)
    requires entries != [] && WellFormed(done + TrimmedEntries(entries))
    ensures !Has(done, entries[0].0) && Normal(entries[0].0) == entries[0].0
  {
    var all := done + TrimmedEntries(entries);
    assert all[|done|].0 == entries[0].0;
    assert forall j | 0 <= j < |done| :: all[j] == done[j];
  }

  lemma {:induction false} HeaderReadBack(before: Structure, current: Option<string>, name: string)
    requires !Has(before, name) && Normal(name) == name && NameOk(name)
    ensures ReadLine(Reading(before, current), SectionLine(name)) == Reading(before + [(name, [])], Some(name))
  {
    hide ParseLine, Normal, SectionLine, Find;
    NormalShape(name);
    SectionRoundTrip(name);
    AppendItem(before, name, []);
  }

  lemma TrimmedStep(before: Structure, data: Structure)
    requires data != []
    ensures before + Trimmed(data) == before + [(data[0].0, TrimmedEntries(data[0].1))] + Trimmed(data[1..])
  {
  }

  /** The blocks of a well-formed structure add its sections, in order. */
  lemma {:induction false} BlocksReadBack(before: Structure, current: Option<string>, data: Structure, pretty: bool)
    requires StructureOk(before + Trimmed(data)) && LinesOk(data, pretty)
    ensures ReadLines(Reading(before, current), GeneratedLines(data, pretty)).sections == before + Trimmed(data)
    decreases |data|
  {
    hide ParseLine, EntryLine, Trim, EntryOk, Normal, Find, Put, SectionLine, TrimmedEntries;
    if data == [] {
      assert before + Trimmed(data) == before;
    } else {
      var (name, entries) := data[0];
      var r, r1 := Reading(before, current), Reading(before + [(name, [])], Some(name));
      var next := before + [(name, TrimmedEntries(entries))];
      var r2 := Reading(next, Some(name));
      NextSectionIsNew(before, data);
      HeaderReadBack(before, current, name);
      assert [] + TrimmedEntries(entries) == TrimmedEntries(entries);
      EntriesReadBack(before, name, [], entries, pretty);
      var block := Block(name, entries, pretty);
      assert block[1..] == EntryLines(entries, pretty);
      assert ReadLines(r, block) == r2;
      TrimmedStep(before, data);
      BlocksReadBack(next, Some(name), data[1..], pretty);
      if |data| == 1 {
        assert GeneratedLines(data, pretty) == block + [] == block && GeneratedLines(data[1..], pretty) == [];
      } else {
        var rest := GeneratedLines(data[1..], pretty);
        ReadLinesSplit(r, block, if pretty then [""] + rest else [] + rest);
        assert ([""] + rest)[1..] == rest && [] + rest == rest;
        EmptyLineReadsNothing(r2);
      }
    }
  }

  lemma {:induction false} NextSectionIsNew(before: Structure, data: Structure)
    requires data != [] && StructureOk(before + Trimmed(data))
    ensures !Has(before, data[0].0) && Normal(data[0].0) == data[0].0
    ensures WellFormed(TrimmedEntries(data[0].1))
  {
    var all := before + Trimmed(data);
    assert all[|before|] == (data[0].0, TrimmedEntries(data[0].1));
    assert forall j | 0 <= j < |before| :: all[j] == before[j];
  }

  lemma EmptyLineReadsNothing(r: Reading)
    ensures ReadLine(r, "") == r
  {
  }

  // ---- and nothing else does ----

  /** What holds of every entry of a structure. */
  ghost predicate AllEntries(s: Structure, P: (string, string) -> bool) {
    forall i, j | 0 <= i < |s| && 0 <= j < |s[i].1| :: P(s[i].1[j].0, s[i].1[j].1)
  }

  ghost predicate AllNames(s: Structure, Q: string -> bool) {
    forall i | 0 <= i < |s| :: Q(s[i].0)
  }

  /** A property of every name and entry that a line can bring is a property of everything read. */
  lemma {:induction false} ReadLinesKeep(r: Reading, lines: seq<string>, Q: string -> bool, P: (string, string) -> bool)
    requires AllNames(r.sections, Q) && AllEntries(r.sections, P)
    requires r.current.Some? ==> Q(r.current.value)
    requires forall k | 0 <= k < |lines| && ParseLine(lines[k]).Section? :: Q(Normal(ParseLine(lines[k]).name))
    requires forall k | 0 <= k < |lines| && ParseLine(lines[k]).KeyValue? ::
      P(Normal(ParseLine(lines[k]).key), ParseLine(lines[k]).value)
    ensures var s := ReadLines(r, lines).sections; AllNames(s, Q) && AllEntries(s, P)
    decreases |lines|
  {
    hide ParseLine, Normal;
    if lines != [] {
      assert lines[0] == lines[0..][0];
      ReadLineKeeps(r, lines[0], Q, P);
      ReadLinesKeep(ReadLine(r, lines[0]), lines[1..], Q, P);
    }
  }

  lemma {:induction false} ReadLineKeeps(r: Reading, line: string, Q: string -> bool, P: (string, string) -> bool)
    requires AllNames(r.sections, Q) && AllEntries(r.sections, P)
    requires r.current.Some? ==> Q(r.current.value)
    requires ParseLine(line).Section? ==> Q(Normal(ParseLine(line).name))
    requires ParseLine(line).KeyValue? ==> P(Normal(ParseLine(line).key), ParseLine(line).value)
    ensures var n := ReadLine(r, line);
      AllNames(n.sections, Q) && AllEntries(n.sections, P) && (n.current.Some? ==> Q(n.current.value))
  {
    hide ParseLine, Normal;
    if ParseLine(line).KeyValue? && r.current.Some? {
      var key, value := Normal(ParseLine(line).key), ParseLine(line).value;
      var entries := Lookup(r.sections, r.current.value, []);
      var more := Put(entries, key, value);
      assert forall j | 0 <= j < |more| :: more[j] == (key, value) || (j < |entries| && more[j] == entries[j]);
      var s := Put(r.sections, r.current.value, more);
      assert forall i | 0 <= i < |s| :: s[i] == (r.current.value, more) || (i < |r.sections| && s[i] == r.sections[i]);
    }
  }

  /** An entry that some clean line denotes. */
  predicate Denotable(key: string, value: string) {
    Readable(key, value) && Clean(key) && Clean(value)
  }

  predicate NameDenotable(name: string) { NameOk(name) && Clean(name) }

  lemma CleanLacks(s: string)
    ensures Clean(s) <==> '\n' !in s && '\0' !in s && '\r' !in s
  {
  }

  lemma NormalLacks(s: string, c: char)
    requires c !in s && !('a' <= c <= 'z')
    ensures c !in Normal(s)
  {
    TrimLacks(s, c);
    var t := Trim(s);
    assert forall i | 0 <= i < |t| :: LowerChar(t[i]) == c ==> t[i] == c;
  }

  lemma DenotableWhenRead(line: string)
    requires Clean(line)
    ensures ParseLine(line).Section? ==> NameDenotable(Normal(ParseLine(line).name))
    ensures ParseLine(line).KeyValue? ==> Denotable(Normal(ParseLine(line).key), ParseLine(line).value)
  {
    hide ParseLine, Normal;
    ParsedIsReadable(line);
    CleanLacks(line);
    ParsedLacks(line, '\n');
    ParsedLacks(line, '\0');
    ParsedLacks(line, '\r');
    var p := ParseLine(line);
    if p.Section? {
      NormalLacks(p.name, ';');
      NormalLacks(p.name, '\n');
      NormalLacks(p.name, '\0');
      NormalLacks(p.name, '\r');
      CleanLacks(Normal(p.name));
    } else if p.KeyValue? {
      NormalLacks(p.key, '\n');
      NormalLacks(p.key, '\0');
      NormalLacks(p.key, '\r');
      CleanLacks(Normal(p.key));
      CleanLacks(p.value);
      NormalReadable(p.key, p.value);
    }
  }

  lemma NormalReadable(key: string, value: string)
    requires IsTrimmed(key) && Readable(key, value)
    ensures Readable(Normal(key), value)
  {
    TrimOfTrimmed(key);
    if key != "" && Normal(key)[0] == '[' {
      assert key[0] == '[';
      NormalLacks(key, ';');
      NormalLacks(key, ']');
    }
  }

  /** Names and entries that some file can hold. */
  predicate AllDenotable(data: Structure) {
    forall i | 0 <= i < |data| :: NameDenotable(data[i].0) &&
      forall j | 0 <= j < |data[i].1| :: Denotable(data[i].1[j].0, Trim(data[i].1[j].1))
  }

  predicate EndsInBackslash(key: string) { key != "" && key[|key| - 1] == '\\' }

  /** No key up to this length ends in a backslash. */
  predicate NoBackslashUpTo(data: Structure, length: nat) {
    forall i, j | 0 <= i < |data| && 0 <= j < |data[i].1| ::
      |data[i].1[j].0| <= length ==> !EndsInBackslash(data[i].1[j].0)
  }

  predicate NoBackslash(data: Structure) {
    forall i, j | 0 <= i < |data| && 0 <= j < |data[i].1| :: !EndsInBackslash(data[i].1[j].0)
  }

  /** Exactly the structures that generate() followed by read() preserves. */
  predicate Generable(data: Structure, pretty: bool) {
    AllDenotable(data) && (pretty || NoBackslash(data))
  }

  /** What generate() puts into the file and read() takes out of it. */
  function ReadBack(data: Structure, pretty: bool): Structure {
    Read(FileLines(JoinLines(GeneratedLines(data, pretty))))
  }

  predicate AllClean(lines: seq<string>) { forall k | 0 <= k < |lines| :: Clean(lines[k]) }

  lemma {:induction false} EscapedIsClean(key: string)
    requires Clean(key)
    ensures Clean(EscapeKey(key))
  {
    hide Replaced;
    EscapedShape(key);
    var e := EscapeKey(key);
    forall i | 0 <= i < |e| ensures !Dropped(e[i]) {
      assert e[i] in e;
    }
  }

  lemma {:induction false} EntryLinesAreClean(entries: Entries, pretty: bool)
    requires forall j | 0 <= j < |entries| :: Denotable(entries[j].0, Trim(entries[j].1))
    ensures AllClean(EntryLines(entries, pretty))
    decreases |entries|
  {
    hide EscapeKey, Trim;
    if entries != [] {
      EscapedIsClean(entries[0].0);
      EntryLinesAreClean(entries[1..], pretty);
    }
  }

  lemma {:induction false} GeneratedAreClean(data: Structure, pretty: bool)
    requires AllDenotable(data)
    ensures AllClean(GeneratedLines(data, pretty))
    decreases |data|
  {
    hide Trim;
    if data != [] {
      EntryLinesAreClean(data[0].1, pretty);
      GeneratedAreClean(data[1..], pretty);
    }
  }

  /** A denotable structure comes back from the file as the very lines that were generated. */
  lemma {:induction false} GeneratedFileLines(data: Structure, pretty: bool)
    requires AllDenotable(data)
    ensures FileLines(JoinLines(GeneratedLines(data, pretty))) == GeneratedLines(data, pretty)
  {
    hide Trim, SplitLines;
    var lines := GeneratedLines(data, pretty);
    if data != [] {
      GeneratedAreClean(data, pretty);
      SplitOfJoin(lines);
      assert lines[0] == SectionLine(data[0].0);
      assert JoinLines(lines)[0] == '[';
    }
  }

  lemma {:induction false} TrimmedOk(data: Structure)
    requires StructureOk(data)
    ensures StructureOk(Trimmed(data))
  {
    SameKeysWellFormed(data, Trimmed(data));
    forall i | 0 <= i < |data| ensures WellFormed(Trimmed(data)[i].1) {
      SameKeysWellFormed(data[i].1, TrimmedEntries(data[i].1));
    }
  }

  lemma {:induction false} SameKeysWellFormed<T, U>(m: Items<T>, n: Items<U>)
    requires WellFormed(m) && |n| == |m| && forall i | 0 <= i < |m| :: n[i].0 == m[i].0
    ensures WellFormed(n)
  {
    forall i | 0 <= i < |n| ensures Find(n, n[i].0) == i {
      assert Find(m, m[i].0) == i;
      FindIs(n, n[i].0, i);
    }
  }

  lemma {:induction false} GenerableReadsBack(data: Structure, pretty: bool)
    requires StructureOk(data) && Generable(data, pretty)
    ensures ReadBack(data, pretty) == Trimmed(data)
  {
    hide Trim, ParseLine;
    GeneratedFileLines(data, pretty);
    TrimmedOk(data);
    assert [] + Trimmed(data) == Trimmed(data);
    BlocksReadBack([], None, data, pretty);
  }

  /** Whatever is read from a file is denotable. */
  lemma {:induction false} ReadIsDenotable(contents: string)
    ensures AllNames(Read(FileLines(contents)), NameDenotable)
    ensures AllEntries(Read(FileLines(contents)), Denotable)
  {
    hide ParseLine, Normal;
    var lines := FileLines(contents);
    SplitLinesAreClean(Loaded(contents), "");
    forall k | 0 <= k < |lines|
      ensures ParseLine(lines[k]).Section? ==> NameDenotable(Normal(ParseLine(lines[k]).name))
      ensures ParseLine(lines[k]).KeyValue? ==> Denotable(Normal(ParseLine(lines[k]).key), ParseLine(lines[k]).value)
    {
      DenotableWhenRead(lines[k]);
    }
    ReadLinesKeep(NOTHING_READ, lines, NameDenotable, Denotable);
  }

  /** The key is longer than this or does not end in a backslash. */
  function ShortKeysOk(length: nat): (string, string) -> bool {
    (key: string, value: string) => |key| <= length ==> !EndsInBackslash(key)
  }

  /** The line of an entry brings no key up to this length that ends in a backslash,
      unless a shorter key of the structure does. */
  lemma {:induction false} EntryLineKey(key: string, value: string, length: nat)
    requires Normal(key) == key && Readable(key, Trim(value))
    requires |key| < length ==> !EndsInBackslash(key)
    ensures var p := ParseLine(EntryLine(key, value, false));
      p.Unknown? || (p.KeyValue? && ShortKeysOk(length)(Normal(p.key), p.value))
  {
    hide ParseLine, EntryLine, Readable, Clean, Trim, Blanked, UnescapeKey;
    NormalShape(key);
    if EndsInBackslash(key) {
      SwallowedSeparator(key, value);
      PrintedLineShape(key, value, false);
      ParsedIsReadable(EntryLine(key, value, false));
      var p := ParseLine(EntryLine(key, value, false));
      if p.KeyValue? { TrimOfTrimmed(p.key); }
    } else {
      EntryRoundTrip(key, value, false);
    }
  }

  /** The lines of all these entries and headers bring only keys that are long enough. */
  lemma {:induction false} GeneratedKeys(data: Structure, length: nat)
    requires StructureOk(data) && AllDenotable(data)
    requires length == 0 || NoBackslashUpTo(data, length - 1)
    ensures var lines := GeneratedLines(data, false);
      forall k | 0 <= k < |lines| && ParseLine(lines[k]).KeyValue? ::
        ShortKeysOk(length)(Normal(ParseLine(lines[k]).key), ParseLine(lines[k]).value)
    decreases |data|
  {
    hide ParseLine, Normal, Trim, Denotable, Find;
    if data != [] {
      BlockKeys(data[0].0, data[0].1, length);
      if |data| > 1 {
        TailOk(data);
        GeneratedKeys(data[1..], length);
        assert [] + GeneratedLines(data[1..], false) == GeneratedLines(data[1..], false);
      }
    }
  }

  lemma {:induction false} TailOk(data: Structure)
    requires data != [] && StructureOk(data)
    ensures StructureOk(data[1..])
  {
    forall i | 0 <= i < |data| - 1 ensures Find(data[1..], data[1..][i].0) == i {
      assert Find(data, data[i + 1].0) == i + 1;
      FindIs(data[1..], data[i + 1].0, i);
    }
  }

  lemma {:induction false} BlockKeys(name: string, entries: Entries, length: nat)
    requires Normal(name) == name && NameOk(name)
    requires forall j | 0 <= j < |entries| ::
      Normal(entries[j].0) == entries[j].0 && Denotable(entries[j].0, Trim(entries[j].1))
    requires forall j | 0 <= j < |entries| && |entries[j].0| < length :: !EndsInBackslash(entries[j].0)
    ensures var lines := Block(name, entries, false);
      forall k | 0 <= k < |lines| && ParseLine(lines[k]).KeyValue? ::
        ShortKeysOk(length)(Normal(ParseLine(lines[k]).key), ParseLine(lines[k]).value)
  {
    hide ParseLine, Normal, Trim, Readable, Clean, Find, EntryLine;
    NormalShape(name);
    SectionRoundTrip(name);
    var lines := Block(name, entries, false);
    forall k | 1 <= k < |lines| ensures ParseLine(lines[k]).KeyValue? ==>
      ShortKeysOk(length)(Normal(ParseLine(lines[k]).key), ParseLine(lines[k]).value)
    {
      EntryLinesAt(entries, k - 1);
      EntryLineKey(entries[k - 1].0, entries[k - 1].1, length);
    }
  }

  lemma {:induction false} EntryLinesAt(entries: Entries, j: nat)
    requires j < |EntryLines(entries, false)|
    ensures |EntryLines(entries, false)| == |entries|
    ensures EntryLines(entries, false)[j] == EntryLine(entries[j].0, entries[j].1, false)
  {
    if 0 < j { EntryLinesAt(entries[1..], j - 1); } else { EntryLinesLength(entries); }
  }

  lemma {:induction false} EntryLinesLength(entries: Entries)
    ensures |EntryLines(entries, false)| == |entries|
  {
    if entries != [] { EntryLinesLength(entries[1..]); }
  }

  /** If a plain file reads back as it was, no key of it ends in a backslash: the shortest
      such key would have to be read from the line of a shorter one. */
  lemma {:induction false} NoShortBackslash(data: Structure, length: nat)
    requires StructureOk(data) && AllDenotable(data)
    requires ReadBack(data, false) == Trimmed(data)
    ensures NoBackslashUpTo(data, length)
  {
    hide ParseLine, Normal, Trim, Denotable, Find;
    if length > 0 { NoShortBackslash(data, length - 1); }
    var lines := GeneratedLines(data, false);
    GeneratedFileLines(data, false);
    GeneratedKeys(data, length);
    var anyName := (name: string) => true;
    ReadLinesKeep(NOTHING_READ, lines, anyName, ShortKeysOk(length));
    assert AllEntries(Trimmed(data), ShortKeysOk(length));
    forall i, j | 0 <= i < |data| && 0 <= j < |data[i].1| && |data[i].1[j].0| <= length
      ensures !EndsInBackslash(data[i].1[j].0)
    {
      assert Trimmed(data)[i].1[j].0 == data[i].1[j].0;
      assert ShortKeysOk(length)(Trimmed(data)[i].1[j].0, Trimmed(data)[i].1[j].1);
    }
  }

  /** generate() followed by read() gives a structure back, with its sections and keys in
      order and its values trimmed, exactly when the structure is Generable. */
  lemma {:induction false} GenerateRoundTrip(data: Structure, pretty: bool)
    requires StructureOk(data)
    ensures ReadBack(data, pretty) == Trimmed(data) <==> Generable(data, pretty)
  {
    hide ParseLine, Normal, Trim, Find, Denotable, NameDenotable, FileLines, GeneratedLines;
    if Generable(data, pretty) {
      GenerableReadsBack(data, pretty);
    } else if ReadBack(data, pretty) == Trimmed(data) {
      ReadIsDenotable(JoinLines(GeneratedLines(data, pretty)));
      TrimmedDenotable(data);
      assert !pretty;
      forall i, j | 0 <= i < |data| && 0 <= j < |data[i].1| ensures !EndsInBackslash(data[i].1[j].0) {
        NoShortBackslash(data, |data[i].1[j].0|);
      }
      assert false;
    }
  }

  lemma TrimmedDenotable(data: Structure)
    requires AllNames(Trimmed(data), NameDenotable) && AllEntries(Trimmed(data), Denotable)
    ensures AllDenotable(data)
  {
    hide Trim, Denotable, NameDenotable;
    forall i | 0 <= i < |data| ensures NameDenotable(data[i].0) &&
      forall j | 0 <= j < |data[i].1| :: Denotable(data[i].1[j].0, Trim(data[i].1[j].1))
    {
      assert Trimmed(data)[i].0 == data[i].0;
      forall j | 0 <= j < |data[i].1| ensures Denotable(data[i].1[j].0, Trim(data[i].1[j].1)) {
        assert Trimmed(data)[i].1[j] == (data[i].1[j].0, Trim(data[i].1[j].1));
      }
    }
  }

  /** For example the key a\ with the value b does not come back from a plain file. */
  lemma BackslashStructureIsLost()
    ensures var data: Structure := [("s", [("a\\", "b")])]; ReadBack(data, false) != Trimmed(data)
  {
    hide ReadBack, Trimmed, Denotable;
    var entries: Entries := [("a\\", "b")];
    var data: Structure := [("s", entries)];
    NormalOfPlain("s");
    NormalOfPlain("a\\");
    assert EndsInBackslash(data[0].1[0].0);
    GenerateRoundTrip(data, false);
  }
}
