/** The order of the keys of a section after a lazy write: the old ones that are left, as they
    stood, and then the new ones. */
module IniKeyOrder {
  import opened Text
  import opened IniParser
  import opened IniEntry
  import opened IniMap
  import opened IniReader
  import opened IniGenerator
  import opened IniMeaning
  import opened IniWriter
  import opened IniLazy
  import opened IniOrder

  // ---- the keys of a section in a file ----

  function NextSection(current: Option<string>, line: string): Option<string> {
    if ParseLine(line).Section? then Some(Normal(ParseLine(line).name)) else current
  }

  function LastSection(current: Option<string>, lines: seq<string>): Option<string>
    decreases lines
  {
    if lines == [] then current else LastSection(NextSection(current, lines[0]), lines[1..])
  }

  function KeyNames(current: Option<string>, line: string, s: string): seq<string> {
    if ParseLine(line).KeyValue? && current == Some(s) then [Normal(ParseLine(line).key)] else []
  }

  /** The keys that the entry lines of a section give, in order and with repetitions. */
  function KeysIn(current: Option<string>, lines: seq<string>, s: string): seq<string>
    decreases lines
  {
    if lines == [] then [] else KeyNames(current, lines[0], s) + KeysIn(NextSection(current, lines[0]), lines[1..], s)
  }

  lemma {:induction false} KeysSplit(current: Option<string>, a: seq<string>, b: seq<string>, s: string)
    ensures LastSection(current, a + b) == LastSection(LastSection(current, a), b)
    ensures KeysIn(current, a + b, s) == KeysIn(current, a, s) + KeysIn(LastSection(current, a), b, s)
    decreases |a|
  {
    hide KeyNames, NextSection;
    if a == [] {
      assert a + b == b;
    } else {
      assert (a + b)[1..] == a[1..] + b;
      KeysSplit(NextSection(current, a[0]), a[1..], b, s);
    }
  }

  lemma {:induction false} KeysOne(current: Option<string>, lines: seq<string>, line: string, s: string)
    ensures LastSection(current, lines + [line]) == NextSection(LastSection(current, lines), line)
    ensures KeysIn(current, lines + [line], s) ==
      KeysIn(current, lines, s) + KeyNames(LastSection(current, lines), line, s)
  {
    hide KeyNames, NextSection;
    KeysSplit(current, lines, [line], s);
    var last := LastSection(current, lines);
    assert [line][1..] == [] && KeyNames(last, line, s) + [] == KeyNames(last, line, s);
  }

  lemma {:induction false} InertKeys(current: Option<string>, lines: seq<string>, s: string)
    requires AllInert(lines)
    ensures LastSection(current, lines) == current && KeysIn(current, lines, s) == []
    decreases |lines|
  {
    hide ParseLine, Normal;
    if lines != [] {
      assert Inert(lines[0]);
      InertKeys(current, lines[1..], s);
    }
  }

  function SectionNames(sections: Structure, s: string): seq<string> { Names(Lookup(sections, s, [])) }

  /** The keys of a section that is read stand in the order of their first entries. */
  lemma {:induction false} ReadKeys(r: Reading, lines: seq<string>, s: string)
    ensures SectionNames(ReadLines(r, lines).sections, s) ==
      AddNew(SectionNames(r.sections, s), KeysIn(r.current, lines, s))
    decreases |lines|
  {
    hide ParseLine, Normal, AddNew, SectionNames;
    if lines == [] {
      NothingNew(SectionNames(r.sections, s));
    } else {
      ReadLineKeys(r, lines[0], s);
      ReadKeys(ReadLine(r, lines[0]), lines[1..], s);
      AddNewSplit(SectionNames(r.sections, s), KeyNames(r.current, lines[0], s),
        KeysIn(NextSection(r.current, lines[0]), lines[1..], s));
    }
  }

  lemma {:induction false} ReadLineKeys(r: Reading, line: string, s: string)
    ensures var n := ReadLine(r, line);
      && SectionNames(n.sections, s) == AddNew(SectionNames(r.sections, s), KeyNames(r.current, line, s))
      && n.current == NextSection(r.current, line)
  {
    hide ParseLine, Normal, Find, AddNew;
    NothingNew(SectionNames(r.sections, s));
    var p := ParseLine(line);
    if p.Section? {
      ViewOfPut(r.sections, Normal(p.name), []);
    } else if p.KeyValue? && r.current.Some? {
      var entries := Lookup(r.sections, r.current.value, []);
      PutNames(entries, Normal(p.key), p.value);
      ViewOfPut(r.sections, r.current.value, Put(entries, Normal(p.key), p.value));
    }
  }

  // ---- one section while the old lines are merged ----

  /** The new keys of a section of both. */
  function NewNames(job: Job, s: string): seq<string>
    requires Has(job.data, s)
  {
    if Has(job.original, s) then Chosen(Names(Get(job.data, s)), Get(job.original, s), false) else []
  }

  /** The state of the merge, when the last old header so far was that of the current section. */
  ghost predicate AtSection(job: Job, st: LazyState, current: Option<string>) {
    && (st.parsing ==> AllInert(st.output[st.keyEnd..]) && LastSection(None, st.output) == Some(st.section))
    && (current.None? ==> !st.parsing && !st.skipping)
    && (current.Some? ==>
          st.section == current.value && st.parsing == Has(job.data, st.section) && st.skipping == !st.parsing)
  }

  /** The keys of a section as the merge writes them: the old keys that the data has and, at the end of every block
      of the section, the new ones. */
  function WrittenKeys(current: Option<string>, lines: seq<string>, d: Entries, news: seq<string>,
    s: string): seq<string>
    decreases lines
  {
    if lines == [] then (if current == Some(s) then news else [])
    else
      (if ParseLine(lines[0]).Section? then (if current == Some(s) then news else [])
       else Chosen(KeyNames(current, lines[0], s), d, true))
      + WrittenKeys(NextSection(current, lines[0]), lines[1..], d, news, s)
  }

  lemma {:induction false} AddedKeys(entries: Entries, known: Entries, pretty: bool, t: string, s: string)
    requires AllNormal(entries) && AddedOk(entries, known, pretty)
    ensures var adds := AddedLines(entries, known, pretty);
      && LastSection(Some(t), adds) == Some(t)
      && KeysIn(Some(t), adds, s) == if t == s then Chosen(Names(entries), known, false) else []
    decreases |entries|
  {
    hide EntryLine, EntryOk, Normal, Find, KeysIn, LastSection, KeyNames, NextSection;
    NoKeys(Some(t), s);
    if entries != [] {
      var (key, value) := entries[0];
      var rest := AddedLines(entries[1..], known, pretty);
      AddedKeys(entries[1..], known, pretty, t, s);
      assert Names(entries)[1..] == Names(entries[1..]);
      Regroup(rest, [], []);
      if !Has(known, key) {
        AddedKey(key, value, pretty, t, s);
        KeysFirst(Some(t), EntryLine(key, value, pretty), rest, s);
        Regroup(KeysIn(Some(t), rest, s), [], []);
      }
    }
  }

  lemma AddedKey(key: string, value: string, pretty: bool, t: string, s: string)
    requires Normal(key) == key && EntryOk(key, value, pretty)
    ensures var line := EntryLine(key, value, pretty);
      NextSection(Some(t), line) == Some(t) && KeyNames(Some(t), line, s) == if t == s then [key] else []
  {
    hide ParseLine, EntryLine, EntryOk, Normal, Trim;
    NormalShape(key);
    EntryRoundTrip(key, value, pretty);
  }

  lemma KeysFirst(current: Option<string>, line: string, rest: seq<string>, s: string)
    ensures LastSection(current, [line] + rest) == LastSection(NextSection(current, line), rest)
    ensures KeysIn(current, [line] + rest, s) ==
      KeyNames(current, line, s) + KeysIn(NextSection(current, line), rest, s)
  {
    hide KeyNames, NextSection;
    assert ([line] + rest)[1..] == rest;
  }

  /** Closing a section writes its new keys. */
  lemma {:induction false} FlushKeys(job: Job, st: LazyState, s: string)
    requires JobOk(job) && Writable(Flat(job.data), Flat(job.original), job.pretty) && Has(job.data, s)
    requires st.parsing && Has(job.data, st.section)
    requires AllInert(st.output[st.keyEnd..]) && LastSection(None, st.output) == Some(st.section)
    ensures var output := Flush(job, st).output;
      && KeysIn(None, output, s) == KeysIn(None, st.output, s) + (if st.section == s then NewNames(job, s) else [])
      && LastSection(None, output) == Some(st.section)
  {
    hide KeysIn, LastSection, Find, Writable, Flat, AllInert, Chosen;
    var head, adds, tail := st.output[..st.keyEnd], NewKeyLines(job, st.section), st.output[st.keyEnd..];
    assert st.output == head + tail;
    KeysSplit(None, head + adds, tail, s);
    KeysSplit(None, head, adds, s);
    KeysSplit(None, head, tail, s);
    InertKeys(LastSection(None, head), tail, s);
    NoKeys(Some(st.section), s);
    if Has(job.original, st.section) {
      NewKeysOk(job, st.section);
      AddedKeys(Get(job.data, st.section), Get(job.original, st.section), job.pretty, st.section, s);
    }
    InertKeys(LastSection(None, head + adds), tail, s);
    Regroup(KeysIn(None, head, s), KeysIn(Some(st.section), adds, s), []);
    Regroup(KeysIn(None, head, s), [], []);
  }

  lemma NoKeys(current: Option<string>, s: string)
    ensures KeysIn(current, [], s) == [] && LastSection(current, []) == current
  {
  }

  lemma {:induction false} HeaderKeys(job: Job, st: LazyState, line: string, current: Option<string>, s: string)
    requires JobOk(job) && Writable(Flat(job.data), Flat(job.original), job.pretty) && Has(job.data, s)
    requires ParseLine(line).Section? && AtSection(job, st, current)
    ensures var next := LazyLine(job, st, line);
      && AtSection(job, next, NextSection(current, line))
      && KeysIn(None, next.output, s) == KeysIn(None, st.output, s) + if current == Some(s) then NewNames(job, s)
        else []
  {
    hide ParseLine, Normal, KeysIn, LastSection, Find, Writable, Flat, Chosen, Flush, NewNames;
    var base, t := if st.parsing then Flush(job, st) else st, Normal(ParseLine(line).name);
    if st.parsing { FlushKeys(job, st, s); }
    KeysOne(None, base.output, line, s);
    Regroup(KeysIn(None, st.output, s), [], []);
    Regroup(KeysIn(None, base.output, s), [], []);
    var next := LazyLine(job, st, line);
    if Has(job.data, t) { assert next.output[next.keyEnd..] == []; }
  }

  lemma {:induction false} EntryKeys(job: Job, st: LazyState, line: string, t: string, s: string)
    requires JobOk(job) && Writable(Flat(job.data), Flat(job.original), job.pretty) && Has(job.data, s)
    requires ParseLine(line).KeyValue? && AtSection(job, st, Some(t))
    ensures var next := LazyLine(job, st, line);
      && AtSection(job, next, Some(t))
      && KeysIn(None, next.output, s) ==
        KeysIn(None, st.output, s) + Chosen(KeyNames(Some(t), line, s), Get(job.data, s), true)
  {
    hide ParseLine, Normal, KeysIn, LastSection, Find, Writable, Flat, Chosen, RewriteLine, Trim, Readable;
    var next, key := LazyLine(job, st, line), Normal(ParseLine(line).key);
    ChosenOne([], key, Get(job.data, s), true);
    NothingChosen(Get(job.data, s));
    assert [] + [key] == [key];
    Regroup(KeysIn(None, st.output, s), [], []);
    if st.parsing && Has(Get(job.data, t), key) {
      var value, newValue := ParseLine(line).value, Get(Get(job.data, t), key);
      SectionOfJob(job.data, t);
      ViewHas(Get(job.data, t), key);
      IniLazy.EntryIsReadable(Flat(job.data), Flat(job.original), t, line, job.pretty);
      EntryOutputBack(line, newValue, job.pretty);
      KeysOne(None, st.output, EntryOutput(line, value, newValue, job.pretty), s);
      assert next.output[next.keyEnd..] == [];
    }
  }

  lemma {:induction false} InertLineKeys(job: Job, st: LazyState, line: string, current: Option<string>, s: string)
    requires Inert(line) && AtSection(job, st, current)
    ensures var next := LazyLine(job, st, line);
      AtSection(job, next, current) && KeysIn(None, next.output, s) == KeysIn(None, st.output, s)
  {
    hide ParseLine, KeysIn, LastSection, Find;
    var next := LazyLine(job, st, line);
    if next.output != st.output {
      KeysOne(None, st.output, line, s);
      Regroup(KeysIn(None, st.output, s), [], []);
      assert next.output[next.keyEnd..] == st.output[st.keyEnd..] + [line];
    }
  }

  /** The end of the lines closes the last section. */
  function Closed(job: Job, st: LazyState): LazyState { if st.parsing then Flush(job, st) else st }

  lemma {:induction false} ClosedKeys(job: Job, st: LazyState, current: Option<string>, s: string)
    requires JobOk(job) && Writable(Flat(job.data), Flat(job.original), job.pretty) && Has(job.data, s)
    requires AtSection(job, st, current)
    ensures KeysIn(None, Closed(job, st).output, s) ==
      KeysIn(None, st.output, s) + if current == Some(s) then NewNames(job, s) else []
  {
    hide KeysIn, LastSection, Find, Writable, Flat, Chosen, Flush, NewNames, JobOk;
    Regroup(KeysIn(None, st.output, s), [], []);
    if st.parsing { FlushKeys(job, st, s); }
  }

  lemma {:induction false} OneLineKeys(job: Job, st: LazyState, line: string, current: Option<string>, s: string)
    requires JobOk(job) && Writable(Flat(job.data), Flat(job.original), job.pretty) && Has(job.data, s)
    requires AtSection(job, st, current) && (ParseLine(line).KeyValue? ==> current.Some?)
    ensures var next := LazyLine(job, st, line);
      && AtSection(job, next, NextSection(current, line))
      && KeysIn(None, next.output, s) == KeysIn(None, st.output, s) +
           if ParseLine(line).Section? then (if current == Some(s) then NewNames(job, s) else [])
           else Chosen(KeyNames(current, line, s), Get(job.data, s), true)
  {
    hide ParseLine, Normal, KeysIn, Writable, Flat, AtSection, LazyLine, Find, JobOk, NewNames, Chosen;
    Regroup(KeysIn(None, st.output, s), [], []);
    NothingChosen(Get(job.data, s));
    if ParseLine(line).Section? {
      HeaderKeys(job, st, line, current, s);
    } else if ParseLine(line).KeyValue? {
      EntryKeys(job, st, line, current.value, s);
    } else {
      InertLineKeys(job, st, line, current, s);
    }
  }

  lemma {:induction false} LinesKeys(job: Job, st: LazyState, lines: seq<string>, current: Option<string>, s: string)
    requires JobOk(job) && Writable(Flat(job.data), Flat(job.original), job.pretty) && Has(job.data, s)
    requires EntriesInSections(lines, current.Some?) && AtSection(job, st, current)
    ensures var last := LazyLines(job, st, lines);
      && AtSection(job, last, LastSection(current, lines))
      && KeysIn(None, Closed(job, last).output, s) ==
           KeysIn(None, st.output, s) + WrittenKeys(current, lines, Get(job.data, s), NewNames(job, s), s)
    decreases |lines|
  {
    hide ParseLine, KeysIn, KeyNames, Writable, Flat, AtSection, LazyLine, Find, JobOk, NewNames, Chosen, Closed;
    if lines == [] {
      ClosedKeys(job, st, current, s);
    } else {
      var line, rest := lines[0], lines[1..];
      OneLineKeys(job, st, line, current, s);
      LinesKeys(job, LazyLine(job, st, line), rest, NextSection(current, line), s);
      var own := if ParseLine(line).Section? then (if current == Some(s) then NewNames(job, s) else [])
                 else Chosen(KeyNames(current, line, s), Get(job.data, s), true);
      Regroup(KeysIn(None, st.output, s), own,
        WrittenKeys(NextSection(current, line), rest, Get(job.data, s), NewNames(job, s), s));
    }
  }

  // ---- the whole file ----

  lemma {:induction false} AddNewHas(names: seq<string>, more: seq<string>, name: string)
    ensures name in AddNew(names, more) <==> name in names || name in more
    decreases |more|
  {
    if more != [] {
      assert name in more <==> name == more[0] || name in more[1..];
      AddNewHas(if more[0] in names then names else names + [more[0]], more[1..], name);
    }
  }

  lemma {:induction false} ReadHasHeaders(lines: seq<string>, s: string)
    ensures Has(Read(lines), s) <==> s in Headers(lines)
  {
    hide Find, AddNew, Headers, ReadLines;
    ReadNames(NOTHING_READ, lines);
    assert Names(NOTHING_READ.sections) == [];
    AddNewHas([], Headers(lines), s);
    PutNames(Read(lines), s, []);
  }

  lemma {:induction false} MergedKeys(job: Job, lines: seq<string>, s: string)
    requires JobOk(job) && Writable(Flat(job.data), Flat(job.original), job.pretty) && Has(job.data, s)
    requires EntriesInSections(lines, false) && job.original == Read(lines)
    ensures KeysIn(None, MergedLines(job, lines), s) == WrittenKeys(None, lines, Get(job.data, s), NewNames(job, s), s)
  {
    hide ParseLine, Find, Writable, Flat, Chosen, NewNames, LazyLines, Flush, KeysIn, LastSection, Headers, Read;
    NoKeys(None, s);
    Regroup(WrittenKeys(None, lines, Get(job.data, s), NewNames(job, s), s), [], []);
    if lines != [] {
      var last := LazyLines(job, START, lines);
      LinesKeys(job, START, lines, None, s);
      if !last.parsing {
        LastIsHeader(None, lines);
        ReadHasHeaders(lines, last.section);
        NoSectionYet(job, START, lines);
        FlushOfNothing(job, last);
      }
    }
  }

  lemma {:induction false} LastIsHeader(current: Option<string>, lines: seq<string>)
    ensures LastSection(current, lines).None? ==> Headers(lines) == [] && current.None?
    decreases |lines|
  {
    hide ParseLine, Normal;
    if lines != [] { LastIsHeader(NextSection(current, lines[0]), lines[1..]); }
  }

  lemma {:induction false} NoOldKeys(current: Option<string>, lines: seq<string>, s: string)
    requires s !in Headers(lines) && current != Some(s)
    ensures KeysIn(current, lines, s) == []
    decreases |lines|
  {
    hide ParseLine, Normal;
    if lines != [] { NoOldKeys(NextSection(current, lines[0]), lines[1..], s); }
  }

  /** Without headers the current section stays the nameless one of the start, which no file has. */
  lemma {:induction false} NoSectionYet(job: Job, st: LazyState, lines: seq<string>)
    ensures Headers(lines) == [] ==> LazyLines(job, st, lines).section == st.section
    decreases |lines|
  {
    hide ParseLine, Normal, Find, RewriteLine, EntryOutput;
    if lines != [] { NoSectionYet(job, LazyLine(job, st, lines[0]), lines[1..]); }
  }

  lemma {:induction false} ChosenAll(names: seq<string>)
    ensures Chosen<string>(names, [], false) == names
  {
    if names != [] { ChosenAll(names[1..]); }
  }

  lemma {:induction false} BlockKeys(current: Option<string>, name: string, entries: Entries, pretty: bool, s: string)
    requires Normal(name) == name && NameOk(name) && AllNormal(entries) && AddedOk(entries, [], pretty)
    ensures KeysIn(current, Block(name, entries, pretty), s) == if name == s then Names(entries) else []
  {
    hide ParseLine, Normal, AddedOk, SectionLine, EntryLine;
    NormalShape(name);
    SectionRoundTrip(name);
    EntryLinesAreAdded(entries, pretty);
    AddedKeys(entries, [], pretty, name, s);
    ChosenAll(Names(entries));
    assert Block(name, entries, pretty)[1..] == EntryLines(entries, pretty);
  }

  lemma {:induction false} AppendKeys(job: Job, output: seq<string>, sections: Structure, s: string)
    requires WellFormed(sections) && NewSectionsOk(sections, job.original, job.pretty)
    ensures KeysIn(None, AppendSections(job, output, sections), s) ==
      KeysIn(None, output, s) + if Has(sections, s) && !Has(job.original, s) then Names(Get(sections, s)) else []
    decreases |sections|
  {
    hide ParseLine, Normal, WithSection, KeysIn, AddedOk, Find, NameOk, WellFormed;
    Regroup(KeysIn(None, output, s), [], []);
    if sections == [] {
      NothingFound<Entries>();
    } else {
      var (name, entries) := sections[0];
      TailWellFormed(sections);
      FirstIsNormal(sections);
      FirstIsFound(sections);
      SectionKeys(job, output, name, entries, s);
      AppendKeys(job, WithSection(job, output, name, entries), sections[1..], s);
      Regroup(KeysIn(None, output, s), Names(entries), []);
    }
  }

  lemma {:induction false} SectionKeys(job: Job, output: seq<string>, name: string, entries: Entries, s: string)
    requires Normal(name) == name
    requires !Has(job.original, name) ==> NameOk(name) && AllNormal(entries) && AddedOk(entries, [], job.pretty)
    ensures KeysIn(None, WithSection(job, output, name, entries), s) ==
      KeysIn(None, output, s) + if name == s && !Has(job.original, s) then Names(entries) else []
  {
    hide ParseLine, Normal, Block, KeysIn, LastSection, AddedOk, Find, NameOk, Gap;
    Regroup(KeysIn(None, output, s), [], []);
    if !Has(job.original, name) {
      GapKeys(output, Gap(output, job.pretty), Block(name, entries, job.pretty), s);
      BlockKeys(LastSection(None, output), name, entries, job.pretty, s);
    }
  }

  lemma GapKeys(output: seq<string>, gap: seq<string>, block: seq<string>, s: string)
    requires gap == [] || gap == [""]
    ensures KeysIn(None, output + gap + block, s) ==
      KeysIn(None, output, s) + KeysIn(LastSection(None, output), block, s)
  {
    hide ParseLine;
    EmptyIsNothing();
    KeysSplit(None, output + gap, block, s);
    KeysSplit(None, output, gap, s);
    InertKeys(LastSection(None, output), gap, s);
    assert KeysIn(None, output, s) + [] == KeysIn(None, output, s);
  }

  // ---- the order of the written keys ----

  /** The keys of the first block of a section, which the next header ends. */
  function FirstKeys(current: Option<string>, lines: seq<string>, s: string): seq<string>
    decreases lines
  {
    if lines == [] || (ParseLine(lines[0]).Section? && current == Some(s)) then []
    else KeyNames(current, lines[0], s) + FirstKeys(NextSection(current, lines[0]), lines[1..], s)
  }

  lemma {:induction false} AddNewKnown(names: seq<string>, more: seq<string>)
    requires forall i | 0 <= i < |more| :: more[i] in names
    ensures AddNew(names, more) == names
    decreases |more|
  {
    if more != [] { AddNewKnown(names, more[1..]); }
  }

  /** Names that are there already may be left out. */
  lemma {:induction false} AddNewSkip(names: seq<string>, known: seq<string>, more: seq<string>)
    requires forall i | 0 <= i < |known| :: known[i] in names
    ensures AddNew(names, known + more) == AddNew(names, more)
  {
    hide AddNew;
    AddNewSplit(names, known, more);
    AddNewKnown(names, known);
  }

  /** Once the new keys are there, only the old keys of later blocks come behind them. */
  lemma {:induction false} LaterBlocks(current: Option<string>, lines: seq<string>, d: Entries, news: seq<string>,
    s: string, names: seq<string>)
    requires forall i | 0 <= i < |news| :: news[i] in names
    ensures AddNew(names, WrittenKeys(current, lines, d, news, s)) ==
      AddNew(names, Chosen(KeysIn(current, lines, s), d, true))
    decreases |lines|
  {
    hide AddNew, KeyNames, NextSection, ParseLine, Chosen;
    NothingChosen(d);
    if lines == [] {
      AddNewKnown(names, if current == Some(s) then news else []);
      NothingNew(names);
    } else {
      var own, next, rest := KeyNames(current, lines[0], s), NextSection(current, lines[0]), lines[1..];
      var written, keys := WrittenKeys(next, rest, d, news, s), Chosen(KeysIn(next, rest, s), d, true);
      ChosenSplit(own, KeysIn(next, rest, s), d, true);
      if ParseLine(lines[0]).Section? {
        HeaderHasNoKey(current, lines[0], s);
        Regroup(keys, [], []);
        AddNewSkip(names, if current == Some(s) then news else [], written);
        LaterBlocks(next, rest, d, news, s, names);
      } else {
        var grown := AddNew(names, Chosen(own, d, true));
        forall i | 0 <= i < |news| ensures news[i] in grown { AddNewHas(names, Chosen(own, d, true), news[i]); }
        AddNewSplit(names, Chosen(own, d, true), written);
        AddNewSplit(names, Chosen(own, d, true), keys);
        LaterBlocks(next, rest, d, news, s, grown);
      }
    }
  }

  lemma HeaderHasNoKey(current: Option<string>, line: string, s: string)
    ensures ParseLine(line).Section? ==> KeyNames(current, line, s) == []
    ensures !ParseLine(line).Section? ==> NextSection(current, line) == current
  {
  }

  /** In the first block the new keys come behind its old ones. */
  lemma {:induction false} FirstBlock(lines: seq<string>, d: Entries, news: seq<string>, s: string, names: seq<string>)
    ensures var current := Some(s);
      AddNew(names, WrittenKeys(current, lines, d, news, s)) ==
      AddNew(AddNew(AddNew(names, Chosen(FirstKeys(current, lines, s), d, true)), news),
        Chosen(KeysIn(current, lines, s), d, true))
    decreases |lines|
  {
    hide AddNew, KeyNames, NextSection, ParseLine, Chosen;
    var current := Some(s);
    NothingChosen(d);
    NothingNew(names);
    NothingNew(AddNew(names, news));
    if lines != [] {
      var own, next, rest := KeyNames(current, lines[0], s), NextSection(current, lines[0]), lines[1..];
      var written, keys := WrittenKeys(next, rest, d, news, s), Chosen(KeysIn(next, rest, s), d, true);
      ChosenSplit(own, KeysIn(next, rest, s), d, true);
      HeaderHasNoKey(current, lines[0], s);
      if ParseLine(lines[0]).Section? {
        AddNewSplit(names, news, written);
        Regroup(keys, [], []);
        forall i | 0 <= i < |news| ensures news[i] in AddNew(names, news) { AddNewHas(names, news, news[i]); }
        LaterBlocks(next, rest, d, news, s, AddNew(names, news));
      } else {
        var mine, firsts := Chosen(own, d, true), FirstKeys(next, rest, s);
        AddNewSplit(names, mine, written);
        FirstBlock(rest, d, news, s, AddNew(names, mine));
        ChosenSplit(own, firsts, d, true);
        AddNewSplit(names, mine, Chosen(firsts, d, true));
        KeysStay(names, mine, Chosen(firsts, d, true), news, keys);
      }
    }
  }

  lemma {:induction false} KeysStay(names: seq<string>, mine: seq<string>, firsts: seq<string>, news: seq<string>,
    keys: seq<string>)
    ensures var all := AddNew(AddNew(AddNew(names, mine), firsts), news); AddNew(all, mine + keys) == AddNew(all, keys)
  {
    hide AddNew;
    var all := AddNew(AddNew(AddNew(names, mine), firsts), news);
    forall i | 0 <= i < |mine| ensures mine[i] in all {
      AddNewHas(names, mine, mine[i]);
      AddNewHas(AddNew(names, mine), firsts, mine[i]);
      AddNewHas(AddNew(AddNew(names, mine), firsts), news, mine[i]);
    }
    AddNewSkip(all, mine, keys);
  }

  /** Up to the first header of a section nothing of it is written. */
  lemma {:induction false} AllBlocks(current: Option<string>, lines: seq<string>, d: Entries, news: seq<string>,
    s: string)
    requires current != Some(s) && s in Headers(lines)
    ensures AddNew([], WrittenKeys(current, lines, d, news, s)) ==
      AddNew(AddNew(AddNew([], Chosen(FirstKeys(current, lines, s), d, true)), news),
        Chosen(KeysIn(current, lines, s), d, true))
    decreases |lines|
  {
    hide AddNew, ParseLine, Normal, Chosen;
    NothingChosen(d);
    var next, rest := NextSection(current, lines[0]), lines[1..];
    Regroup(WrittenKeys(next, rest, d, news, s), [], []);
    Regroup(FirstKeys(next, rest, s), [], []);
    Regroup(KeysIn(next, rest, s), [], []);
    assert KeyNames(current, lines[0], s) == [];
    if next == Some(s) {
      FirstBlock(rest, d, news, s, []);
    } else {
      AllBlocks(next, rest, d, news, s);
    }
  }

  /** Adding names is adding those that differ. */
  lemma {:induction false} AddNewTwice(names: seq<string>, more: seq<string>, others: seq<string>)
    ensures AddNew(names, AddNew(more, others)) == AddNew(AddNew(names, more), others)
    decreases |others|
  {
    if others != [] {
      var name := others[0];
      var grown := if name in more then more else more + [name];
      AddNewTwice(names, grown, others[1..]);
      AddNewHas(names, more, name);
      AddNewSplit(names, more, [name]);
      assert [name][1..] == [];
    }
  }

  // ---- the keys of the new file ----

  /** After a lazy write and a read the keys of a section that the old file and the data have stand in this order:
      the old ones of its first block, then the new ones in the order of the data, then the old ones of later
      blocks. The keys of a new section stand in the order of the data. */
  lemma {:induction false} KeysKeepOrder(job: Job, lines: seq<string>, s: string)
    requires JobOk(job) && Writable(Flat(job.data), Flat(job.original), job.pretty) && Has(job.data, s)
    requires EntriesInSections(lines, false) && job.original == Read(lines)
    ensures SectionNames(Read(LazyOutput(job, lines)), s) ==
      if Has(job.original, s) then
        var first := Chosen(AddNew([], FirstKeys(None, lines, s)), Get(job.data, s), true);
        AddNew(first + NewNames(job, s), Chosen(Names(Get(job.original, s)), Get(job.data, s), true))
      else Names(Get(job.data, s))
  {
    hide ParseLine, Find, Writable, Flat, Chosen, KeysIn, Headers, Read, AddNew, WellFormed, LazyOutput, SectionNames;
    hide FirstKeys;
    OutputKeys(job, lines, s);
    ReadFileKeys(LazyOutput(job, lines), s);
    ReadFileKeys(lines, s);
    ReadHasHeaders(lines, s);
    SectionOfJob(job.data, s);
    if Has(job.original, s) {
      LookupIs(job.original, s);
      AllBlocks(None, lines, Get(job.data, s), NewNames(job, s), s);
      FirstIsOld(None, lines, s);
      FirstThenNew(job, FirstKeys(None, lines, s), KeysIn(None, lines, s), s);
    } else {
      NamesDiffer(Get(job.data, s));
      AddNewFresh([], Names(Get(job.data, s)));
      Regroup([], [], Names(Get(job.data, s)));
    }
  }

  /** When the headers of a file differ, the old keys of a section come first and the new ones behind them. */
  lemma {:induction false} KeysOfOneBlock(job: Job, lines: seq<string>, s: string)
    requires JobOk(job) && Writable(Flat(job.data), Flat(job.original), job.pretty) && Has(job.data, s)
      && Has(job.original, s)
    requires EntriesInSections(lines, false) && job.original == Read(lines) && HeadersDiffer(lines)
    ensures SectionNames(Read(LazyOutput(job, lines)), s) ==
      Chosen(Names(Get(job.original, s)), Get(job.data, s), true) + NewNames(job, s)
  {
    hide ParseLine, Find, Writable, Flat, Chosen, KeysIn, Headers, Read, AddNew, WellFormed, LazyOutput, SectionNames;
    hide FirstKeys;
    KeysKeepOrder(job, lines, s);
    ReadFileKeys(lines, s);
    LookupIs(job.original, s);
    OneBlock(None, lines, s);
    var old_ := Chosen(Names(Get(job.original, s)), Get(job.data, s), true);
    AddNewKnown(old_ + NewNames(job, s), old_);
  }

  /** Headers that do not repeat each other. */
  predicate HeadersDiffer(lines: seq<string>) {
    forall i, j | 0 <= i < j < |Headers(lines)| :: Headers(lines)[i] != Headers(lines)[j]
  }

  lemma {:induction false} OneBlock(current: Option<string>, lines: seq<string>, s: string)
    requires HeadersDiffer(lines) && (current == Some(s) ==> s !in Headers(lines))
    ensures FirstKeys(current, lines, s) == KeysIn(current, lines, s)
    decreases |lines|
  {
    hide ParseLine, Normal, KeyNames;
    if lines != [] {
      HeadersStep(lines, s);
      HeaderHasNoKey(current, lines[0], s);
      if ParseLine(lines[0]).Section? && current == Some(s) {
        NoOldKeys(NextSection(current, lines[0]), lines[1..], s);
      } else {
        OneBlock(NextSection(current, lines[0]), lines[1..], s);
      }
    }
  }

  lemma HeadersStep(lines: seq<string>, s: string)
    requires lines != [] && HeadersDiffer(lines)
    ensures HeadersDiffer(lines[1..])
    ensures s in Headers(lines) <==> s in HeaderNames(lines[0]) || s in Headers(lines[1..])
    ensures s in HeaderNames(lines[0]) ==> s !in Headers(lines[1..])
  {
    hide ParseLine, Normal;
    var all, own, rest := Headers(lines), HeaderNames(lines[0]), Headers(lines[1..]);
    assert forall i | 0 <= i < |rest| :: rest[i] == all[i + |own|];
    if own != [] { assert all[0] == own[0]; }
  }

  lemma {:induction false} FirstIsOld(current: Option<string>, lines: seq<string>, s: string)
    ensures forall i | 0 <= i < |FirstKeys(current, lines, s)| ::
      FirstKeys(current, lines, s)[i] in KeysIn(current, lines, s)
    decreases |lines|
  {
    hide ParseLine, KeyNames, NextSection;
    if lines != [] { FirstIsOld(NextSection(current, lines[0]), lines[1..], s); }
  }

  lemma LookupIs(m: Structure, s: string)
    requires Has(m, s)
    ensures SectionNames(m, s) == Names(Get(m, s))
  {
  }

  lemma ReadFileKeys(lines: seq<string>, s: string)
    ensures SectionNames(Read(lines), s) == AddNew([], KeysIn(None, lines, s))
  {
    hide KeysIn, AddNew, Find, ReadLines;
    NothingFound<Entries>();
    ReadKeys(NOTHING_READ, lines, s);
    assert SectionNames([], s) == [];
  }

  /** The keys that the new file gives for a section. */
  lemma {:induction false} OutputKeys(job: Job, lines: seq<string>, s: string)
    requires JobOk(job) && Writable(Flat(job.data), Flat(job.original), job.pretty) && Has(job.data, s)
    requires EntriesInSections(lines, false) && job.original == Read(lines)
    ensures KeysIn(None, LazyOutput(job, lines), s) ==
      if Has(job.original, s) then WrittenKeys(None, lines, Get(job.data, s), NewNames(job, s), s)
      else Names(Get(job.data, s))
  {
    hide ParseLine, Find, Writable, Flat, Chosen, KeysIn, Headers, Read, MergedLines, NewNames, AppendSections;
    hide WrittenKeys;
    MergedKeys(job, lines, s);
    NewSectionsAreOk(job);
    AppendKeys(job, MergedLines(job, lines), job.data, s);
    var written := WrittenKeys(None, lines, Get(job.data, s), NewNames(job, s), s);
    Regroup(written, [], []);
    ReadHasHeaders(lines, s);
    if !Has(job.original, s) {
      NothingWritten(None, lines, Get(job.data, s), NewNames(job, s), s);
      Regroup([], [], Names(Get(job.data, s)));
    }
  }

  lemma {:induction false} NothingWritten(current: Option<string>, lines: seq<string>, d: Entries, news: seq<string>,
    s: string)
    requires current != Some(s) && s !in Headers(lines)
    ensures WrittenKeys(current, lines, d, news, s) == []
    decreases |lines|
  {
    hide ParseLine, Normal;
    if lines != [] { NothingWritten(NextSection(current, lines[0]), lines[1..], d, news, s); }
  }

  /** The old keys of the first block that are left and the new keys differ, and stand one behind the other. */
  lemma {:induction false} FirstThenNew(job: Job, first: seq<string>, old_: seq<string>, s: string)
    requires Has(job.data, s) && Has(job.original, s) && WellFormed(Get(job.data, s))
    requires AddNew([], old_) == Names(Get(job.original, s)) && forall i | 0 <= i < |first| :: first[i] in old_
    ensures var d, news := Get(job.data, s), NewNames(job, s);
      AddNew(AddNew(AddNew([], Chosen(first, d, true)), news), Chosen(old_, d, true)) ==
      AddNew(Chosen(AddNew([], first), d, true) + news, Chosen(Names(Get(job.original, s)), d, true))
  {
    hide Find, Chosen, AddNew, WellFormed;
    var d, known, news := Get(job.data, s), Get(job.original, s), NewNames(job, s);
    AddNewChosen([], first, d, true);
    AddNewChosen([], old_, d, true);
    NothingChosen(d);
    var mine := Chosen(AddNew([], first), d, true);
    forall name | name in AddNew([], first) ensures name in Names(known) {
      AddNewHas([], first, name);
      AddNewHas([], old_, name);
    }
    NewKeysGoLast(d, known, AddNew([], first));
    AddNewTwice(mine + news, [], Chosen(old_, d, true));
    NothingNew(mine + news);
  }

  lemma NamesDiffer<T>(m: Items<T>)
    requires WellFormed(m)
    ensures forall i, j | 0 <= i < j < |m| :: Names(m)[i] != Names(m)[j]
  {
  }

  lemma {:induction false} NewKeysGoLast(d: Entries, known: Entries, names: seq<string>)
    requires WellFormed(d) && forall name | name in names :: name in Names(known)
    ensures var mine, news := Chosen(names, d, true), Chosen(Names(d), known, false);
      AddNew(mine, news) == mine + news
  {
    hide Find, AddNew, Chosen;
    NamesDiffer(d);
    var mine, news := Chosen(names, d, true), Chosen(Names(d), known, false);
    forall i | 0 <= i < |news| ensures news[i] !in mine {
      ChosenHas(Names(d), known, false, news[i]);
      ChosenHas(names, d, true, news[i]);
      PutNames(known, news[i], "");
    }
    ChosenDiffer(Names(d), known, false);
    AddNewFresh(mine, news);
  }
}
