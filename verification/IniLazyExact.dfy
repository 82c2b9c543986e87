/** Lazy writing preserves meaning for exactly the structures of Preservable. */
module IniLazyExact {
  import opened Text
  import opened IniParser
  import opened IniEntry
  import opened IniMap
  import opened IniReader
  import opened IniGenerator
  import opened IniMeaning
  import opened IniWriter
  import opened IniLazy

  function TrimmedMeaning(D: Meaning): Meaning {
    map s | s in D :: map k | k in D[s] :: Trim(D[s][k])
  }

  /** The structures that a lazy write puts into the file as they are: every entry and every new
      section name can be read back, no new key printed without spaces ends in a backslash, and
      no old value that starts with an escaped '=' is changed. */
  ghost predicate Preservable(D: Meaning, O: Meaning, pretty: bool) {
    && Writable(D, O, pretty)
    && forall s, k | InBoth(D, O, s, k) :: Replaceable(O[s][k], D[s][k])
  }

  // ---- only readable things are read ----

  predicate AllReadable(m: Meaning) {
    forall s | s in m :: NameOk(s) && forall k | k in m[s] :: Readable(k, m[s][k]) && IsTrimmed(m[s][k])
  }

  lemma {:induction false} EffectReadable(m: State, line: string)
    requires AllReadable(m.sections)
    ensures AllReadable(Effect(m, ParseLine(line)).sections)
  {
    hide ParseLine, Normal, Readable, IsTrimmed;
    ParsedIsReadable(line);
    var p := ParseLine(line);
    if p.Section? { NormalLacks(p.name, ';'); }
    if p.KeyValue? { NormalReadable(p.key, p.value); }
  }

  lemma {:induction false} EffectsReadable(m: State, lines: seq<string>)
    requires AllReadable(m.sections)
    ensures AllReadable(Effects(m, lines).sections)
    decreases |lines|
  {
    hide ParseLine, Effect, AllReadable;
    if lines != [] {
      EffectReadable(m, lines[0]);
      EffectsReadable(Effect(m, ParseLine(lines[0])), lines[1..]);
    }
  }

  // ---- keys that end in a backslash ----

  /** A key of the old file, or one that is long or does not end in a backslash. */
  predicate KeySafe(O: Meaning, length: nat, s: string, k: string) {
    (s in O && k in O[s]) || (|k| <= length ==> !EndsInBackslash(k))
  }

  predicate AllSafe(O: Meaning, length: nat, m: Meaning) {
    forall s, k | s in m && k in m[s] :: KeySafe(O, length, s, k)
  }

  predicate LongBackslashes(entries: Entries, known: Entries, length: nat) {
    forall j | 0 <= j < |entries| && !Has(known, entries[j].0) ::
      Readable(entries[j].0, Trim(entries[j].1)) && (|entries[j].0| < length ==> !EndsInBackslash(entries[j].0))
  }

  lemma {:induction false} AddedSafe(O: Meaning, length: nat, m: State, entries: Entries, known: Entries)
    requires AllSafe(O, length, m.sections)
    requires AllNormal(entries) && LongBackslashes(entries, known, length)
    ensures var n := Effects(m, AddedLines(entries, known, false));
      AllSafe(O, length, n.sections) && n.current == m.current
    decreases |entries|
  {
    hide ParseLine, EntryLine, Normal, Find, Trim, Readable, EndsInBackslash;
    if entries != [] {
      var rest := AddedLines(entries[1..], known, false);
      assert [] + rest == rest;
      if Has(known, entries[0].0) {
        AddedSafe(O, length, m, entries[1..], known);
      } else {
        var line := EntryLine(entries[0].0, entries[0].1, false);
        EntryLineKey(entries[0].0, entries[0].1, length);
        assert ([line] + rest)[1..] == rest;
        AddedSafe(O, length, Effect(m, ParseLine(line)), entries[1..], known);
      }
    }
  }

  ghost predicate KeysTrack(D: Meaning, O: Meaning, length: nat, o: State, st: LazyState, m: State, open: bool) {
    && (open ==> AllInert(st.output[st.keyEnd..]) && m.current == Some(st.section))
    && (o.current.None? ==> o.sections == map[] && !st.parsing && !st.skipping)
    && (o.current.Some? ==>
          st.section == o.current.value && st.parsing == (st.section in D) && st.skipping == !st.parsing)
    && AllSafe(O, length, m.sections)
  }

  /** Every key of the data that is not in the file and is shorter than this does not end in a backslash. */
  ghost predicate NoBackslashBelow(D: Meaning, O: Meaning, length: nat) {
    forall s, k | s in D && k in D[s] && !(s in O && k in O[s]) && |k| < length :: !EndsInBackslash(k)
  }

  ghost predicate Setting(job: Job, D: Meaning, O: Meaning, length: nat) {
    && JobOk(job) && D == Flat(job.data) && O == Flat(job.original) && !job.pretty
    && (forall s | s in D :: NameOk(s))
    && (forall s, k | s in D && k in D[s] :: Readable(k, Trim(D[s][k])))
    && NoBackslashBelow(D, O, length)
  }

  lemma {:induction false} NewKeysLong(job: Job, D: Meaning, O: Meaning, length: nat, s: string)
    requires Setting(job, D, O, length) && Has(job.data, s)
    ensures AllNormal(Get(job.data, s))
    ensures LongBackslashes(Get(job.data, s), if Has(job.original, s) then Get(job.original, s) else [], length)
  {
    hide Normal, Trim, Readable, Flat, View, EndsInBackslash, Find;
    SectionOfJob(job.data, s);
    SectionOfJob(job.original, s);
    var entries, known := Get(job.data, s), if Has(job.original, s) then Get(job.original, s) else [];
    forall j | 0 <= j < |entries| && !Has(known, entries[j].0)
      ensures Readable(entries[j].0, Trim(entries[j].1)) && (|entries[j].0| < length ==> !EndsInBackslash(entries[j].0))
    {
      ViewHas(entries, entries[j].0);
      ViewHas(known, entries[j].0);
      assert Find(entries, entries[j].0) == j;
      assert D[s][entries[j].0] == entries[j].1;
      assert Readable(entries[j].0, Trim(D[s][entries[j].0]));
    }
  }

  lemma {:induction false} FlushKeys(job: Job, D: Meaning, O: Meaning, length: nat, o: State, st: LazyState)
    requires Setting(job, D, O, length)
    requires KeysTrack(D, O, length, o, st, Effects(NOWHERE, st.output), true)
    ensures var next := Flush(job, st); KeysTrack(D, O, length, o, next, Effects(NOWHERE, next.output), false)
  {
    hide ParseLine, Normal, Trim, Find, Flat, Effects, AddedLines, Setting, AllSafe, LongBackslashes;
    WrittenOutput(st.output, st.keyEnd, NewKeyLines(job, st.section));
    var m := Effects(NOWHERE, st.output);
    assert Setting(job, D, O, length) ==> !job.pretty by { SettingIsPlain(job, D, O, length); }
    if Has(job.data, st.section) && Has(job.original, st.section) {
      NewKeysLong(job, D, O, length, st.section);
      AddedSafe(O, length, m, Get(job.data, st.section), Get(job.original, st.section));
    } else {
      InertMeansNothing(m, []);
    }
  }

  lemma SettingIsPlain(job: Job, D: Meaning, O: Meaning, length: nat)
    ensures Setting(job, D, O, length) ==> !job.pretty
  {
  }

  lemma {:induction false} HeaderKeys(job: Job, D: Meaning, O: Meaning, length: nat, o: State, st: LazyState,
    line: string)
    requires D == Flat(job.data) && ParseLine(line).Section?
    requires KeysTrack(D, O, length, o, st, Effects(NOWHERE, st.output), false)
    ensures var next := LazyHeader(job, st, line, Normal(ParseLine(line).name));
      KeysTrack(D, O, length, Effect(o, ParseLine(line)), next, Effects(NOWHERE, next.output), next.parsing)
  {
    hide ParseLine, Normal, Find, Effects, Flat, KeySafe;
    var s := Normal(ParseLine(line).name);
    FlatHas(job.data, s);
    EffectsOne(NOWHERE, st.output, line);
    var next := LazyHeader(job, st, line, s);
    assert next.parsing ==> next.output[next.keyEnd..] == [];
  }

  lemma {:induction false} EntryKeys(job: Job, D: Meaning, O: Meaning, length: nat, o: State, st: LazyState,
    line: string)
    requires Setting(job, D, O, length) && ParseLine(line).KeyValue? && o.current.Some?
    requires o.current.value in o.sections
    requires KeysTrack(D, O, length, o, st, Effects(NOWHERE, st.output), st.parsing)
    requires Within(Effect(o, ParseLine(line)), O)
    ensures var next := LazyEntry(job, st, line, Normal(ParseLine(line).key), ParseLine(line).value);
      KeysTrack(D, O, length, Effect(o, ParseLine(line)), next, Effects(NOWHERE, next.output), next.parsing)
  {
    hide ParseLine, Normal, Find, Effects, Flat, EntryOutput, Trim, Readable, View, EndsInBackslash;
    var s, m := st.section, Effects(NOWHERE, st.output);
    var key, value := Normal(ParseLine(line).key), ParseLine(line).value;
    SectionOfJob(job.data, s);
    var next := LazyEntry(job, st, line, key, value);
    if next.output != st.output {
      var entries := Get(job.data, s);
      ViewHas(entries, key);
      var newValue := Get(entries, key);
      SettingReadable(job, D, O, length, s, line);
      EntryOutputBack(line, newValue, job.pretty);
      EffectsOne(NOWHERE, st.output, EntryOutput(line, value, newValue, job.pretty));
      assert KeySafe(O, length, s, key);
      assert next.output[next.keyEnd..] == [];
    }
  }

  lemma SettingReadable(job: Job, D: Meaning, O: Meaning, length: nat, s: string, line: string)
    requires Setting(job, D, O, length) && ParseLine(line).KeyValue?
    requires s in D && Normal(ParseLine(line).key) in D[s]
    ensures Readable(ParseLine(line).key, Trim(D[s][Normal(ParseLine(line).key)]))
  {
    hide ParseLine, Normal, Trim, Flat;
    ParsedIsReadable(line);
    ReadableAlike(ParseLine(line).key, Trim(D[s][Normal(ParseLine(line).key)]));
  }

  lemma {:induction false} InertKeys(job: Job, D: Meaning, O: Meaning, length: nat, o: State, st: LazyState,
    line: string)
    requires Inert(line)
    requires KeysTrack(D, O, length, o, st, Effects(NOWHERE, st.output), st.parsing)
    ensures var next := LazyLine(job, st, line);
      KeysTrack(D, O, length, Effect(o, ParseLine(line)), next, Effects(NOWHERE, next.output), next.parsing)
  {
    hide ParseLine, Effects, AllSafe;
    var next := LazyLine(job, st, line);
    if next.output != st.output {
      EffectsOne(NOWHERE, st.output, line);
      assert next.output[next.keyEnd..] == st.output[st.keyEnd..] + [line];
    }
  }

  lemma {:induction false} LineKeys(job: Job, D: Meaning, O: Meaning, length: nat, o: State, st: LazyState,
    line: string)
    requires Setting(job, D, O, length)
    requires KeysTrack(D, O, length, o, st, Effects(NOWHERE, st.output), st.parsing)
    requires ParseLine(line).KeyValue? ==> o.current.Some? && o.current.value in o.sections
    requires Within(Effect(o, ParseLine(line)), O)
    ensures var next := LazyLine(job, st, line);
      KeysTrack(D, O, length, Effect(o, ParseLine(line)), next, Effects(NOWHERE, next.output), next.parsing)
  {
    hide ParseLine, Effects, KeysTrack, Flat, LazyHeader, LazyEntry, Effect, Flush, JobOk;
    if ParseLine(line).Section? {
      if st.parsing {
        FlushKeys(job, D, O, length, o, st);
      } else {
        KeysTrackClosed(D, O, length, o, st, Effects(NOWHERE, st.output));
      }
      HeaderKeys(job, D, O, length, o, if st.parsing then Flush(job, st) else st, line);
    } else if ParseLine(line).KeyValue? {
      EntryKeys(job, D, O, length, o, st, line);
    } else {
      InertKeys(job, D, O, length, o, st, line);
    }
  }

  lemma KeysTrackClosed(D: Meaning, O: Meaning, length: nat, o: State, st: LazyState, m: State)
    requires KeysTrack(D, O, length, o, st, m, st.parsing)
    ensures KeysTrack(D, O, length, o, st, m, false)
  {
  }

  lemma {:induction false} LinesKeys(job: Job, D: Meaning, O: Meaning, length: nat, o: State, st: LazyState,
    lines: seq<string>)
    requires Setting(job, D, O, length)
    requires KeysTrack(D, O, length, o, st, Effects(NOWHERE, st.output), st.parsing)
    requires EntriesInSections(lines, o.current.Some?) && (o.current.Some? ==> o.current.value in o.sections)
    requires Effects(o, lines).sections == O
    ensures var last := LazyLines(job, st, lines);
      KeysTrack(D, O, length, Effects(o, lines), last, Effects(NOWHERE, last.output), last.parsing)
    decreases |lines|
  {
    hide ParseLine, KeysTrack, Flat, LazyLine, Setting, Normal;
    if lines != [] {
      var next := Effect(o, ParseLine(lines[0]));
      EffectsGrow(next, lines[1..]);
      LineKeys(job, D, O, length, o, st, lines[0]);
      CurrentAfter(o, ParseLine(lines[0]));
      LinesKeys(job, D, O, length, next, LazyLine(job, st, lines[0]), lines[1..]);
    }
  }

  lemma {:induction false} MergedKeys(job: Job, D: Meaning, O: Meaning, length: nat, lines: seq<string>)
    requires Setting(job, D, O, length) && EntriesInSections(lines, false) && O == MeaningOf(lines)
    ensures AllSafe(O, length, MeaningOf(MergedLines(job, lines)))
  {
    hide ParseLine, LazyLines, Setting, KeySafe, Flush, Flat;
    if lines != [] {
      var last := LazyLines(job, START, lines);
      assert START.output[START.keyEnd..] == [];
      LinesKeys(job, D, O, length, NOWHERE, START, lines);
      if last.parsing {
        FlushKeys(job, D, O, length, Effects(NOWHERE, lines), last);
      } else {
        SettingSections(job, D, O, length, last.section);
        FlushOfNothing(job, last);
      }
    }
  }

  lemma {:induction false} SettingSections(job: Job, D: Meaning, O: Meaning, length: nat, s: string)
    requires Setting(job, D, O, length)
    ensures (s in D <==> Has(job.data, s)) && (s in O <==> Has(job.original, s))
  {
    hide Normal, Find, View, Trim, Readable;
    SectionOfJob(job.data, s);
    SectionOfJob(job.original, s);
  }

  lemma {:induction false} AppendKeys(job: Job, D: Meaning, O: Meaning, length: nat, output: seq<string>,
    sections: Structure)
    requires Setting(job, D, O, length) && AllSafe(O, length, MeaningOf(output))
    requires forall i | 0 <= i < |sections| :: sections[i] in job.data
    ensures AllSafe(O, length, MeaningOf(AppendSections(job, output, sections)))
    decreases |sections|
  {
    hide ParseLine, Block, Effects, Find, Setting, KeySafe, Flat;
    if sections != [] {
      var (name, entries) := sections[0];
      assert sections[0] in job.data;
      var next := WithSection(job, output, name, entries);
      if !Has(job.original, name) { BlockKeysSafe(job, D, O, length, output, Gap(output, job.pretty), name, entries); }
      AppendKeys(job, D, O, length, next, sections[1..]);
    }
  }

  lemma {:induction false} BlockKeysSafe(job: Job, D: Meaning, O: Meaning, length: nat, output: seq<string>,
    gap: seq<string>, name: string, entries: Entries)
    requires Setting(job, D, O, length) && AllSafe(O, length, MeaningOf(output))
    requires (name, entries) in job.data && !Has(job.original, name)
    requires gap == [] || gap == [""]
    ensures AllSafe(O, length, MeaningOf(output + gap + Block(name, entries, job.pretty)))
  {
    hide ParseLine, Normal, Find, Flat, AddedLines, EntryLines, SectionLine, LongBackslashes, KeySafe;
    var lines := Block(name, entries, job.pretty);
    EffectsSplit(NOWHERE, output + gap, lines);
    EffectsSplit(NOWHERE, output, gap);
    EmptyIsNothing();
    var m := Effects(NOWHERE, output);
    InertMeansNothing(m, gap);
    ItemOfStructure(job.data, name, entries);
    NewKeysLong(job, D, O, length, name);
    SettingSections(job, D, O, length, name);
    SectionRoundTrip(name);
    EntryLinesAreAdded(entries, false);
    assert lines[1..] == AddedLines(entries, [], false);
    AddedSafe(O, length, Effect(m, ParseLine(lines[0])), entries, []);
  }

  lemma {:induction false} ItemOfStructure(s: Structure, name: string, entries: Entries)
    requires StructureOk(s) && (name, entries) in s
    ensures Has(s, name) && Get(s, name) == entries && IsTrimmed(name)
  {
    hide Normal;
    var i :| 0 <= i < |s| && s[i] == (name, entries);
    assert Find(s, s[i].0) == i;
    NormalShape(name);
  }

  // ---- the exact condition ----

  lemma {:induction false} NoNewBackslash(job: Job, lines: seq<string>, D: Meaning, O: Meaning, length: nat)
    requires JobOk(job) && D == Flat(job.data) && O == Flat(job.original) && !job.pretty
    requires EntriesInSections(lines, false) && O == MeaningOf(lines)
    requires forall s | s in D :: NameOk(s)
    requires forall s, k | s in D && k in D[s] :: Readable(k, Trim(D[s][k]))
    requires MeaningOf(LazyOutput(job, lines)) == TrimmedMeaning(D)
    ensures NoBackslashBelow(D, O, length)
  {
    hide ParseLine, Normal, Trim, Readable, Flat, Effects, EndsInBackslash, MergedLines, AppendSections, StructureOk;
    if length > 0 {
      NoNewBackslash(job, lines, D, O, length - 1);
      MergedKeys(job, D, O, length - 1, lines);
      AppendKeys(job, D, O, length - 1, MergedLines(job, lines), job.data);
      forall s, k | s in D && k in D[s] && !(s in O && k in O[s]) && |k| < length ensures !EndsInBackslash(k) {
        assert k in TrimmedMeaning(D)[s];
        assert KeySafe(O, length - 1, s, k);
      }
    }
  }

  lemma EqualByEntries(W: Meaning, D: Meaning)
    requires W.Keys == D.Keys && forall s | s in D :: W[s].Keys == D[s].Keys
    ensures W == TrimmedMeaning(D) <==> forall s, k | s in D && k in D[s] :: W[s][k] == Trim(D[s][k])
  {
    hide Trim;
    var T := TrimmedMeaning(D);
    if forall s, k | s in D && k in D[s] :: W[s][k] == Trim(D[s][k]) {
      assert forall s | s in D :: W[s] == T[s];
    }
    if W == T {
      assert forall s, k | s in D && k in D[s] :: T[s][k] == Trim(D[s][k]);
    }
  }

  /** Reading the lines of getLazyOutput gives the sections, keys and trimmed values of the data
      exactly when the data is Preservable. */
  lemma {:induction false} LazyPreserves(job: Job, lines: seq<string>)
    requires JobOk(job) && EntriesInSections(lines, false) && Flat(job.original) == MeaningOf(lines)
    ensures var D, O := Flat(job.data), Flat(job.original);
      MeaningOf(LazyOutput(job, lines)) == TrimmedMeaning(D) <==> Preservable(D, O, job.pretty)
  {
    hide ParseLine, Normal, Trim, Readable, Flat, Effects, EndsInBackslash, StructureOk, Replaceable, LazyOutput;
    hide NameOk, MeaningOf;
    var D, O, W := Flat(job.data), Flat(job.original), MeaningOf(LazyOutput(job, lines));
    if W == TrimmedMeaning(D) && !Writable(D, O, job.pretty) {
      LazyIsWritable(job, lines);
      assert false;
    }
    if Writable(D, O, job.pretty) {
      LazyMeaning(job, lines);
      EqualByEntries(W, D);
    }
  }

  lemma {:induction false} LazyIsWritable(job: Job, lines: seq<string>)
    requires JobOk(job) && EntriesInSections(lines, false) && Flat(job.original) == MeaningOf(lines)
    requires MeaningOf(LazyOutput(job, lines)) == TrimmedMeaning(Flat(job.data))
    ensures Writable(Flat(job.data), Flat(job.original), job.pretty)
  {
    hide ParseLine, Normal, Trim, Readable, Flat, Effects, EndsInBackslash, StructureOk, LazyOutput, NameOk, IsTrimmed;
    var D, O := Flat(job.data), Flat(job.original);
    EffectsReadable(NOWHERE, LazyOutput(job, lines));
    assert AllReadable(TrimmedMeaning(D));
    forall s | s in D ensures NameOk(s) {
      assert s in TrimmedMeaning(D);
    }
    forall s, k | s in D && k in D[s] ensures Readable(k, Trim(D[s][k])) {
      assert k in TrimmedMeaning(D)[s];
    }
    if !job.pretty {
      forall s, k | s in D && k in D[s] && !(s in O && k in O[s]) ensures !EndsInBackslash(k) {
        NoNewBackslash(job, lines, D, O, |k| + 1);
      }
    }
  }

  /** For example the value \=b of a file is not changed to c. */
  lemma {:induction false} EscapedValueIsKept(pretty: bool)
    ensures var lines, data: Structure := [SectionLine("s"), EntryLine("a", "\\=b", false)], [("s", [("a", "c")])];
      MeaningOf(LazyOutput(Job(data, Read(lines), pretty), lines)) != TrimmedMeaning(Flat(data))
  {
    hide ParseLine, SectionLine, EntryLine, LazyOutput, Read, Normal, Flat, Effects, Writable, TrimmedMeaning;
    var entries: Entries := [("a", "c")];
    var lines, data: Structure := [SectionLine("s"), EntryLine("a", "\\=b", false)], [("s", entries)];
    EscapedValueRead(lines);
    NormalOfPlain("s");
    NormalOfPlain("a");
    MeaningIsRead(lines);
    FlatHas(data, "s");
    ViewHas(entries, "a");
    var D, O := Flat(data), MeaningOf(lines);
    assert D["s"]["a"] == "c" && O["s"]["a"] == "\\=b";
    assert InBoth(D, O, "s", "a") && !Replaceable(O["s"]["a"], D["s"]["a"]);
    LazyPreserves(Job(data, Read(lines), pretty), lines);
  }

  lemma EscapedValueRead(lines: seq<string>)
    requires lines == [SectionLine("s"), EntryLine("a", "\\=b", false)]
    ensures EntriesInSections(lines, false) && MeaningOf(lines) == map["s" := map["a" := "\\=b"]]
  {
    hide ParseLine, SectionLine, EntryLine, Normal;
    TrimOfTrimmed("\\=b");
    SectionRoundTrip("s");
    EntryRoundTrip("a", "\\=b", false);
    NormalOfPlain("s");
    NormalOfPlain("a");
    var head, last := State(map["s" := map[]], Some("s")), [lines[1]];
    assert lines[1..] == last && last[1..] == [];
    assert EntriesInSections(last, true);
    assert Effect(NOWHERE, Section("s")) == head;
    assert Effects(head, last).sections == map["s" := map["a" := "\\=b"]];
  }
}
