/** Lazy writing preserves meaning: what the merged file reads back as. */
module IniLazy {
  import opened Text
  import opened IniParser
  import opened IniEntry
  import opened IniMap
  import opened IniReader
  import opened IniGenerator
  import opened IniMeaning
  import opened IniWriter
  import opened IniRewrite

  // ---- the lines added for new keys ----

  function AddedMap(entries: Entries, known: Entries): map<string, string>
    decreases entries
  {
    if entries == [] then map[]
    else
      (if Has(known, entries[0].0) then map[] else map[entries[0].0 := Trim(entries[0].1)])
      + AddedMap(entries[1..], known)
  }

  predicate AddedOk(entries: Entries, known: Entries, pretty: bool) {
    forall j | 0 <= j < |entries| && !Has(known, entries[j].0) :: EntryOk(entries[j].0, entries[j].1, pretty)
  }

  predicate AllNormal<T>(m: Items<T>) { forall j | 0 <= j < |m| :: Normal(m[j].0) == m[j].0 }

  lemma RegroupMap(d: map<string, string>, key: string, value: string, more: map<string, string>)
    ensures d[key := value] + more == d + (map[key := value] + more)
  {
  }

  lemma {:induction false} AddedMeaning(m: State, entries: Entries, known: Entries, pretty: bool)
    requires m.current.Some? && m.current.value in m.sections
    requires AllNormal(entries) && AddedOk(entries, known, pretty)
    ensures var s := m.current.value;
      Effects(m, AddedLines(entries, known, pretty)) ==
      m.(sections := m.sections[s := m.sections[s] + AddedMap(entries, known)])
    decreases |entries|
  {
    hide ParseLine, EntryLine, EntryOk, Normal, Find, Trim, Effects;
    var s := m.current.value;
    if entries == [] {
      assert m.sections[s] + AddedMap(entries, known) == m.sections[s];
      NoEffects(m);
    } else {
      var (key, value) := entries[0];
      var rest := AddedLines(entries[1..], known, pretty);
      if Has(known, key) {
        assert [] + rest == rest;
        assert map[] + AddedMap(entries[1..], known) == AddedMap(entries[1..], known);
        AddedMeaning(m, entries[1..], known, pretty);
      } else {
        var line := EntryLine(key, value, pretty);
        var n := Effect(m, ParseLine(line));
        AddedEffect(m, key, value, pretty);
        FirstEffect(m, line, rest);
        AddedMeaning(n, entries[1..], known, pretty);
        RegroupMap(m.sections[s], key, Trim(value), AddedMap(entries[1..], known));
        assert m.sections[s := m.sections[s][key := Trim(value)]][s := n.sections[s] + AddedMap(entries[1..], known)] ==
          m.sections[s := n.sections[s] + AddedMap(entries[1..], known)];
      }
    }
  }

  lemma NoEffects(m: State)
    ensures Effects(m, []) == m
    ensures m.current.Some? && m.current.value in m.sections ==>
      m.(sections := m.sections[m.current.value := m.sections[m.current.value]]) == m
  {
    if m.current.Some? && m.current.value in m.sections {
      assert m.sections[m.current.value := m.sections[m.current.value]] == m.sections;
    }
  }

  lemma FirstEffect(m: State, line: string, rest: seq<string>)
    ensures Effects(m, [line] + rest) == Effects(Effect(m, ParseLine(line)), rest)
  {
    hide ParseLine, Effect;
    assert ([line] + rest)[1..] == rest;
  }

  lemma AddedEffect(m: State, key: string, value: string, pretty: bool)
    requires m.current.Some? && m.current.value in m.sections && Normal(key) == key && EntryOk(key, value, pretty)
    ensures var s := m.current.value;
      Effect(m, ParseLine(EntryLine(key, value, pretty))) ==
        m.(sections := m.sections[s := m.sections[s][key := Trim(value)]])
  {
    hide ParseLine, EntryLine, EntryOk, Normal, Trim;
    NormalShape(key);
    EntryRoundTrip(key, value, pretty);
  }

  lemma {:induction false} TailWellFormed<T>(m: Items<T>)
    requires m != [] && WellFormed(m)
    ensures WellFormed(m[1..])
    ensures !Has(m[1..], m[0].0)
    ensures forall k :: Has(m, k) <==> k == m[0].0 || Has(m[1..], k)
    ensures forall k | Has(m[1..], k) :: Get(m[1..], k) == Get(m, k)
  {
    hide Normal;
    forall i | 0 <= i < |m| - 1 ensures Normal(m[1..][i].0) == m[1..][i].0 && Find(m[1..], m[1..][i].0) == i {
      assert Find(m, m[i + 1].0) == i + 1;
    }
    assert forall i | 0 <= i < |m| - 1 :: m[1..][i].0 == m[i + 1].0 != m[0].0;
  }

  lemma {:induction false} AddedMapIs(entries: Entries, known: Entries)
    requires WellFormed(entries)
    ensures forall k :: k in AddedMap(entries, known) <==> Has(entries, k) && !Has(known, k)
    ensures forall k | k in AddedMap(entries, known) :: AddedMap(entries, known)[k] == Trim(Get(entries, k))
    decreases |entries|
  {
    hide Find, Trim, WellFormed;
    if entries != [] {
      TailWellFormed(entries);
      AddedMapIs(entries[1..], known);
      FirstIsFound(entries);
    } else {
      NothingFound<string>();
    }
  }

  lemma NothingFound<T>()
    ensures forall k :: !Has<T>([], k)
  {
  }

  lemma FirstIsFound<T>(m: Items<T>)
    requires m != []
    ensures Has(m, m[0].0) && Get(m, m[0].0) == m[0].1
  {
  }

  // ---- one section of the old file ----

  /** An old value that can be replaced in place. */
  predicate Replaceable(oldValue: string, newValue: string) {
    oldValue == newValue || !("\\=" <= oldValue)
  }

  /** While the old lines are merged: d is the section to write, full what the old file holds
      of it, o what the lines so far hold of it and m what has been written of it. */
  ghost predicate SectionTracks(d: map<string, string>, full: map<string, string>, o: map<string, string>,
    m: map<string, string>, closed: bool) {
    && (forall k | k in m :: k in d && (k in o || k !in full))
    && (forall k | k in o && k in d :: k in m && (m[k] == Trim(d[k]) <==> Replaceable(o[k], d[k])))
    && (forall k | k in m && k !in full :: m[k] == Trim(d[k]))
    && (closed ==> forall k | k in d && k !in full :: k in m)
  }

  ghost predicate Tracks(D: Meaning, O: Meaning, o: State, st: LazyState, m: State, open: bool) {
    && (open ==> AllInert(st.output[st.keyEnd..]) && m.current == Some(st.section) && st.section in m.sections)
    && (o.current.None? ==> o.sections == map[] && !st.parsing && !st.skipping)
    && (o.current.Some? ==>
          && st.section == o.current.value && st.section in o.sections
          && st.parsing == (st.section in D) && st.skipping == !st.parsing)
    && m.sections.Keys == o.sections.Keys * D.Keys
    && o.sections.Keys <= O.Keys
    && forall s | s in m.sections :: SectionTracks(D[s], O[s], o.sections[s], m.sections[s], !(open && st.section == s))
  }

  ghost predicate JobOk(job: Job) { StructureOk(job.data) && StructureOk(job.original) }

  /** The lines that lazy writing adds are understood, and rewritten lines stay entries. */
  ghost predicate Writable(D: Meaning, O: Meaning, pretty: bool) {
    && (forall s, k | s in D && k in D[s] :: Readable(k, Trim(D[s][k])))
    && (forall s | s in D && s !in O :: NameOk(s))
    && (pretty || forall s, k | s in D && k in D[s] && !(s in O && k in O[s]) :: !EndsInBackslash(k))
  }

  lemma {:induction false} WrittenOutput(output: seq<string>, keyEnd: nat, adds: seq<string>)
    requires keyEnd <= |output| && AllInert(output[keyEnd..])
    ensures Effects(NOWHERE, output[..keyEnd] + adds + output[keyEnd..]) == Effects(Effects(NOWHERE, output), adds)
  {
    hide ParseLine, Effect, Effects, Inert;
    var head, tail := output[..keyEnd], output[keyEnd..];
    EffectsSplit(NOWHERE, head + adds, tail);
    EffectsSplit(NOWHERE, head, adds);
    EffectsSplit(NOWHERE, head, tail);
    assert output == head + tail;
    InertMeansNothing(Effects(NOWHERE, head + adds), tail);
    InertMeansNothing(Effects(NOWHERE, head), tail);
  }

  lemma {:induction false} SectionOfJob(s: Structure, name: string)
    requires StructureOk(s)
    ensures name in Flat(s) <==> Has(s, name)
    ensures Has(s, name) ==> WellFormed(Get(s, name)) && Flat(s)[name] == View(Get(s, name))
  {
    hide WellFormed, View;
    FlatHas(s, name);
  }

  /** What the new keys of a section are, as maps. */
  lemma {:induction false} FlushMeaning(job: Job, st: LazyState, m: State)
    requires JobOk(job) && Writable(Flat(job.data), Flat(job.original), job.pretty)
    requires st.section in Flat(job.original) && st.section in Flat(job.data)
    requires m == Effects(NOWHERE, st.output) && m.current == Some(st.section) && st.section in m.sections
    requires AllInert(st.output[st.keyEnd..])
    ensures var s := st.section; var d, full := Flat(job.data)[s], Flat(job.original)[s];
      Effects(NOWHERE, Flush(job, st).output) ==
      m.(sections := m.sections[s := m.sections[s] + map k | k in d && k !in full :: Trim(d[k])])
  {
    hide ParseLine, Normal, Find, Trim, Flat, View, Effect, Effects, EntryOk, WellFormed, AddedMap, AddedLines;
    hide Writable;
    var s := st.section;
    SectionOfJob(job.data, s);
    SectionOfJob(job.original, s);
    var entries, known := Get(job.data, s), Get(job.original, s);
    WrittenOutput(st.output, st.keyEnd, NewKeyLines(job, s));
    NewKeysOk(job, s);
    AddedMeaning(m, entries, known, job.pretty);
    AddedMapIs(entries, known);
    var d, full := Flat(job.data)[s], Flat(job.original)[s];
    forall k ensures (k in d <==> Has(entries, k)) && (k in full <==> Has(known, k))
      && (k in d ==> d[k] == Get(entries, k)) {
      ViewHas(entries, k);
      ViewHas(known, k);
    }
    assert AddedMap(entries, known) == map k | k in d && k !in full :: Trim(d[k]);
  }

  lemma {:induction false} FlushSection(d: map<string, string>, full: map<string, string>, o: map<string, string>,
    m: map<string, string>)
    requires SectionTracks(d, full, o, m, false) && o.Keys <= full.Keys
    ensures SectionTracks(d, full, o, m + map k | k in d && k !in full :: Trim(d[k]), true)
  {
    hide Trim, Replaceable;
  }

  /** Writing the new keys of a section closes it. */
  lemma {:induction false} FlushTracks(job: Job, o: State, st: LazyState)
    requires JobOk(job) && Writable(Flat(job.data), Flat(job.original), job.pretty)
    requires st.section in Flat(job.original)
    requires Tracks(Flat(job.data), Flat(job.original), o, st, Effects(NOWHERE, st.output), true)
    requires forall s | s in o.sections && s in Flat(job.original) :: o.sections[s].Keys <= Flat(job.original)[s].Keys
    ensures var next := Flush(job, st);
      Tracks(Flat(job.data), Flat(job.original), o, next, Effects(NOWHERE, next.output), false)
  {
    hide ParseLine, Normal, Find, Trim, Flat, View, Effect, Effects, EntryOk, WellFormed, SectionTracks, Writable;
    hide NewKeyLines;
    var D, O, s := Flat(job.data), Flat(job.original), st.section;
    var m := Effects(NOWHERE, st.output);
    FlushMeaning(job, st, m);
    FlushSection(D[s], O[s], o.sections[s], m.sections[s]);
    var n := Effects(NOWHERE, Flush(job, st).output);
    forall t | t in n.sections ensures SectionTracks(D[t], O[t], o.sections[t], n.sections[t], true) {
      assert t != s ==> n.sections[t] == m.sections[t] && SectionTracks(D[t], O[t], o.sections[t], m.sections[t], true);
    }
  }

  lemma {:induction false} NewKeysOk(job: Job, s: string)
    requires JobOk(job) && Writable(Flat(job.data), Flat(job.original), job.pretty)
    requires Has(job.data, s) && Has(job.original, s)
    ensures AddedOk(Get(job.data, s), Get(job.original, s), job.pretty) && AllNormal(Get(job.data, s))
  {
    hide Normal, Trim, Readable, Flat, View;
    var D, O := Flat(job.data), Flat(job.original);
    SectionOfJob(job.data, s);
    SectionOfJob(job.original, s);
    var entries, known := Get(job.data, s), Get(job.original, s);
    forall j | 0 <= j < |entries| && !Has(known, entries[j].0) ensures EntryOk(entries[j].0, entries[j].1, job.pretty) {
      ViewHas(entries, entries[j].0);
      ViewHas(known, entries[j].0);
      assert Find(entries, entries[j].0) == j;
      assert D[s][entries[j].0] == entries[j].1;
      assert Readable(entries[j].0, Trim(D[s][entries[j].0]));
      assert entries[j].0 in D[s] && entries[j].0 !in O[s];
      assert job.pretty || !EndsInBackslash(entries[j].0);
    }
  }

  /** What the lines so far hold is part of what all of them hold. */
  ghost predicate Within(o: State, O: Meaning) {
    && o.sections.Keys <= O.Keys
    && forall s | s in o.sections :: o.sections[s].Keys <= O[s].Keys
  }

  /** A header that starts a section, known or new, keeps track. */
  lemma {:induction false} HeaderTracks(job: Job, D: Meaning, O: Meaning, o: State, st: LazyState, line: string)
    requires D == Flat(job.data) && ParseLine(line).Section?
    requires Tracks(D, O, o, st, Effects(NOWHERE, st.output), false)
    requires Within(Effect(o, ParseLine(line)), O)
    ensures var next := LazyHeader(job, st, line, Normal(ParseLine(line).name));
      Tracks(D, O, Effect(o, ParseLine(line)), next, Effects(NOWHERE, next.output), next.parsing)
  {
    hide ParseLine, Normal, Find, Effects, SectionTracks, Flat;
    var s := Normal(ParseLine(line).name);
    var m, o' := Effects(NOWHERE, st.output), Effect(o, ParseLine(line));
    FlatHas(job.data, s);
    forall t | t in m.sections && t in D ensures SectionTracks(D[t], O[t], o.sections[t], m.sections[t], false) {
      Reopen(D[t], O[t], o.sections[t], m.sections[t]);
    }
    if s in D {
      EffectsOne(NOWHERE, st.output, line);
      FreshSection(D[s], O[s]);
      var next := LazyHeader(job, st, line, s);
      assert next.output[next.keyEnd..] == [];
    }
  }

  lemma Reopen(d: map<string, string>, full: map<string, string>, o: map<string, string>, m: map<string, string>)
    requires SectionTracks(d, full, o, m, true)
    ensures SectionTracks(d, full, o, m, false)
  {
  }

  lemma FreshSection(d: map<string, string>, full: map<string, string>)
    ensures SectionTracks(d, full, map[], map[], false)
  {
  }

  /** An old entry, kept or rewritten, keeps track of its section. */
  lemma {:induction false} EntrySection(d: map<string, string>, full: map<string, string>,
    o: map<string, string>, m: map<string, string>, key: string, oldValue: string, newValue: string, closed: bool)
    requires SectionTracks(d, full, o, m, closed) && key in d && key in full
    requires newValue == Trim(d[key]) <==> Replaceable(oldValue, d[key])
    ensures SectionTracks(d, full, o[key := oldValue], m[key := newValue], closed)
  {
    hide Trim, Replaceable;
  }

  lemma {:induction false} DroppedEntrySection(d: map<string, string>, full: map<string, string>,
    o: map<string, string>, m: map<string, string>, key: string, oldValue: string, closed: bool)
    requires SectionTracks(d, full, o, m, closed) && key !in d
    ensures SectionTracks(d, full, o[key := oldValue], m, closed)
  {
    hide Trim, Replaceable;
  }

  /** The line written for an old entry is an entry with the same key. */
  lemma EntryOutputBack(line: string, newValue: string, pretty: bool)
    requires ParseLine(line).KeyValue?
    requires Readable(ParseLine(line).key, Trim(newValue))
    ensures var old_ := ParseLine(line); var new_ := ParseLine(EntryOutput(line, old_.value, newValue, pretty));
      && new_.KeyValue? && new_.key == old_.key
      && (new_.value == Trim(newValue) <==> Replaceable(old_.value, newValue))
  {
    hide ParseLine, RewriteLine, Trim;
    if ParseLine(line).value == newValue {
      ParsedIsReadable(line);
      TrimOfTrimmed(newValue);
    } else {
      RewriteRoundTrip(line, newValue, pretty);
    }
  }

  /** A key and its normal form are readable alike. */
  lemma ReadableAlike(key: string, value: string)
    requires IsTrimmed(key) && Readable(Normal(key), value) && (key != "" ==> key[0] != ';')
    requires key != "" && key[0] == '[' ==> ';' !in key && ']' !in key
    ensures Readable(key, value)
  {
    TrimOfTrimmed(key);
    assert key != "" ==> Normal(key)[0] == LowerChar(key[0]);
  }

  lemma TracksMeans(D: Meaning, O: Meaning, o: State, st: LazyState, m: State)
    requires Tracks(D, O, o, st, m, st.parsing) && o.current.Some?
    ensures var s := st.section;
      && o.current == Some(s) && s in o.sections && s in O && st.parsing == (s in D) && st.skipping == !st.parsing
      && (s in D ==>
            && s in m.sections && m.current == Some(s)
            && SectionTracks(D[s], O[s], o.sections[s], m.sections[s], false))
  {
    hide SectionTracks, AllInert;
  }

  /** The section at hand gets other contents, and the others stay as they are. */
  lemma {:induction false} TracksSet(D: Meaning, O: Meaning, o: State, st: LazyState, m: State, next: LazyState,
    os: map<string, string>, ms: map<string, string>)
    requires Tracks(D, O, o, st, m, st.parsing) && o.current.Some?
    requires next.section == st.section && next.parsing == st.parsing && next.skipping == st.skipping
    requires st.parsing ==>
      AllInert(next.output[next.keyEnd..]) && SectionTracks(D[st.section], O[st.section], os, ms, false)
    ensures var s := st.section;
      Tracks(D, O, o.(sections := o.sections[s := os]), next, if s in D then m.(sections := m.sections[s := ms]) else m,
        next.parsing)
  {
    hide SectionTracks, AllInert;
  }

  lemma {:induction false} EntryTracks(job: Job, D: Meaning, O: Meaning, o: State, st: LazyState, line: string)
    requires D == Flat(job.data) && JobOk(job) && Writable(D, O, job.pretty)
    requires ParseLine(line).KeyValue? && o.current.Some?
    requires Tracks(D, O, o, st, Effects(NOWHERE, st.output), st.parsing)
    requires st.parsing || st.skipping
    requires Within(Effect(o, ParseLine(line)), O)
    ensures var next := LazyEntry(job, st, line, Normal(ParseLine(line).key), ParseLine(line).value);
      Tracks(D, O, Effect(o, ParseLine(line)), next, Effects(NOWHERE, next.output), next.parsing)
  {
    hide ParseLine, Normal, Find, Effects, SectionTracks, Flat, EntryOutput, Trim, Readable, Replaceable, View;
    hide Writable, Tracks;
    var s, m := st.section, Effects(NOWHERE, st.output);
    var key, value := Normal(ParseLine(line).key), ParseLine(line).value;
    var next := LazyEntry(job, st, line, key, value);
    TracksMeans(D, O, o, st, m);
    SectionOfJob(job.data, s);
    var os := o.sections[s][key := value];
    if s !in D {
      TracksSet(D, O, o, st, m, next, os, map[]);
    } else {
      ViewHas(Get(job.data, s), key);
      if key in D[s] {
        WrittenEntryTracks(job, D, O, o, st, line, s);
      } else {
        DroppedEntrySection(D[s], O[s], o.sections[s], m.sections[s], key, value, false);
        InertTail(D, O, o, st, m);
        TracksSet(D, O, o, st, m, next, os, m.sections[s]);
        assert m.sections[s := m.sections[s]] == m.sections;
      }
    }
  }

  lemma InertTail(D: Meaning, O: Meaning, o: State, st: LazyState, m: State)
    requires Tracks(D, O, o, st, m, st.parsing) && st.parsing
    ensures AllInert(st.output[st.keyEnd..])
  {
  }

  lemma {:induction false} WrittenEntryTracks(job: Job, D: Meaning, O: Meaning, o: State, st: LazyState, line: string,
    s: string)
    requires D == Flat(job.data) && JobOk(job) && Writable(D, O, job.pretty)
    requires ParseLine(line).KeyValue? && o.current == Some(s) && s == st.section && s in o.sections && s in O && s in D
    requires Normal(ParseLine(line).key) in D[s] && Has(job.data, s)
      && Has(Get(job.data, s), Normal(ParseLine(line).key))
    requires Get(Get(job.data, s), Normal(ParseLine(line).key)) == D[s][Normal(ParseLine(line).key)]
    requires var m := Effects(NOWHERE, st.output);
      && Tracks(D, O, o, st, m, st.parsing) && !st.skipping && s in m.sections && m.current == Some(s)
      && SectionTracks(D[s], O[s], o.sections[s], m.sections[s], false)
    requires Within(Effect(o, ParseLine(line)), O)
    ensures var next := LazyEntry(job, st, line, Normal(ParseLine(line).key), ParseLine(line).value);
      Tracks(D, O, Effect(o, ParseLine(line)), next, Effects(NOWHERE, next.output), next.parsing)
  {
    hide ParseLine, Normal, Find, Effects, SectionTracks, Flat, EntryOutput, Trim, Readable, Replaceable, Writable;
    hide Tracks, JobOk;
    var m, key, value := Effects(NOWHERE, st.output), Normal(ParseLine(line).key), ParseLine(line).value;
    var next, newValue := LazyEntry(job, st, line, key, value), D[s][key];
    var written := EntryOutput(line, value, newValue, job.pretty);
    EntryIsReadable(D, O, s, line, job.pretty);
    EntryOutputBack(line, newValue, job.pretty);
    EffectsOne(NOWHERE, st.output, written);
    assert next.output == st.output + [written] && next.output[next.keyEnd..] == [];
    assert key in Effect(o, ParseLine(line)).sections[s];
    EntrySection(D[s], O[s], o.sections[s], m.sections[s], key, value, ParseLine(written).value, false);
    TracksSet(D, O, o, st, m, next, o.sections[s][key := value], m.sections[s][key := ParseLine(written).value]);
  }

  lemma EntryIsReadable(D: Meaning, O: Meaning, s: string, line: string, pretty: bool)
    requires Writable(D, O, pretty) && ParseLine(line).KeyValue?
    requires s in D && Normal(ParseLine(line).key) in D[s]
    ensures Readable(ParseLine(line).key, Trim(D[s][Normal(ParseLine(line).key)]))
  {
    hide ParseLine, Normal, Trim;
    ParsedIsReadable(line);
    ReadableAlike(ParseLine(line).key, Trim(D[s][Normal(ParseLine(line).key)]));
  }

  lemma {:induction false} InertTracks(job: Job, D: Meaning, O: Meaning, o: State, st: LazyState, line: string)
    requires Inert(line)
    requires Tracks(D, O, o, st, Effects(NOWHERE, st.output), st.parsing)
    ensures var next := LazyLine(job, st, line);
      Tracks(D, O, Effect(o, ParseLine(line)), next, Effects(NOWHERE, next.output), next.parsing)
  {
    hide ParseLine, Effects, SectionTracks;
    var next := LazyLine(job, st, line);
    if next.output != st.output {
      EffectsOne(NOWHERE, st.output, line);
      assert next.output[next.keyEnd..] == st.output[st.keyEnd..] + [line];
    }
  }

  /** No entry stands before the first header. */
  predicate EntriesInSections(lines: seq<string>, inSection: bool)
    decreases lines
  {
    lines == [] ||
    ((ParseLine(lines[0]).KeyValue? ==> inSection)
      && EntriesInSections(lines[1..], inSection || ParseLine(lines[0]).Section?))
  }

  /** The lines the reader keeps for the writer are of that form. */
  lemma {:induction false} KeptEntriesInSections(lines: seq<string>, inSection: bool)
    ensures EntriesInSections(KeptLines(lines, inSection), inSection)
    decreases |lines|
  {
    hide ParseLine;
    if lines != [] {
      var now := inSection || ParseLine(lines[0]).Section?;
      var rest := KeptLines(lines[1..], now);
      KeptEntriesInSections(lines[1..], now);
      assert ([lines[0]] + rest)[1..] == rest && [] + rest == rest;
    }
  }

  lemma {:induction false} LineTracks(job: Job, D: Meaning, O: Meaning, o: State, st: LazyState, line: string)
    requires JobOk(job) && D == Flat(job.data) && O == Flat(job.original) && Writable(D, O, job.pretty)
    requires Tracks(D, O, o, st, Effects(NOWHERE, st.output), st.parsing)
    requires ParseLine(line).KeyValue? ==> o.current.Some?
    requires Within(o, O) && Within(Effect(o, ParseLine(line)), O)
    ensures var next := LazyLine(job, st, line);
      Tracks(D, O, Effect(o, ParseLine(line)), next, Effects(NOWHERE, next.output), next.parsing)
  {
    hide ParseLine, Effects, SectionTracks, Flat, LazyHeader, LazyEntry, Effect, Flush, Writable;
    if ParseLine(line).Section? {
      if st.parsing { FlushTracks(job, o, st); }
      HeaderTracks(job, D, O, o, if st.parsing then Flush(job, st) else st, line);
    } else if ParseLine(line).KeyValue? {
      EntryTracks(job, D, O, o, st, line);
    } else {
      InertTracks(job, D, O, o, st, line);
    }
  }

  /** The invariant of the merge, over all lines of the old file. */
  lemma {:induction false} LinesTrack(job: Job, D: Meaning, O: Meaning, o: State, st: LazyState, lines: seq<string>)
    requires JobOk(job) && D == Flat(job.data) && O == Flat(job.original) && Writable(D, O, job.pretty)
    requires Tracks(D, O, o, st, Effects(NOWHERE, st.output), st.parsing)
    requires EntriesInSections(lines, o.current.Some?)
    requires Effects(o, lines).sections == O
    ensures var last := LazyLines(job, st, lines);
      Tracks(D, O, Effects(o, lines), last, Effects(NOWHERE, last.output), last.parsing)
    decreases |lines|
  {
    hide ParseLine, Tracks, Flat, LazyLine, Writable;
    if lines != [] {
      var next := Effect(o, ParseLine(lines[0]));
      EffectsGrow(o, lines);
      EffectsGrow(next, lines[1..]);
      LineTracks(job, D, O, o, st, lines[0]);
      CurrentAfter(o, ParseLine(lines[0]));
      LinesTrack(job, D, O, next, LazyLine(job, st, lines[0]), lines[1..]);
    }
  }

  lemma CurrentAfter(o: State, p: Parsed)
    ensures Effect(o, p).current.Some? <==> o.current.Some? || p.Section?
  {
  }

  lemma FlushOfNothing(job: Job, st: LazyState)
    requires !Has(job.data, st.section) || !Has(job.original, st.section)
    ensures Flush(job, st) == st
  {
    assert st.output[..st.keyEnd] + [] + st.output[st.keyEnd..] == st.output;
  }

  /** What the merged old lines mean: the sections and keys that both files have, with the new
      keys of those sections. */
  lemma {:induction false} MergedMeaning(job: Job, lines: seq<string>)
    requires JobOk(job) && Writable(Flat(job.data), Flat(job.original), job.pretty)
    requires EntriesInSections(lines, false) && Flat(job.original) == MeaningOf(lines)
    ensures var D, O, M := Flat(job.data), Flat(job.original), MeaningOf(MergedLines(job, lines));
      M.Keys == O.Keys * D.Keys && forall s | s in M :: SectionTracks(D[s], O[s], O[s], M[s], true)
  {
    hide ParseLine, Flat, LazyLines, SectionTracks, Writable, Flush;
    var D, O := Flat(job.data), Flat(job.original);
    var o := Effects(NOWHERE, lines);
    if lines != [] {
      var last := LazyLines(job, START, lines);
      assert START.output[START.keyEnd..] == [];
      LinesTrack(job, D, O, NOWHERE, START, lines);
      if last.parsing {
        FlushTracks(job, o, last);
      } else {
        FlatHas(job.data, last.section);
        FlatHas(job.original, last.section);
        FlushOfNothing(job, last);
      }
    }
  }

  // ---- new sections ----

  lemma {:induction false} EntryLinesAreAdded(entries: Entries, pretty: bool)
    ensures EntryLines(entries, pretty) == AddedLines(entries, [], pretty)
    decreases |entries|
  {
    hide EntryLine;
    if entries != [] {
      NothingFound<string>();
      EntryLinesAreAdded(entries[1..], pretty);
    }
  }

  lemma {:induction false} BlockMeaning(m: State, name: string, entries: Entries, pretty: bool)
    requires name !in m.sections && Normal(name) == name && NameOk(name)
    requires AllNormal(entries) && AddedOk(entries, [], pretty)
    ensures Effects(m, Block(name, entries, pretty)) == State(m.sections[name := AddedMap(entries, [])], Some(name))
  {
    hide ParseLine, Normal, EntryLine, SectionLine, EntryOk, Trim, Find, AddedMap, AddedLines, EntryLines;
    NormalShape(name);
    SectionRoundTrip(name);
    EntryLinesAreAdded(entries, pretty);
    var lines := Block(name, entries, pretty);
    var n := Effect(m, ParseLine(lines[0]));
    assert lines[1..] == AddedLines(entries, [], pretty);
    AddedMeaning(n, entries, [], pretty);
    assert map[] + AddedMap(entries, []) == AddedMap(entries, []);
  }

  function NewSections(sections: Structure, original: Structure): Meaning
    decreases sections
  {
    if sections == [] then map[]
    else
      (if Has(original, sections[0].0) then map[] else map[sections[0].0 := AddedMap(sections[0].1, [])])
      + NewSections(sections[1..], original)
  }

  predicate NewSectionsOk(sections: Structure, original: Structure, pretty: bool) {
    forall i | 0 <= i < |sections| && !Has(original, sections[i].0) ::
      NameOk(sections[i].0) && AllNormal(sections[i].1) && AddedOk(sections[i].1, [], pretty)
  }

  lemma {:induction false} AppendOne(job: Job, output: seq<string>, name: string, entries: Entries)
    requires Normal(name) == name
    requires !Has(job.original, name) ==> NameOk(name) && AllNormal(entries) && AddedOk(entries, [], job.pretty)
    requires !Has(job.original, name) ==> name !in MeaningOf(output)
    ensures MeaningOf(WithSection(job, output, name, entries)) ==
      if Has(job.original, name) then MeaningOf(output) else MeaningOf(output)[name := AddedMap(entries, [])]
  {
    if !Has(job.original, name) { BlockAdded(job, output, name, entries); }
  }

  lemma {:induction false} BlockAdded(job: Job, output: seq<string>, name: string, entries: Entries)
    requires Normal(name) == name && NameOk(name) && AllNormal(entries) && AddedOk(entries, [], job.pretty)
    requires name !in MeaningOf(output)
    ensures MeaningOf(output + Gap(output, job.pretty) + Block(name, entries, job.pretty)) ==
      MeaningOf(output)[name := AddedMap(entries, [])]
  {
    hide ParseLine, Normal, Block, Effect, AddedOk, AddedMap;
    var gap := Gap(output, job.pretty);
    EffectsSplit(NOWHERE, output + gap, Block(name, entries, job.pretty));
    EffectsSplit(NOWHERE, output, gap);
    EmptyIsNothing();
    InertMeansNothing(Effects(NOWHERE, output), gap);
    BlockMeaning(Effects(NOWHERE, output), name, entries, job.pretty);
  }

  lemma {:induction false} AppendMeaning(job: Job, output: seq<string>, sections: Structure)
    requires WellFormed(sections) && NewSectionsOk(sections, job.original, job.pretty)
    requires forall i | 0 <= i < |sections| && !Has(job.original, sections[i].0) :: sections[i].0 !in MeaningOf(output)
    ensures MeaningOf(AppendSections(job, output, sections)) == MeaningOf(output) + NewSections(sections, job.original)
    decreases |sections|
  {
    hide ParseLine, Normal, WithSection, MeaningOf, AddedOk, AddedMap, Find, NameOk, WellFormed;
    if sections == [] {
      assert MeaningOf(output) + map[] == MeaningOf(output);
    } else {
      var (name, entries) := sections[0];
      TailWellFormed(sections);
      FirstIsNormal(sections);
      var next, rest := WithSection(job, output, name, entries), NewSections(sections[1..], job.original);
      AppendOne(job, output, name, entries);
      forall i | 0 <= i < |sections| - 1 && !Has(job.original, sections[1..][i].0)
        ensures sections[1..][i].0 !in MeaningOf(next)
      {
        assert sections[1..][i] == sections[i + 1];
        ItemIsFound(sections[1..], i);
      }
      AppendMeaning(job, next, sections[1..]);
      OneMoreSection(MeaningOf(output), name, AddedMap(entries, []), rest);
    }
  }

  lemma OneMoreSection(m: Meaning, name: string, entries: map<string, string>, rest: Meaning)
    ensures m[name := entries] + rest == m + (map[name := entries] + rest)
    ensures map[] + rest == rest
  {
  }

  lemma FirstIsNormal<T>(m: Items<T>)
    requires m != [] && WellFormed(m)
    ensures Normal(m[0].0) == m[0].0
  {
  }

  lemma {:induction false} ItemIsFound<T>(m: Items<T>, i: nat)
    requires i < |m|
    ensures Has(m, m[i].0)
  {
  }

  lemma {:induction false} NewSectionsIs(sections: Structure, original: Structure)
    requires WellFormed(sections)
    ensures forall k :: k in NewSections(sections, original) <==> Has(sections, k) && !Has(original, k)
    ensures forall k | k in NewSections(sections, original) ::
      NewSections(sections, original)[k] == AddedMap(Get(sections, k), [])
    decreases |sections|
  {
    hide Find, AddedMap, WellFormed;
    if sections != [] {
      TailWellFormed(sections);
      NewSectionsIs(sections[1..], original);
      FirstIsFound(sections);
    } else {
      NothingFound<Entries>();
    }
  }

  lemma {:induction false} NewSectionsAreOk(job: Job)
    requires JobOk(job) && Writable(Flat(job.data), Flat(job.original), job.pretty)
    ensures NewSectionsOk(job.data, job.original, job.pretty)
  {
    hide Normal, Trim, Readable, Flat, View, Find;
    var D, O := Flat(job.data), Flat(job.original);
    forall i | 0 <= i < |job.data| && !Has(job.original, job.data[i].0)
      ensures NameOk(job.data[i].0) && AllNormal(job.data[i].1) && AddedOk(job.data[i].1, [], job.pretty)
    {
      var s, entries := job.data[i].0, job.data[i].1;
      ItemIsFound(job.data, i);
      assert Find(job.data, s) == i;
      SectionOfJob(job.data, s);
      SectionOfJob(job.original, s);
      forall j | 0 <= j < |entries| ensures EntryOk(entries[j].0, entries[j].1, job.pretty) {
        ItemIsFound(entries, j);
        ViewHas(entries, entries[j].0);
        assert Find(entries, entries[j].0) == j;
        assert D[s][entries[j].0] == entries[j].1;
        assert Readable(entries[j].0, Trim(D[s][entries[j].0]));
        assert job.pretty || !EndsInBackslash(entries[j].0);
      }
    }
  }

  // ---- the whole file ----

  predicate InBoth(D: Meaning, O: Meaning, s: string, k: string) {
    s in D && k in D[s] && s in O && k in O[s]
  }

  /** When every line that is written is understood, the merged file has exactly the sections
      and keys of the data; and an entry has its new value unless an old value that starts
      with an escaped '=' was changed. */
  lemma {:induction false} LazyMeaning(job: Job, lines: seq<string>)
    requires JobOk(job) && Writable(Flat(job.data), Flat(job.original), job.pretty)
    requires EntriesInSections(lines, false) && Flat(job.original) == MeaningOf(lines)
    ensures var D, O, W := Flat(job.data), Flat(job.original), MeaningOf(LazyOutput(job, lines));
      && W.Keys == D.Keys
      && (forall s | s in D :: W[s].Keys == D[s].Keys)
      && forall s, k | s in D && k in D[s] ::
          W[s][k] == Trim(D[s][k]) <==> !InBoth(D, O, s, k) || Replaceable(O[s][k], D[s][k])
  {
    hide ParseLine, Normal, Find, Trim, Flat, View, Effects, MergedLines, NewSections, AddedMap, Readable, Replaceable;
    hide Writable, AppendSections;
    hide SectionTracks, StructureOk, MeaningOf;
    var D, O := Flat(job.data), Flat(job.original);
    var M, W := MeaningOf(MergedLines(job, lines)), MeaningOf(LazyOutput(job, lines));
    MergedMeaning(job, lines);
    LazySections(job, lines);
    forall s | s in D
      ensures W[s].Keys == D[s].Keys
      ensures forall k | k in D[s] :: W[s][k] == Trim(D[s][k]) <==> !InBoth(D, O, s, k) || Replaceable(O[s][k], D[s][k])
    {
      if s in O { OldSectionMeaning(D[s], O[s], W[s]); }
    }
  }

  lemma {:induction false} OldSectionMeaning(d: map<string, string>, full: map<string, string>, m: map<string, string>)
    requires SectionTracks(d, full, full, m, true)
    ensures m.Keys == d.Keys
    ensures forall k | k in d :: m[k] == Trim(d[k]) <==> k !in full || Replaceable(full[k], d[k])
  {
    hide Trim, Replaceable;
  }

  /** The sections of the merged file: the old ones as merged, the new ones as they are. */
  lemma {:induction false} LazySections(job: Job, lines: seq<string>)
    requires JobOk(job) && Writable(Flat(job.data), Flat(job.original), job.pretty)
    requires MeaningOf(MergedLines(job, lines)).Keys == Flat(job.original).Keys * Flat(job.data).Keys
    ensures var D, O, W, M := Flat(job.data), Flat(job.original), MeaningOf(LazyOutput(job, lines)),
      MeaningOf(MergedLines(job, lines));
      && W.Keys == D.Keys
      && forall s | s in W :: W[s] == if s in O then M[s] else map k | k in D[s] :: Trim(D[s][k])
  {
    hide ParseLine, Normal, Find, Trim, Flat, View, MergedLines, NewSections, AddedMap, Writable, AppendSections;
    hide MeaningOf, Effects;
    var D, O := Flat(job.data), Flat(job.original);
    var M, W := MeaningOf(MergedLines(job, lines)), MeaningOf(LazyOutput(job, lines));
    NewSectionsAreOk(job);
    forall s ensures (s in D <==> Has(job.data, s)) && (s in O <==> Has(job.original, s)) {
      SectionOfJob(job.data, s);
      SectionOfJob(job.original, s);
    }
    AppendMeaning(job, MergedLines(job, lines), job.data);
    NewSectionsIs(job.data, job.original);
    forall s | s in W && s !in O ensures W[s] == map k | k in D[s] :: Trim(D[s][k]) {
      NewSectionMeaning(job, s);
    }
  }

  lemma {:induction false} NewSectionMeaning(job: Job, s: string)
    requires JobOk(job) && Has(job.data, s)
    ensures s in Flat(job.data)
    ensures AddedMap(Get(job.data, s), []) == map k | k in Flat(job.data)[s] :: Trim(Flat(job.data)[s][k])
  {
    hide Normal, Find, Trim, Flat, View, AddedMap, WellFormed;
    SectionOfJob(job.data, s);
    var entries, d := Get(job.data, s), Flat(job.data)[s];
    AddedMapIs(entries, []);
    NothingFound<string>();
    forall k ensures (k in d <==> Has(entries, k)) && (k in d ==> d[k] == Get(entries, k)) {
      ViewHas(entries, k);
    }
  }
}
