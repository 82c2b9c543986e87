/** Writing back what was read: which files stay as they are, line by line. */
module IniUnchanged {
  import opened Text
  import opened IniParser
  import opened IniEntry
  import opened IniMap
  import opened IniReader
  import opened IniGenerator
  import opened IniMeaning
  import opened IniWriter
  import opened IniRewrite
  import opened IniLazy
  import opened IniLazyExact

  /** Every entry line holds the value that its key has in the end, so no key is repeated with
      another value. */
  predicate Settled(o: State, lines: seq<string>, O: Meaning)
    decreases lines
  {
    lines == [] ||
    (var p := ParseLine(lines[0]);
     (p.KeyValue? && o.current.Some? && o.current.value in O && Normal(p.key) in O[o.current.value] ==>
        p.value == O[o.current.value][Normal(p.key)])
     && Settled(Effect(o, p), lines[1..], O))
  }

  /** Every line is one that the reader keeps. */
  predicate AllKept(lines: seq<string>) { forall i | 0 <= i < |lines| :: !ParseLine(lines[i]).Unknown? }

  /** The lines with every entry set to its final value. */
  function Updated(o: State, lines: seq<string>, O: Meaning, pretty: bool): seq<string>
    decreases lines
  {
    if lines == [] then []
    else
      var p := ParseLine(lines[0]);
      var line :=
        if p.KeyValue? && o.current.Some? && o.current.value in O && Normal(p.key) in O[o.current.value] then
          EntryOutput(lines[0], p.value, O[o.current.value][Normal(p.key)], pretty)
        else lines[0];
      [line] + Updated(Effect(o, p), lines[1..], O, pretty)
  }

  /** The state of a merge in which nothing is left out. */
  ghost predicate NothingLeftOut(O: Meaning, o: State, st: LazyState) {
    && !st.skipping && !st.discard
    && (o.current.Some? ==> st.section == o.current.value && o.current.value in O)
  }

  ghost predicate SameStructure(job: Job, O: Meaning) {
    JobOk(job) && Flat(job.data) == O && Flat(job.original) == O
  }

  lemma {:induction false} NoNewKeys(job: Job, O: Meaning, s: string)
    requires SameStructure(job, O)
    ensures NewKeyLines(job, s) == []
  {
    hide Normal, Find, View, WellFormed, AddedLines;
    SectionOfJob(job.data, s);
    SectionOfJob(job.original, s);
    if Has(job.data, s) && Has(job.original, s) {
      var entries, known := Get(job.data, s), Get(job.original, s);
      forall j | 0 <= j < |entries| ensures Has(known, entries[j].0) {
        ItemIsFound(entries, j);
        ViewHas(entries, entries[j].0);
        ViewHas(known, entries[j].0);
      }
      AllKnown(entries, known, job.pretty);
    }
  }

  lemma {:induction false} AllKnown(entries: Entries, known: Entries, pretty: bool)
    requires forall j | 0 <= j < |entries| :: Has(known, entries[j].0)
    ensures AddedLines(entries, known, pretty) == []
    decreases |entries|
  {
    hide Find;
    if entries != [] { AllKnown(entries[1..], known, pretty); }
  }

  lemma {:induction false} LineUpdated(job: Job, O: Meaning, o: State, st: LazyState, line: string)
    requires SameStructure(job, O) && NothingLeftOut(O, o, st)
    requires !ParseLine(line).Unknown? && (ParseLine(line).KeyValue? ==> o.current.Some?)
    requires Within(Effect(o, ParseLine(line)), O) && (o.current.Some? ==> o.current.value in o.sections)
    ensures var next := LazyLine(job, st, line);
      next.output == st.output + Updated(o, [line], O, job.pretty)
        && NothingLeftOut(O, Effect(o, ParseLine(line)), next)
  {
    hide ParseLine, Normal, Find, View, NewKeyLines, RewriteLine, StructureOk, Flat;
    var p := ParseLine(line);
    assert [line][1..] == [];
    if p.Section? {
      NoNewKeys(job, O, st.section);
      assert st.output[..st.keyEnd] + [] + st.output[st.keyEnd..] == st.output;
      FlatHas(job.data, Normal(p.name));
    } else if p.KeyValue? {
      var key := Normal(p.key);
      SectionOfJob(job.data, st.section);
      ViewHas(Get(job.data, st.section), key);
      assert key in Effect(o, p).sections[st.section];
    }
  }

  lemma {:induction false} LinesUpdated(job: Job, O: Meaning, o: State, st: LazyState, lines: seq<string>)
    requires SameStructure(job, O) && NothingLeftOut(O, o, st)
    requires AllKept(lines) && EntriesInSections(lines, o.current.Some?)
      && (o.current.Some? ==> o.current.value in o.sections)
    requires Effects(o, lines).sections == O
    ensures LazyLines(job, st, lines).output == st.output + Updated(o, lines, O, job.pretty)
    decreases |lines|
  {
    hide ParseLine, Normal, NothingLeftOut, SameStructure, LazyLine, Updated;
    UpdatedFirst(o, lines, O, job.pretty);
    if lines == [] {
      assert st.output + [] == st.output;
    } else {
      var next := Effect(o, ParseLine(lines[0]));
      EffectsGrow(next, lines[1..]);
      LineUpdated(job, O, o, st, lines[0]);
      CurrentAfter(o, ParseLine(lines[0]));
      LinesUpdated(job, O, next, LazyLine(job, st, lines[0]), lines[1..]);
      Regroup(st.output, Updated(o, [lines[0]], O, job.pretty), Updated(next, lines[1..], O, job.pretty));
    }
  }

  lemma UpdatedFirst(o: State, lines: seq<string>, O: Meaning, pretty: bool)
    ensures Updated(o, [], O, pretty) == []
    ensures lines != [] ==>
      Updated(o, lines, O, pretty) ==
      Updated(o, [lines[0]], O, pretty) + Updated(Effect(o, ParseLine(lines[0])), lines[1..], O, pretty)
  {
    hide ParseLine, Normal, Effect, EntryOutput;
    if lines != [] { assert [lines[0]][1..] == []; }
  }

  lemma {:induction false} NothingAppended(job: Job, output: seq<string>, sections: Structure)
    requires forall i | 0 <= i < |sections| :: Has(job.original, sections[i].0)
    ensures AppendSections(job, output, sections) == output
    decreases |sections|
  {
    hide Find, Block, Gap;
    if sections != [] { NothingAppended(job, output, sections[1..]); }
  }

  /** Writing back the structure that was read only brings repeated keys to their last value. */
  lemma {:induction false} RewriteOfUnchanged(job: Job, lines: seq<string>)
    requires SameStructure(job, MeaningOf(lines)) && AllKept(lines) && EntriesInSections(lines, false)
    ensures LazyOutput(job, lines) == Updated(NOWHERE, lines, MeaningOf(lines), job.pretty)
  {
    hide ParseLine, Normal, Find, Flat, LazyLines, NewKeyLines, Updated, Effects;
    var O := MeaningOf(lines);
    if lines != [] {
      LinesUpdated(job, O, NOWHERE, START, lines);
      var last := LazyLines(job, START, lines);
      NoNewKeys(job, O, last.section);
      assert last.output[..last.keyEnd] + [] + last.output[last.keyEnd..] == last.output;
      assert [] + Updated(NOWHERE, lines, O, job.pretty) == Updated(NOWHERE, lines, O, job.pretty);
    } else {
      UpdatedNothing(O, job.pretty);
    }
    forall i | 0 <= i < |job.data| ensures Has(job.original, job.data[i].0) {
      ItemIsFound(job.data, i);
      FlatHas(job.data, job.data[i].0);
      FlatHas(job.original, job.data[i].0);
    }
    NothingAppended(job, MergedLines(job, lines), job.data);
  }

  lemma UpdatedNothing(O: Meaning, pretty: bool)
    ensures Updated(NOWHERE, [], O, pretty) == []
  {
  }

  /** No entry line has a value that starts with an escaped '='. */
  predicate NoEscapedValues(lines: seq<string>) {
    forall i | 0 <= i < |lines| && ParseLine(lines[i]).KeyValue? :: !("\\=" <= ParseLine(lines[i]).value)
  }

  /** The line keeps its text when its key gets a value: it has that value, or its own value starts with an
      escaped '=', which the search for the value skips, and what stands behind that is the new value. */
  predicate StaysAs(line: string, value: string)
    requires ParseLine(line).KeyValue?
  {
    ParseLine(line).value == value || ("\\=" <= ParseLine(line).value && ReplacedPart(line) == value)
  }

  /** Every entry line keeps its text when its key gets its final value. */
  predicate Stays(o: State, lines: seq<string>, O: Meaning)
    decreases lines
  {
    lines == [] ||
    (var p := ParseLine(lines[0]);
     (p.KeyValue? && o.current.Some? && o.current.value in O && Normal(p.key) in O[o.current.value] ==>
        StaysAs(lines[0], O[o.current.value][Normal(p.key)]))
     && Stays(Effect(o, p), lines[1..], O))
  }

  lemma {:induction false} UpdatedIsSame(o: State, lines: seq<string>, O: Meaning, pretty: bool)
    requires AllReadable(O)
    ensures Updated(o, lines, O, pretty) == lines <==> Stays(o, lines, O)
    decreases |lines|
  {
    hide ParseLine, Normal, Effect, Trim, EntryOutput, Readable, NameOk, IsTrimmed, StaysAs;
    if lines != [] {
      var p := ParseLine(lines[0]);
      UpdatedIsSame(Effect(o, p), lines[1..], O, pretty);
      var u := Updated(o, lines, O, pretty);
      assert lines == [lines[0]] + lines[1..];
      assert u[1..] == Updated(Effect(o, p), lines[1..], O, pretty);
      if p.KeyValue? && o.current.Some? && o.current.value in O && Normal(p.key) in O[o.current.value] {
        EntryStays(lines[0], O[o.current.value][Normal(p.key)], pretty);
      }
      if u == lines { assert u[1..] == lines[1..]; }
    }
  }

  lemma EntryStays(line: string, value: string, pretty: bool)
    requires ParseLine(line).KeyValue? && Readable(Normal(ParseLine(line).key), value) && IsTrimmed(value)
    ensures EntryOutput(line, ParseLine(line).value, value, pretty) == line <==> StaysAs(line, value)
  {
    hide ParseLine, Normal, IsTrimmed, EntryOutput, ReplacedPart;
    ParsedIsReadable(line);
    ReadableAlike(ParseLine(line).key, value);
    ReplacedSame(line, value, pretty);
  }

  /** Writing back what was read leaves every line as it is exactly when every entry line keeps its text. */
  lemma {:induction false} UnchangedFile(job: Job, lines: seq<string>)
    requires SameStructure(job, MeaningOf(lines)) && AllKept(lines) && EntriesInSections(lines, false)
    ensures LazyOutput(job, lines) == lines <==> Stays(NOWHERE, lines, MeaningOf(lines))
  {
    hide ParseLine, Flat, LazyOutput, Updated, Stays, Effects;
    RewriteOfUnchanged(job, lines);
    EffectsReadable(NOWHERE, lines);
    UpdatedIsSame(NOWHERE, lines, MeaningOf(lines), job.pretty);
  }

  /** A repeated key with one value keeps its lines, and without escaped '=' in front of values only that does. */
  lemma {:induction false} SettledStays(o: State, lines: seq<string>, O: Meaning)
    ensures Settled(o, lines, O) ==> Stays(o, lines, O)
    ensures NoEscapedValues(lines) && Stays(o, lines, O) ==> Settled(o, lines, O)
    decreases |lines|
  {
    hide ParseLine, Normal, Effect, ReplacedPart;
    if lines != [] { SettledStays(Effect(o, ParseLine(lines[0])), lines[1..], O); }
  }

  // ---- files without repeated keys ----

  /** No section gives a key a second time. */
  predicate NoRepeats(o: State, lines: seq<string>)
    decreases lines
  {
    lines == [] ||
    (var p := ParseLine(lines[0]);
     (p.KeyValue? && o.current.Some? && o.current.value in o.sections ==> Normal(p.key) !in o.sections[o.current.value])
     && NoRepeats(Effect(o, p), lines[1..]))
  }

  lemma {:induction false} ValueKept(m: State, lines: seq<string>, s: string, k: string)
    requires NoRepeats(m, lines) && s in m.sections && k in m.sections[s]
    ensures var W := Effects(m, lines).sections; s in W && k in W[s] && W[s][k] == m.sections[s][k]
    decreases |lines|
  {
    hide ParseLine, Normal;
    if lines != [] { ValueKept(Effect(m, ParseLine(lines[0])), lines[1..], s, k); }
  }

  lemma {:induction false} NoRepeatsSettled(o: State, lines: seq<string>)
    requires NoRepeats(o, lines) && (o.current.Some? ==> o.current.value in o.sections)
    ensures Settled(o, lines, Effects(o, lines).sections)
    decreases |lines|
  {
    hide ParseLine, Normal;
    if lines != [] {
      var p := ParseLine(lines[0]);
      var next := Effect(o, p);
      NoRepeatsSettled(next, lines[1..]);
      if p.KeyValue? && o.current.Some? { ValueKept(next, lines[1..], o.current.value, Normal(p.key)); }
    }
  }

  /** Writing back lines that are all kept and repeat no key leaves them as they are. */
  lemma {:induction false} UnrepeatedFile(job: Job, lines: seq<string>)
    requires SameStructure(job, MeaningOf(lines)) && AllKept(lines) && EntriesInSections(lines, false)
    requires NoRepeats(NOWHERE, lines)
    ensures LazyOutput(job, lines) == lines
  {
    hide ParseLine, Flat, LazyOutput, Settled, Stays, Effects, NoRepeats;
    NoRepeatsSettled(NOWHERE, lines);
    SettledStays(NOWHERE, lines, MeaningOf(lines));
    UnchangedFile(job, lines);
  }

  /** For example the second line of a section with a=1 and a=2 is written back as a=2. */
  lemma RepeatedKeyIsChanged(pretty: bool)
    ensures var lines := [SectionLine("s"), EntryLine("a", "1", false), EntryLine("a", "2", false)];
      LazyOutput(Job(Read(lines), Read(lines), pretty), lines) != lines
  {
    hide ParseLine, SectionLine, EntryLine, LazyOutput, Read, Normal, Flat, Effects, Stays, Settled, NoEscapedValues;
    var lines := [SectionLine("s"), EntryLine("a", "1", false), EntryLine("a", "2", false)];
    var job := Job(Read(lines), Read(lines), pretty);
    RepeatedLines(lines);
    MeaningIsRead(lines);
    UnchangedFile(job, lines);
    SettledStays(NOWHERE, lines, MeaningOf(lines));
  }

  lemma RepeatedLines(lines: seq<string>)
    requires lines == [SectionLine("s"), EntryLine("a", "1", false), EntryLine("a", "2", false)]
    ensures AllKept(lines) && EntriesInSections(lines, false) && NoEscapedValues(lines)
    ensures !Settled(NOWHERE, lines, MeaningOf(lines))
  {
    hide ParseLine, SectionLine, EntryLine, Normal;
    TrimOfTrimmed("1");
    TrimOfTrimmed("2");
    SectionRoundTrip("s");
    EntryRoundTrip("a", "1", false);
    EntryRoundTrip("a", "2", false);
    NormalOfPlain("s");
    NormalOfPlain("a");
    var head := State(map["s" := map[]], Some("s"));
    var one := State(map["s" := map["a" := "1"]], Some("s"));
    var two := State(map["s" := map["a" := "2"]], Some("s"));
    assert map["a" := "1"]["a" := "2"] == map["a" := "2"];
    assert Effect(NOWHERE, Section("s")) == head;
    assert Effect(head, KeyValue("a", "1")) == one;
    assert Effect(one, KeyValue("a", "2")) == two;
    ThreeLines(lines[0], lines[1], lines[2], head, one, two);
  }

  /** A header and two entries of one key, by what they are read as. */
  lemma ThreeLines(a: string, b: string, c: string, head: State, one: State, two: State)
    requires ParseLine(a).Section? && ParseLine(b).KeyValue? && ParseLine(c).KeyValue?
    requires Effect(NOWHERE, ParseLine(a)) == head && head.current.Some?
    requires Effect(head, ParseLine(b)) == one && Effect(one, ParseLine(c)) == two
    requires head.current.value in two.sections && Normal(ParseLine(b).key) in two.sections[head.current.value]
    requires ParseLine(b).value != two.sections[head.current.value][Normal(ParseLine(b).key)]
    requires !("\\=" <= ParseLine(b).value) && !("\\=" <= ParseLine(c).value)
    ensures var lines := [a, b, c];
      && AllKept(lines) && EntriesInSections(lines, false) && NoEscapedValues(lines)
      && !Settled(NOWHERE, lines, MeaningOf(lines))
  {
    hide ParseLine, Normal, Effect;
    var lines := [a, b, c];
    assert lines[1..] == [b, c] && [b, c][1..] == [c] && [c][1..] == [];
    assert EntriesInSections([c], true) && EntriesInSections([b, c], true);
    assert Effects(one, [c]) == two && Effects(head, [b, c]) == two && MeaningOf(lines) == two.sections;
    assert !Settled(head, [b, c], two.sections);
  }
}
