/** The order of sections in a file after a lazy write: the old ones that are left, as they stood,
    and then the new ones. */
module IniOrder {
  import opened Text
  import opened IniParser
  import opened IniEntry
  import opened IniMap
  import opened IniReader
  import opened IniGenerator
  import opened IniMeaning
  import opened IniWriter
  import opened IniLazy

  // ---- names in order ----

  function Names<T>(m: Items<T>): (r: seq<string>)
    ensures |r| == |m| && forall i | 0 <= i < |m| :: r[i] == m[i].0
  {
    seq(|m|, i requires 0 <= i < |m| => m[i].0)
  }

  /** The names with those of some more that are not there yet. */
  function AddNew(names: seq<string>, more: seq<string>): seq<string>
    decreases more
  {
    if more == [] then names else AddNew(if more[0] in names then names else names + [more[0]], more[1..])
  }

  /** The names that a list has, or that it has not. */
  function Chosen<T>(names: seq<string>, m: Items<T>, inside: bool): seq<string> {
    if names == [] then []
    else (if Has(m, names[0]) == inside then [names[0]] else []) + Chosen(names[1..], m, inside)
  }

  lemma {:induction false} ChosenSplit<T>(a: seq<string>, b: seq<string>, m: Items<T>, inside: bool)
    ensures Chosen(a + b, m, inside) == Chosen(a, m, inside) + Chosen(b, m, inside)
    decreases |a|
  {
    hide Find;
    if a == [] {
      assert a + b == b;
    } else {
      assert (a + b)[1..] == a[1..] + b;
      ChosenSplit(a[1..], b, m, inside);
    }
  }

  lemma {:induction false} ChosenOne<T>(names: seq<string>, name: string, m: Items<T>, inside: bool)
    ensures Chosen(names + [name], m, inside) == Chosen(names, m, inside) + if Has(m, name) == inside then [name]
      else []
  {
    ChosenSplit(names, [name], m, inside);
    assert [name][1..] == [];
  }

  lemma {:induction false} ChosenHas<T>(names: seq<string>, m: Items<T>, inside: bool, name: string)
    ensures name in Chosen(names, m, inside) <==> name in names && Has(m, name) == inside
  {
    hide Find;
    if names != [] {
      ChosenHas(names[1..], m, inside, name);
      assert name in names <==> name == names[0] || name in names[1..];
    }
  }

  /** Leaving names out before or after others are added makes no difference. */
  lemma {:induction false} AddNewChosen<T>(names: seq<string>, more: seq<string>, m: Items<T>, inside: bool)
    ensures AddNew(Chosen(names, m, inside), Chosen(more, m, inside)) == Chosen(AddNew(names, more), m, inside)
    decreases |more|
  {
    hide Find;
    if more != [] {
      var name, rest := more[0], Chosen(more[1..], m, inside);
      ChosenOne(names, name, m, inside);
      ChosenHas(names, m, inside, name);
      AddNewChosen(if name in names then names else names + [name], more[1..], m, inside);
      assert [] + rest == rest && ([name] + rest)[1..] == rest
        && Chosen(names, m, inside) + [] == Chosen(names, m, inside);
    }
  }

  lemma {:induction false} AddNewSplit(names: seq<string>, a: seq<string>, b: seq<string>)
    ensures AddNew(names, a + b) == AddNew(AddNew(names, a), b)
    decreases |a|
  {
    if a == [] {
      assert a + b == b;
    } else {
      assert (a + b)[1..] == a[1..] + b;
      AddNewSplit(if a[0] in names then names else names + [a[0]], a[1..], b);
    }
  }

  /** Names that are new and differ go to the end as they are. */
  lemma {:induction false} AddNewFresh(names: seq<string>, more: seq<string>)
    requires forall i | 0 <= i < |more| :: more[i] !in names
    requires forall i, j | 0 <= i < j < |more| :: more[i] != more[j]
    ensures AddNew(names, more) == names + more
    decreases |more|
  {
    if more == [] {
      assert names + more == names;
    } else {
      var rest := more[1..];
      forall i | 0 <= i < |rest| ensures rest[i] !in names + [more[0]] { assert rest[i] == more[i + 1]; }
      AddNewFresh(names + [more[0]], rest);
      assert names + more == names + [more[0]] + rest;
    }
  }

  // ---- the headers of a file ----

  function HeaderNames(line: string): seq<string> {
    if ParseLine(line).Section? then [Normal(ParseLine(line).name)] else []
  }

  function Headers(lines: seq<string>): seq<string>
    decreases lines
  {
    if lines == [] then [] else HeaderNames(lines[0]) + Headers(lines[1..])
  }

  lemma {:induction false} HeadersSplit(a: seq<string>, b: seq<string>)
    ensures Headers(a + b) == Headers(a) + Headers(b)
    decreases |a|
  {
    hide HeaderNames;
    if a == [] {
      assert a + b == b;
    } else {
      assert (a + b)[1..] == a[1..] + b;
      HeadersSplit(a[1..], b);
    }
  }

  lemma {:induction false} HeadersOne(lines: seq<string>, line: string)
    ensures Headers(lines + [line]) == Headers(lines) + HeaderNames(line)
  {
    hide HeaderNames;
    HeadersSplit(lines, [line]);
    assert [line][1..] == [] && HeaderNames(line) + [] == HeaderNames(line);
  }

  /** The sections of a structure that is read stand in the order of their first headers. */
  lemma {:induction false} ReadNames(r: Reading, lines: seq<string>)
    requires r.current.Some? ==> Has(r.sections, r.current.value)
    ensures Names(ReadLines(r, lines).sections) == AddNew(Names(r.sections), Headers(lines))
    decreases |lines|
  {
    hide ParseLine, Normal, AddNew;
    if lines == [] {
      NothingNew(Names(r.sections));
    } else {
      ReadLineNames(r, lines[0]);
      ReadNames(ReadLine(r, lines[0]), lines[1..]);
      AddNewSplit(Names(r.sections), HeaderNames(lines[0]), Headers(lines[1..]));
    }
  }

  lemma NothingNew(names: seq<string>)
    ensures AddNew(names, []) == names
  {
  }

  lemma {:induction false} ReadLineNames(r: Reading, line: string)
    requires r.current.Some? ==> Has(r.sections, r.current.value)
    ensures var n := ReadLine(r, line);
      && Names(n.sections) == AddNew(Names(r.sections), HeaderNames(line))
      && (n.current.Some? ==> Has(n.sections, n.current.value))
  {
    hide ParseLine, Normal, Find, AddNew;
    NothingNew(Names(r.sections));
    var p := ParseLine(line);
    if p.Section? {
      PutNames(r.sections, Normal(p.name), []);
      TouchHas(r.sections, Normal(p.name));
    } else if p.KeyValue? && r.current.Some? {
      var entries := Put(Lookup(r.sections, r.current.value, []), Normal(p.key), p.value);
      PutNames(r.sections, r.current.value, entries);
      ViewOfPut(r.sections, r.current.value, entries);
    }
  }

  lemma TouchHas(m: Structure, name: string)
    ensures Has(Touch(m, name, []), name)
  {
    ViewOfPut(m, name, []);
  }

  lemma {:induction false} PutNames<T>(m: Items<T>, name: string, value: T)
    ensures Has(m, name) <==> name in Names(m)
    ensures Names(Put(m, name, value)) == if Has(m, name) then Names(m) else Names(m) + [name]
    ensures AddNew(Names(m), [name]) == if Has(m, name) then Names(m) else Names(m) + [name]
  {
    if Has(m, name) {
      assert Names(m)[Find(m, name)] == name;
    }
    assert forall i | 0 <= i < Find(m, name) :: Names(m)[i] != name;
    assert [name][1..] == [];
  }

  // ---- the headers of the merged file ----

  lemma {:induction false} AddedNoHeaders(entries: Entries, known: Entries, pretty: bool)
    requires AllNormal(entries) && AddedOk(entries, known, pretty)
    ensures Headers(AddedLines(entries, known, pretty)) == []
    decreases |entries|
  {
    hide ParseLine, EntryLine, EntryOk, Normal, Find, Trim;
    if entries != [] {
      var (key, value) := entries[0];
      var rest := AddedLines(entries[1..], known, pretty);
      AddedNoHeaders(entries[1..], known, pretty);
      if Has(known, key) {
        assert [] + rest == rest;
      } else {
        NormalShape(key);
        EntryRoundTrip(key, value, pretty);
        assert ([EntryLine(key, value, pretty)] + rest)[1..] == rest;
      }
    }
  }

  lemma {:induction false} FlushHeaders(job: Job, st: LazyState)
    requires JobOk(job) && Writable(Flat(job.data), Flat(job.original), job.pretty)
    ensures Headers(Flush(job, st).output) == Headers(st.output)
  {
    hide Headers, Find, Writable, Flat, AddedLines;
    var head, adds, tail := st.output[..st.keyEnd], NewKeyLines(job, st.section), st.output[st.keyEnd..];
    if Has(job.data, st.section) && Has(job.original, st.section) {
      NewKeysOk(job, st.section);
      AddedNoHeaders(Get(job.data, st.section), Get(job.original, st.section), job.pretty);
    } else {
      NoHeaders();
    }
    HeadersSplit(head + adds, tail);
    HeadersSplit(head, adds);
    HeadersSplit(head, tail);
    assert st.output == head + tail && Headers(head) + [] == Headers(head);
  }

  lemma NoHeaders()
    ensures Headers([]) == []
  {
  }

  /** A header is written when its section is in the data, and nothing else looks like one. */
  lemma {:induction false} LineHeaders(job: Job, st: LazyState, line: string)
    requires JobOk(job) && Writable(Flat(job.data), Flat(job.original), job.pretty)
    ensures Headers(LazyLine(job, st, line).output) == Headers(st.output) + Chosen(HeaderNames(line), job.data, true)
  {
    hide ParseLine, Headers, Flush, Find, Normal, RewriteLine, Writable, Flat, Trim, Readable;
    var next := LazyLine(job, st, line);
    assert Headers(st.output) + [] == Headers(st.output) && Chosen([], job.data, true) == [];
    if ParseLine(line).Section? {
      if st.parsing { FlushHeaders(job, st); }
      HeadersOne((if st.parsing then Flush(job, st) else st).output, line);
      var name := Normal(ParseLine(line).name);
      assert [name][1..] == [] && [name] + [] == [name];
    } else if ParseLine(line).KeyValue? {
      var key, value := Normal(ParseLine(line).key), ParseLine(line).value;
      if next.output != st.output {
        SectionOfJob(job.data, st.section);
        ViewHas(Get(job.data, st.section), key);
        var newValue := Get(Get(job.data, st.section), key);
        IniLazy.EntryIsReadable(Flat(job.data), Flat(job.original), st.section, line, job.pretty);
        EntryOutputBack(line, newValue, job.pretty);
        HeadersOne(st.output, EntryOutput(line, value, newValue, job.pretty));
      }
    } else if next.output != st.output {
      HeadersOne(st.output, line);
    }
  }

  lemma {:induction false} LinesHeaders(job: Job, st: LazyState, lines: seq<string>)
    requires JobOk(job) && Writable(Flat(job.data), Flat(job.original), job.pretty)
    ensures Headers(LazyLines(job, st, lines).output) == Headers(st.output) + Chosen(Headers(lines), job.data, true)
    decreases |lines|
  {
    hide HeaderNames, Find, LazyLine, Writable, Flat, JobOk, Chosen;
    if lines == [] {
      NothingChosen(job.data);
      assert Headers(st.output) + [] == Headers(st.output);
    } else {
      LineHeaders(job, st, lines[0]);
      LinesHeaders(job, LazyLine(job, st, lines[0]), lines[1..]);
      ChosenSplit(HeaderNames(lines[0]), Headers(lines[1..]), job.data, true);
      Regroup(Headers(st.output), Chosen(HeaderNames(lines[0]), job.data, true),
        Chosen(Headers(lines[1..]), job.data, true));
    }
  }

  lemma NothingChosen<T>(m: Items<T>)
    ensures Chosen([], m, true) == Chosen([], m, false) == []
  {
  }

  lemma {:induction false} BlockHeaders(name: string, entries: Entries, pretty: bool)
    requires Normal(name) == name && NameOk(name) && AllNormal(entries) && AddedOk(entries, [], pretty)
    ensures Headers(Block(name, entries, pretty)) == [name]
  {
    hide ParseLine, Normal, AddedOk, SectionLine, EntryLine;
    NormalShape(name);
    SectionRoundTrip(name);
    EntryLinesAreAdded(entries, pretty);
    AddedNoHeaders(entries, [], pretty);
    assert Block(name, entries, pretty)[1..] == EntryLines(entries, pretty);
  }

  lemma {:induction false} AppendHeaders(job: Job, output: seq<string>, sections: Structure)
    requires WellFormed(sections) && NewSectionsOk(sections, job.original, job.pretty)
    ensures Headers(AppendSections(job, output, sections)) ==
      Headers(output) + Chosen(Names(sections), job.original, false)
    decreases |sections|
  {
    hide ParseLine, Normal, WithSection, Headers, AddedOk, Find, NameOk, WellFormed, Chosen;
    if sections == [] {
      NothingChosen(job.original);
      Regroup(Headers(output), [], []);
    } else {
      var (name, entries) := sections[0];
      TailWellFormed(sections);
      FirstIsNormal(sections);
      SectionHeaders(job, output, name, entries);
      AppendHeaders(job, WithSection(job, output, name, entries), sections[1..]);
      assert Names(sections) == [name] + Names(sections[1..]);
      ChosenSplit([name], Names(sections[1..]), job.original, false);
      Regroup(Headers(output), Chosen([name], job.original, false), Chosen(Names(sections[1..]), job.original, false));
    }
  }

  lemma {:induction false} SectionHeaders(job: Job, output: seq<string>, name: string, entries: Entries)
    requires Normal(name) == name
    requires !Has(job.original, name) ==> NameOk(name) && AllNormal(entries) && AddedOk(entries, [], job.pretty)
    ensures Headers(WithSection(job, output, name, entries)) == Headers(output) + Chosen([name], job.original, false)
  {
    hide ParseLine, Normal, Block, Headers, AddedOk, Find, NameOk, Gap, Chosen;
    Regroup(Headers(output), [], []);
    NothingChosen(job.original);
    ChosenOne([], name, job.original, false);
    Regroup([name], [], []);
    if !Has(job.original, name) {
      BlockHeaders(name, entries, job.pretty);
      GapHeaders(output, Gap(output, job.pretty), Block(name, entries, job.pretty));
    }
  }

  lemma GapHeaders(output: seq<string>, gap: seq<string>, block: seq<string>)
    requires gap == [] || gap == [""]
    ensures Headers(output + gap + block) == Headers(output) + Headers(block)
  {
    hide ParseLine;
    EmptyIsNothing();
    HeadersSplit(output + gap, block);
    HeadersSplit(output, gap);
    assert [""][1..] == [] && Headers(output) + [] == Headers(output);
  }

  // ---- the order of the sections ----

  /** After a lazy write and a read the sections that the old file and the data have stand in the order of the old file,
      and the sections that are new follow in the order of the data. */
  lemma {:induction false} SectionsKeepOrder(job: Job, lines: seq<string>)
    requires JobOk(job) && Writable(Flat(job.data), Flat(job.original), job.pretty) && job.original == Read(lines)
    ensures Names(Read(LazyOutput(job, lines))) ==
      Chosen(Names(job.original), job.data, true) + Chosen(Names(job.data), job.original, false)
  {
    hide ParseLine, Flat, LazyLines, LazyLine, Headers, Writable, Flush, Find, AddNew, ReadLines, Chosen;
    var old_, new_ := Chosen(Names(job.original), job.data, true), Chosen(Names(job.data), job.original, false);
    MergedHeaders(job, lines);
    NewSectionsAreOk(job);
    AppendHeaders(job, MergedLines(job, lines), job.data);
    ReadNames(NOTHING_READ, LazyOutput(job, lines));
    ReadNames(NOTHING_READ, lines);
    assert Names(NOTHING_READ.sections) == [];
    NothingChosen(job.data);
    AddNewSplit([], Chosen(Headers(lines), job.data, true), new_);
    AddNewChosen([], Headers(lines), job.data, true);
    NewNamesDiffer(job);
    AddNewFresh(old_, new_);
  }

  lemma {:induction false} MergedHeaders(job: Job, lines: seq<string>)
    requires JobOk(job) && Writable(Flat(job.data), Flat(job.original), job.pretty)
    ensures Headers(MergedLines(job, lines)) == Chosen(Headers(lines), job.data, true)
  {
    hide Flat, LazyLines, Writable, Flush, Find, HeaderNames;
    if lines != [] {
      LinesHeaders(job, START, lines);
      FlushHeaders(job, LazyLines(job, START, lines));
      assert [] + Chosen(Headers(lines), job.data, true) == Chosen(Headers(lines), job.data, true);
    }
  }

  lemma {:induction false} NewNamesDiffer(job: Job)
    requires JobOk(job)
    ensures var old_, new_ := Chosen(Names(job.original), job.data, true), Chosen(Names(job.data), job.original, false);
      && (forall i | 0 <= i < |new_| :: new_[i] !in old_)
      && forall i, j | 0 <= i < j < |new_| :: new_[i] != new_[j]
  {
    hide Find, Normal;
    var old_, new_ := Chosen(Names(job.original), job.data, true), Chosen(Names(job.data), job.original, false);
    forall i | 0 <= i < |new_| ensures new_[i] !in old_ {
      ChosenHas(Names(job.data), job.original, false, new_[i]);
      ChosenHas(Names(job.original), job.data, true, new_[i]);
      PutNames(job.original, new_[i], []);
    }
    ChosenDiffer(Names(job.data), job.original, false);
  }

  lemma {:induction false} ChosenDiffer<T>(names: seq<string>, m: Items<T>, inside: bool)
    requires forall i, j | 0 <= i < j < |names| :: names[i] != names[j]
    ensures var r := Chosen(names, m, inside); forall i, j | 0 <= i < j < |r| :: r[i] != r[j]
  {
    hide Find;
    if names != [] {
      var rest := names[1..];
      forall i, j | 0 <= i < j < |rest| ensures rest[i] != rest[j] {
        assert rest[i] == names[i + 1] && rest[j] == names[j + 1];
      }
      ChosenDiffer(rest, m, inside);
      ChosenHas(rest, m, inside, names[0]);
      assert names[0] !in rest by { assert forall i | 0 <= i < |rest| :: rest[i] == names[i + 1]; }
    }
  }
}
