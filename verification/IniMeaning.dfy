/** What a list of lines means: a map from section names to maps from keys to
    values. This is the reading of IniReader without the order. */
module IniMeaning {
  import opened Text
  import opened IniParser
  import opened IniMap
  import opened IniReader

  type Meaning = map<string, map<string, string>>

  function Flat(s: Structure): Meaning { map k | k in Keys(s) :: View(Get(s, k)) }

  datatype State = State(sections: Meaning, current: Option<string>)

  const NOWHERE := State(map[], None)

  /** The effect of one parsed line. */
  function Effect(m: State, p: Parsed): State {
    match p
    case Section(name) =>
      var s := Normal(name);
      State(if s in m.sections then m.sections else m.sections[s := map[]], Some(s))
    case KeyValue(key, value) =>
      if m.current.Some? && m.current.value in m.sections then
        m.(sections := m.sections[m.current.value := m.sections[m.current.value][Normal(key) := value]])
      else m
    case _ => m
  }

  function Effects(m: State, lines: seq<string>): State
    decreases lines
  {
    if lines == [] then m else Effects(Effect(m, ParseLine(lines[0])), lines[1..])
  }

  function MeaningOf(lines: seq<string>): Meaning { Effects(NOWHERE, lines).sections }

  // ---- agreement with the reader ----

  lemma {:induction false} FlatHas(s: Structure, name: string)
    ensures name in Flat(s) <==> Has(s, name)
    ensures Has(s, name) ==> Flat(s)[name] == View(Get(s, name))
  {
    HasIsKey(s, name);
  }

  lemma {:induction false} ViewHas<T>(m: Items<T>, key: string)
    ensures key in View(m) <==> Has(m, key)
    ensures Has(m, key) ==> View(m)[key] == Get(m, key)
  {
    HasIsKey(m, key);
  }

  lemma {:induction false} FlatPut(s: Structure, name: string, entries: Entries)
    ensures Flat(Put(s, name, entries)) == Flat(s)[name := View(entries)]
  {
    hide View, Find;
    var n := Put(s, name, entries);
    PutView(s, name, entries);
    ViewOfPut(s, name, entries);
    forall k ensures k in Flat(n) <==> k in Flat(s) || k == name
             ensures k in Flat(n) ==> Flat(n)[k] == if k == name then View(entries) else Flat(s)[k] {
      FlatHas(n, k);
      FlatHas(s, k);
      ViewHas(n, k);
      ViewHas(s, k);
    }
  }

  lemma {:induction false} ViewOfPut<T>(m: Items<T>, key: string, value: T)
    ensures forall k :: Has(Put(m, key, value), k) <==> Has(m, k) || k == key
    ensures forall k | Has(Put(m, key, value), k) :: Get(Put(m, key, value), k) == if k == key then value else Get(m, k)
  {
    hide Find;
    PutView(m, key, value);
    forall k ensures Has(Put(m, key, value), k) <==> Has(m, k) || k == key
             ensures Has(Put(m, key, value), k) ==>
               Get(Put(m, key, value), k) == if k == key then value else Get(m, k) {
      ViewHas(m, k);
      ViewHas(Put(m, key, value), k);
    }
  }

  ghost predicate SameState(r: Reading, m: State) {
    m == State(Flat(r.sections), r.current)
  }

  lemma {:induction false} EffectOfLine(r: Reading, line: string)
    requires ReadingOk(r)
    ensures SameState(ReadLine(r, line), Effect(State(Flat(r.sections), r.current), ParseLine(line)))
  {
    hide ParseLine, Normal, Find;
    match ParseLine(line)
    case Section(name) =>
      FlatHas(r.sections, Normal(name));
      TouchIsPut(r.sections, Normal(name));
      if !Has(r.sections, Normal(name)) {
        FlatPut(r.sections, Normal(name), []);
        assert View<string>([]) == map[];
      }
    case KeyValue(key, value) =>
      if r.current.Some? {
        FlatHas(r.sections, r.current.value);
        var entries := Get(r.sections, r.current.value);
        PutView(entries, Normal(key), value);
        FlatPut(r.sections, r.current.value, Put(entries, Normal(key), value));
      }
    case _ =>
  }

  lemma {:induction false} TouchIsPut(s: Structure, name: string)
    ensures !Has(s, name) ==> Touch(s, name, []) == Put(s, name, [])
  {
  }

  lemma {:induction false} EffectsOfLines(r: Reading, lines: seq<string>)
    requires ReadingOk(r)
    ensures SameState(ReadLines(r, lines), Effects(State(Flat(r.sections), r.current), lines))
    decreases |lines|
  {
    hide ParseLine, Effect, ReadingOk;
    if lines != [] {
      EffectOfLine(r, lines[0]);
      ReadLineOk(r, lines[0]);
      EffectsOfLines(ReadLine(r, lines[0]), lines[1..]);
    }
  }

  /** The structure that is read, without its order, is the meaning of the lines. */
  lemma {:induction false} MeaningIsRead(lines: seq<string>)
    ensures StructureOk(Read(lines))
    ensures Flat(Read(lines)) == MeaningOf(lines)
  {
    hide ParseLine, ReadLines, Effects;
    assert Flat([]) == map[];
    EffectsOfLines(NOTHING_READ, lines);
    ReadLinesOk(NOTHING_READ, lines);
  }

  // ---- composition ----

  lemma {:induction false} EffectsSplit(m: State, a: seq<string>, b: seq<string>)
    ensures Effects(m, a + b) == Effects(Effects(m, a), b)
    decreases |a|
  {
    hide ParseLine, Effect;
    if a == [] {
      assert a + b == b;
    } else {
      assert (a + b)[1..] == a[1..] + b;
      EffectsSplit(Effect(m, ParseLine(a[0])), a[1..], b);
    }
  }

  lemma {:induction false} EffectsOne(m: State, a: seq<string>, line: string)
    ensures Effects(m, a + [line]) == Effect(Effects(m, a), ParseLine(line))
  {
    hide ParseLine, Effect;
    EffectsSplit(m, a, [line]);
    assert [line][1..] == [];
  }

  /** Empty lines, comments and unknown lines mean nothing. */
  predicate Inert(line: string) {
    var p := ParseLine(line);
    !p.Section? && !p.KeyValue?
  }

  predicate AllInert(lines: seq<string>) { forall i | 0 <= i < |lines| :: Inert(lines[i]) }

  lemma {:induction false} InertMeansNothing(m: State, lines: seq<string>)
    requires AllInert(lines)
    ensures Effects(m, lines) == m
    decreases |lines|
  {
    hide ParseLine;
    if lines != [] {
      assert Inert(lines[0]);
      InertMeansNothing(m, lines[1..]);
    }
  }

  // ---- growth ----

  predicate Grows(m: State, n: State) {
    && m.sections.Keys <= n.sections.Keys
    && forall s | s in m.sections :: m.sections[s].Keys <= n.sections[s].Keys
  }

  lemma {:induction false} EffectsGrow(m: State, lines: seq<string>)
    ensures Grows(m, Effects(m, lines))
    decreases |lines|
  {
    hide ParseLine, Normal;
    if lines != [] {
      EffectsGrow(Effect(m, ParseLine(lines[0])), lines[1..]);
    }
  }
}
