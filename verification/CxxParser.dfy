/** OptionParser: the loops of parse over its fields m_parsed, m_sequential,
    m_defaults and m_keys, and the books they keep. */
module CxxParser {
  import opened Results
  import opened CxxSpec

  datatype OptionValue = OptionValue(count: nat, isDefault: bool)

  datatype KeyValue = KeyValue(key: string, value: string)

  const NO_VALUE: OptionValue := OptionValue(0, false)

  function Stored(parsed: map<nat, OptionValue>, id: nat): OptionValue {
    if id in parsed then parsed[id] else NO_VALUE
  }

  /** m_sequential holds the entries of the log under their essential names. */
  predicate Mirrors(t: Table, sequential: seq<KeyValue>, entries: seq<Entry>) {
    && |sequential| == |entries|
    && forall i | 0 <= i < |entries| ::
      entries[i].id < |t.details|
        && sequential[i] == KeyValue(EssentialName(t.details[entries[i].id]), entries[i].value)
  }

  ghost predicate CountsMirror(t: Table, parsed: map<nat, OptionValue>, entries: seq<Entry>) {
    && (forall id | id in parsed :: id < |t.details|)
    && forall id | 0 <= id < |t.details| :: Stored(parsed, id).count == CountOf(entries, id)
  }

  /** One more of an option keeps counts and log in step. */
  lemma OneMoreLogged(t: Table, parsed: map<nat, OptionValue>, sequential: seq<KeyValue>, entries: seq<Entry>, id: nat,
    arg: string)
    requires Mirrors(t, sequential, entries) && CountsMirror(t, parsed, entries) && id < |t.details|
    ensures Mirrors(t, sequential + [KeyValue(EssentialName(t.details[id]), arg)], entries + [Entry(id, arg)])
    ensures var result := Stored(parsed, id);
      CountsMirror(t, parsed[id := result.(count := result.count + 1)], entries + [Entry(id, arg)])
  {
    hide CountOf, EssentialName;
    CountOfMore(entries, Entry(id, arg));
  }

  class OptionParser {
    const table: Table
    var m_parsed: map<nat, OptionValue>
    var m_sequential: seq<KeyValue>
    var m_defaults: seq<KeyValue>
    var m_keys: map<string, nat>
    ghost var entries: seq<Entry>

    /** The books: counts and log tell the same. */
    ghost predicate Books()
      reads this
    {
      && TableOk(table)
      && Mirrors(table, m_sequential, entries)
      && CountsMirror(table, m_parsed, entries)
    }

    constructor (t: Table)
      requires TableOk(t)
      ensures table == t && Books() && entries == [] && m_defaults == [] && m_parsed == map[] && m_keys == map[]
    {
      table := t;
      m_parsed, m_sequential, m_defaults, m_keys, entries := map[], [], [], map[], [];
    }

    /** parse_option and add_to_option: one more of an option, with its value. */
    method ParseOption(id: nat, arg: string) returns (r: Parsing<()>)
      requires Books() && id < |table.details|
      modifies this`m_parsed, this`m_sequential, this`entries
      ensures r == if table.details[id].accepts(arg) then Ok(()) else Error(IncorrectType)
      ensures r.Ok? ==> Books() && entries == old(entries) + [Entry(id, arg)]
      ensures forall j :: Stored(m_parsed, j).isDefault == Stored(old(m_parsed), j).isDefault
    {
      hide TableOk, Mirrors, CountsMirror, EssentialName;
      var result := Stored(m_parsed, id);
      OneMoreLogged(table, m_parsed, m_sequential, entries, id, arg);
      m_parsed := m_parsed[id := result.(count := result.count + 1)];
      if !table.details[id].accepts(arg) {
        return Error(IncorrectType);
      }
      m_sequential := m_sequential + [KeyValue(EssentialName(table.details[id]), arg)];
      entries := entries + [Entry(id, arg)];
      r := Ok(());
    }

    method CheckedParseArg(argv: seq<string>, current: nat, id: nat, ghost log: Log) returns (r: Parsing<nat>)
      requires Books() && id < |table.details| && log.entries == entries
      modifies this`m_parsed, this`m_sequential, this`entries
      ensures r.Error? <==> TakeArgument(table, log, id, argv, current).Error?
      ensures r.Error? ==> r.error == TakeArgument(table, log, id, argv, current).error
      ensures r.Ok? ==>
        Books() && TakeArgument(table, log, id, argv, current) == Ok((log.(entries := entries), r.value))
      ensures forall j :: Stored(m_parsed, j).isDefault == Stored(old(m_parsed), j).isDefault
    {
      hide TableOk, Mirrors, CountsMirror;
      var details := table.details[id];
      if current + 1 >= |argv| {
        if details.implicit.Some? {
          var _ :- ParseOption(id, details.implicit.value);
          r := Ok(current);
        } else {
          r := Error(MissingArgument);
        }
      } else {
        if details.implicit.Some? {
          var _ :- ParseOption(id, details.implicit.value);
          r := Ok(current);
        } else {
          var _ :- ParseOption(id, argv[current + 1]);
          r := Ok(current + 1);
        }
      }
    }

    /** consume_positional: whether the argument was taken, and the slot to start from next. */
    method ConsumePositional(a: string, start: nat, ghost unmatched: seq<string>) returns (r: Parsing<(bool, nat)>)
      requires Books()
      modifies this`m_parsed, this`m_sequential, this`entries
      ensures var spec := TakePositional(table, Log(old(entries), unmatched, start), a);
        if r.Error? then spec == Error(r.error)
        else Books() && spec == Ok((r.value.0, Log(entries, unmatched, r.value.1)))
      ensures forall j :: Stored(m_parsed, j).isDefault == Stored(old(m_parsed), j).isDefault
    {
      hide TableOk, Mirrors;
      var next := start;
      while next < |table.positional|
        invariant Books() && entries == old(entries) && m_parsed == old(m_parsed)
        invariant TakePositional(table, Log(entries, unmatched, next), a) ==
          TakePositional(table, Log(entries, unmatched, start), a)
        decreases |table.positional| - next
      {
        var name := table.positional[next];
        if name !in table.options {
          return Error(NoSuchOption);
        }
        var id := table.options[name];
        OptionOfName(table, name);
        if !table.details[id].isContainer {
          if Stored(m_parsed, id).count == 0 {
            var _ :- ParseOption(id, a);
            return Ok((true, next + 1));
          }
          next := next + 1;
        } else {
          var _ :- ParseOption(id, a);
          return Ok((true, next));
        }
      }
      r := Ok((false, next));
    }

    /** The loop over the letters of a group of short options. */
    method ParseGroup(s: string, argv: seq<string>, current: nat, unmatched: seq<string>, ghost next: nat)
      returns (r: Parsing<(nat, seq<string>)>)
      requires Books()
      modifies this`m_parsed, this`m_sequential, this`entries
      ensures var spec := TakeGroup(table, Log(old(entries), unmatched, next), s, 0, argv, current);
        if r.Error? then spec == Error(r.error) else Books() && spec == Ok((Log(entries, r.value.1, next), r.value.0))
      ensures forall j :: Stored(m_parsed, j).isDefault == Stored(old(m_parsed), j).isDefault
    {
      hide TableOk, Mirrors, CountsMirror;
      var left := unmatched;
      var i := 0;
      while i != |s|
        invariant 0 <= i <= |s| && Books()
        invariant TakeGroup(table, Log(entries, left, next), s, i, argv, current) ==
          TakeGroup(table, Log(old(entries), unmatched, next), s, 0, argv, current)
        invariant forall j :: Stored(m_parsed, j).isDefault == Stored(old(m_parsed), j).isDefault
        decreases |s| - i
      {
        var name := [s[i]];
        if name !in table.options {
          if table.allowUnrecognised {
            left := left + ["-" + name];
            i := i + 1;
            continue;
          }
          return Error(NoSuchOption);
        }
        var id := table.options[name];
        OptionOfName(table, name);
        if i + 1 == |s| {
          var after :- CheckedParseArg(argv, current, id, Log(entries, left, next));
          return Ok((after, left));
        } else if table.details[id].implicit.Some? {
          var _ :- ParseOption(id, table.details[id].implicit.value);
        } else {
          var _ :- ParseOption(id, s[i + 1..]);
          return Ok((current, left));
        }
        i := i + 1;
      }
      r := Ok((current, left));
    }

    /** The body of the loop over the arguments, for one that is not "--". */
    method ParseOne(argv: seq<string>, current: nat, unmatched: seq<string>, next: nat)
      returns (r: Parsing<(nat, seq<string>, nat)>)
      requires Books() && current < |argv|
      modifies this`m_parsed, this`m_sequential, this`entries
      ensures var spec := TakeOne(table, Log(old(entries), unmatched, next), argv, current);
        if r.Error? then spec == Error(r.error)
        else Books() && spec == Ok((Log(entries, r.value.1, r.value.2), r.value.0))
      ensures forall j :: Stored(m_parsed, j).isDefault == Stored(old(m_parsed), j).isDefault
    {
      hide TableOk, Mirrors, CountsMirror, ParseArgument, TakeGroup, TakePositional;
      var arg := argv[current];
      match ParseArgument(arg)
      case Unmatched =>
        if |arg| > 1 && arg[0] == '-' {
          if !table.allowUnrecognised {
            return Error(InvalidSyntax);
          }
        }
        var taken :- ConsumePositional(arg, next, unmatched);
        r := Ok((current, if taken.0 then unmatched else unmatched + [arg], taken.1));
      case Group(letters) =>
        var group :- ParseGroup(letters, argv, current, unmatched, next);
        r := Ok((group.0, group.1, next));
      case Long(name, setValue, value) =>
        if name !in table.options {
          if table.allowUnrecognised {
            return Ok((current, unmatched + [arg], next));
          }
          return Error(NoSuchOption);
        }
        var id := table.options[name];
        OptionOfName(table, name);
        if setValue {
          var _ :- ParseOption(id, value);
          r := Ok((current, unmatched, next));
        } else {
          var after :- CheckedParseArg(argv, current, id, Log(entries, unmatched, next));
          r := Ok((after, unmatched, next));
        }
    }

    /** parse_default: the option counts as not given. */
    method ParseDefault(id: nat) returns (r: Parsing<()>)
      requires Books() && id < |table.details| && table.details[id].default.Some?
      requires !Stored(m_parsed, id).isDefault && DefaultsLogged(table, m_parsed, m_defaults)
      modifies this`m_parsed, this`m_defaults
      ensures r == if table.details[id].accepts(table.details[id].default.value) then Ok(()) else Error(IncorrectType)
      ensures m_parsed == old(m_parsed)[id := Stored(old(m_parsed), id).(isDefault := true)]
      ensures r.Ok? ==> Books() && DefaultsLogged(table, m_parsed, m_defaults)
    {
      OneMoreDefault(table, m_parsed, m_defaults, id);
      m_parsed := m_parsed[id := Stored(m_parsed, id).(isDefault := true)];
      if !table.details[id].accepts(table.details[id].default.value) {
        return Error(IncorrectType);
      }
      m_defaults := m_defaults + [DefaultOf(table, id)];
      r := Ok(());
    }

    /** The loop over the names of the options, in any order. */
    method ApplyDefaults() returns (r: Parsing<()>)
      requires Books() && (forall id :: !Stored(m_parsed, id).isDefault) && m_defaults == []
      modifies this`m_parsed, this`m_defaults
      ensures r.Ok? <==> DefaultsOk(table, entries)
      ensures r.Error? ==> r.error == IncorrectType
      ensures r.Ok? ==> Books() && DefaultsAre(table, entries, m_defaults)
    {
      hide TableOk, Mirrors, CountsMirror, DefaultsLogged, Decided, DefaultsOk, DefaultsAre;
      NothingLogged(table, m_parsed);
      NothingDecided(table, m_parsed, entries);
      var todo := table.options.Keys;
      while todo != {}
        invariant todo <= table.options.Keys && Books() && DefaultsLogged(table, m_parsed, m_defaults)
        invariant Decided(table, m_parsed, entries, todo)
      {
        var name :| name in todo;
        ghost var was := todo;
        todo := todo - {name};
        var id := table.options[name];
        OptionOfName(table, name);
        ghost var before := m_parsed;
        m_parsed := m_parsed[id := Stored(m_parsed, id)];
        TouchKeepsLog(table, before, m_defaults, id);
        TouchKeepsBooks(table, before, entries, id);
        if table.details[id].default.Some? {
          if Stored(m_parsed, id).count == 0 && !Stored(m_parsed, id).isDefault {
            RefusedDefault(table, m_parsed, entries, id);
            var _ :- ParseDefault(id);
          }
        }
        OneMoreDecided(table, before, m_parsed, entries, was, name);
      }
      AllDecided(table, m_parsed, entries);
      MarkedFellBack(table, m_parsed, entries, m_defaults);
      r := Ok(());
    }

    /** What follows "--": the slots first, everything from the first refusal on is left over. */
    method ParseRest(argv: seq<string>, start: nat, unmatched: seq<string>, slot: nat) returns (r: Parsing<seq<string>>)
      requires Books() && start <= |argv|
      modifies this`m_parsed, this`m_sequential, this`entries
      ensures var spec := TakeRest(table, Log(old(entries), unmatched, slot), argv[start..]);
        if r.Error? then spec == Error(r.error)
        else Books() && spec.Ok? && spec.value.entries == entries && spec.value.unmatched == r.value
    {
      hide TableOk, Mirrors, CountsMirror, TakePositional;
      ghost var spec := TakeRest(table, Log(entries, unmatched, slot), argv[start..]);
      var current, next := start, slot;
      while current < |argv|
        invariant start <= current <= |argv| && Books()
        invariant TakeRest(table, Log(entries, unmatched, next), argv[current..]) == spec
      {
        assert argv[current..][1..] == argv[current + 1..];
        var taken :- ConsumePositional(argv[current], next, unmatched);
        next := taken.1;
        if !taken.0 {
          break;
        }
        current := current + 1;
      }
      if current == |argv| { assert argv[current..] == [] && unmatched + [] == unmatched; }
      assert spec == Ok(Log(entries, unmatched + argv[current..], next));
      var left := unmatched;
      ghost var refused := current;
      while current != |argv|
        invariant refused <= current <= |argv| && left == unmatched + argv[refused..current]
        decreases |argv| - current
      {
        left := left + [argv[current]];
        current := current + 1;
      }
      r := Ok(left);
    }

    /** finalise_aliases: every name of an option leads to it. The option in turn has a value. */
    method FinaliseAliases()
      requires Books() && m_keys == map[]
      modifies this`m_parsed, this`m_keys
      ensures Books() && KeysAgree(table, m_keys)
      ensures forall name | name in table.options :: name in m_keys
      ensures forall id | 0 <= id < |table.details| :: id in m_parsed
    {
      hide TableOk, Mirrors, CountsMirror, KeysAgree;
      NoKeysAgree(table);
      var todo := table.options.Keys;
      while todo != {}
        invariant todo <= table.options.Keys && Books() && KeysAgree(table, m_keys)
        invariant forall name | name in table.options && name !in todo ::
          name in m_keys && table.options[name] in m_parsed
      {
        var name :| name in todo;
        todo := todo - {name};
        OptionOfName(table, name);
        var id := table.options[name];
        EnterNames(id);
        if id !in m_parsed {
          EmplaceKeepsCounts(table, m_parsed, entries, id);
          m_parsed := m_parsed[id := NO_VALUE];
        }
      }
      forall id | 0 <= id < |table.details| ensures id in m_parsed { OptionHasName(table, id); }
    }

    method EnterNames(id: nat)
      requires TableOk(table) && id < |table.details| && KeysAgree(table, m_keys)
      modifies this`m_keys
      ensures KeysAgree(table, m_keys) && old(m_keys.Keys) <= m_keys.Keys
      ensures forall name | NameOf(table.details[id], name) :: name in m_keys
    {
      hide TableOk, KeysAgree;
      var detail := table.details[id];
      OneMoreKey(table, m_keys, id, detail.shortName);
      m_keys := m_keys[detail.shortName := id];
      var i := 0;
      while i < |detail.longNames|
        invariant 0 <= i <= |detail.longNames| && KeysAgree(table, m_keys)
        invariant old(m_keys.Keys) <= m_keys.Keys && detail.shortName in m_keys
        invariant forall k | 0 <= k < i :: detail.longNames[k] in m_keys
      {
        OneMoreKey(table, m_keys, id, detail.longNames[i]);
        m_keys := m_keys[detail.longNames[i] := id];
        i := i + 1;
      }
    }

    /** parse, of a parser that has not parsed yet. */
    method Parse(argv: seq<string>) returns (r: Parsing<ParseResult>)
      requires |argv| > 0 && Books() && entries == [] && m_parsed == map[] && m_defaults == [] && m_keys == map[]
      modifies this
      ensures var spec := ParseLog(table, argv);
        if r.Error? then spec == Error(r.error)
        else spec.Ok? && ResultOf(table, r.value, spec.value) && KeepsBooks(table, r.value)
      ensures r.Ok? ==> DefaultsAre(table, GivenFirst(table, argv).entries, r.value.defaults)
    {
      hide TableOk, Mirrors, CountsMirror, TakeOne, TakeRest, DefaultsAre, DefaultsOk, ResultOf, KeepsBooks;
      AllStays(table, NO_LOG, argv, 1);
      ghost var all := TakeAll(table, NO_LOG, argv, 1);
      var current := 1;
      var consume_remaining := false;
      var next_positional := 0;
      var unmatched := [];
      while current != |argv|
        invariant 1 <= current <= |argv| && Books() && !consume_remaining && m_defaults == [] && m_keys == map[]
        invariant forall id :: !Stored(m_parsed, id).isDefault
        invariant TakeAll(table, Log(entries, unmatched, next_positional), argv, current) == all
        decreases |argv| - current
      {
        if argv[current] == "--" {
          consume_remaining := true;
          current := current + 1;
          break;
        }
        TakeOneStays(table, Log(entries, unmatched, next_positional), argv, current);
        var one :- ParseOne(argv, current, unmatched, next_positional);
        current, unmatched, next_positional := one.0 + 1, one.1, one.2;
      }
      assert all == Ok((Log(entries, unmatched, next_positional), current));
      var _ :- ApplyDefaults();
      NothingRests(table, Log(entries, unmatched, next_positional));
      if consume_remaining {
        unmatched :- ParseRest(argv, current, unmatched, next_positional);
      } else {
        assert argv[current..] == [];
      }
      FinaliseAliases();
      var result := ParseResult(m_keys, m_parsed, m_sequential, m_defaults, unmatched);
      BooksOfResult(table, result, ParseLog(table, argv).value);
      r := Ok(result);
    }
  }

  /** The result: what is known of the options, by all their names. */
  datatype ParseResult = ParseResult(keys: map<string, nat>, parsed: map<nat, OptionValue>, sequential: seq<KeyValue>,
                                     defaults: seq<KeyValue>, unmatched: seq<string>) {
    function Count(name: string): nat {
      if name in keys then Stored(parsed, keys[name]).count else 0
    }
  }

  lemma NothingRests(t: Table, log: Log)
    requires TableOk(t)
    ensures TakeRest(t, log, []) == Ok(log)
  {
  }

  /** The log before the defaults are looked up. */
  ghost function GivenFirst(t: Table, argv: seq<string>): Log
    requires TableOk(t) && |argv| > 0
  {
    var r := TakeAll(t, NO_LOG, argv, 1);
    if r.Ok? then r.value.0 else NO_LOG
  }

  /** What the result tells about the log: its entries in order, the leftovers, and every count by every name. */
  ghost predicate ResultOf(t: Table, result: ParseResult, log: Log) {
    && Mirrors(t, result.sequential, log.entries)
    && result.unmatched == log.unmatched
    && (forall id, name | 0 <= id < |t.details| && NameOf(t.details[id], name) ::
          result.Count(name) == CountOf(log.entries, id))
    && (forall name | name != "" && name !in t.options :: result.Count(name) == 0)
  }

  // ---- counting ----

  /** How many of the pairs have a key. */
  function KeyCount(sequential: seq<KeyValue>, key: string): nat {
    if sequential == [] then 0
    else KeyCount(sequential[..|sequential| - 1], key) + if sequential[|sequential| - 1].key == key then 1 else 0
  }

  /** The counts of the first n options together. */
  function TotalCount(parsed: map<nat, OptionValue>, n: nat): nat {
    if n == 0 then 0 else TotalCount(parsed, n - 1) + Stored(parsed, n - 1).count
  }

  /** The counts add up to the length of the sequential log, and every name of an option counts
      the pairs under its essential name. */
  ghost predicate KeepsBooks(t: Table, result: ParseResult) {
    && TotalCount(result.parsed, |t.details|) == |result.sequential|
    && forall id, name | 0 <= id < |t.details| && NameOf(t.details[id], name) ::
      result.Count(name) == KeyCount(result.sequential, EssentialName(t.details[id]))
  }

  /** How many of the entries belong to the first n options. */
  function CountBelow(entries: seq<Entry>, n: nat): nat {
    if n == 0 then 0 else CountBelow(entries, n - 1) + CountOf(entries, n - 1)
  }

  lemma {:induction false} CountBelowMore(entries: seq<Entry>, n: nat)
    requires entries != []
    ensures CountBelow(entries, n) == CountBelow(entries[..|entries| - 1], n) + if entries[|entries| - 1].id < n then 1
      else 0
  {
    if n > 0 { CountBelowMore(entries, n - 1); }
  }

  lemma {:induction false} CountBelowNone(n: nat)
    ensures CountBelow([], n) == 0
  {
    if n > 0 { CountBelowNone(n - 1); }
  }

  /** Every entry is counted, once. */
  lemma {:induction false} SumOfCounts(entries: seq<Entry>, n: nat)
    requires forall e | e in entries :: e.id < n
    ensures CountBelow(entries, n) == |entries|
  {
    if entries == [] {
      CountBelowNone(n);
    } else {
      CountBelowMore(entries, n);
      assert entries[|entries| - 1] in entries;
      SumOfCounts(entries[..|entries| - 1], n);
    }
  }

  lemma {:induction false} TotalIsSum(t: Table, parsed: map<nat, OptionValue>, entries: seq<Entry>, n: nat)
    requires CountsMirror(t, parsed, entries) && n <= |t.details|
    ensures TotalCount(parsed, n) == CountBelow(entries, n)
  {
    if n > 0 { TotalIsSum(t, parsed, entries, n - 1); }
  }

  /** No two options share their essential name, so the pairs under it are those of one option. */
  lemma {:induction false} KeysCount(t: Table, sequential: seq<KeyValue>, entries: seq<Entry>, id: nat)
    requires TableOk(t) && id < |t.details| && Mirrors(t, sequential, entries)
    ensures KeyCount(sequential, EssentialName(t.details[id])) == CountOf(entries, id)
  {
    hide TableOk;
    if entries != [] {
      var n := |entries| - 1;
      assert Mirrors(t, sequential[..n], entries[..n]);
      KeysCount(t, sequential[..n], entries[..n], id);
      if entries[n].id != id { EssentialNamesDiffer(t, entries[n].id, id); }
    }
  }

  lemma CountByName(t: Table, result: ParseResult, entries: seq<Entry>, id: nat, name: string)
    requires TableOk(t) && CountsMirror(t, result.parsed, entries) && id < |t.details| && NameOf(t.details[id], name)
    requires KeysAgree(t, result.keys) && forall name | name in t.options :: name in result.keys
    ensures result.Count(name) == CountOf(entries, id)
  {
    hide EssentialName;
    assert name in t.options && t.options[name] == id && name != "";
  }

  lemma NoOtherName(t: Table, result: ParseResult, name: string)
    requires KeysAgree(t, result.keys) && name != "" && name !in t.options
    ensures result.Count(name) == 0
  {
  }

  lemma {:induction false} BooksOfResult(t: Table, result: ParseResult, log: Log)
    requires TableOk(t) && Mirrors(t, result.sequential, log.entries) && CountsMirror(t, result.parsed, log.entries)
    requires KeysAgree(t, result.keys) && forall name | name in t.options :: name in result.keys
    requires result.unmatched == log.unmatched
    ensures ResultOf(t, result, log)
    ensures KeepsBooks(t, result)
  {
    hide TableOk, CountsMirror, KeysAgree, NameOf, CountOf, KeyCount, TotalCount, ParseResult.Count;
    var entries := log.entries;
    SumOfCounts(entries, |t.details|);
    TotalIsSum(t, result.parsed, entries, |t.details|);
    forall id, name | 0 <= id < |t.details| && NameOf(t.details[id], name)
      ensures result.Count(name) == CountOf(entries, id) == KeyCount(result.sequential, EssentialName(t.details[id]))
    {
      CountByName(t, result, entries, id, name);
      KeysCount(t, result.sequential, entries, id);
    }
    forall name | name != "" && name !in t.options ensures result.Count(name) == 0 { NoOtherName(t, result, name); }
  }

  /** m_keys leads nowhere but where the table leads. */
  ghost predicate KeysAgree(t: Table, keys: map<string, nat>) {
    forall name | name in keys && name != "" :: name in t.options && keys[name] == t.options[name]
  }

  // ---- after the arguments ----

  /** Options that fell back to their default: those that have one and were not given. */
  predicate FallsBack(t: Table, entries: seq<Entry>, id: nat)
    requires id < |t.details|
  {
    t.details[id].default.Some? && CountOf(entries, id) == 0
  }

  function DefaultOf(t: Table, id: nat): KeyValue
    requires id < |t.details|
  {
    KeyValue(EssentialName(t.details[id]), if t.details[id].default.Some? then t.details[id].default.value else "")
  }

  /** m_defaults lists just the marked options, each of them once. */
  ghost predicate DefaultsLogged(t: Table, parsed: map<nat, OptionValue>, defaults: seq<KeyValue>) {
    && (forall id | 0 <= id < |t.details| && Stored(parsed, id).isDefault :: DefaultOf(t, id) in defaults)
    && (forall kv | kv in defaults ::
          exists id | 0 <= id < |t.details| :: Stored(parsed, id).isDefault && kv == DefaultOf(t, id))
    && (forall i, j | 0 <= i < j < |defaults| :: defaults[i] != defaults[j])
  }

  /** m_defaults lists just the options that fall back, each of them once. */
  ghost predicate DefaultsAre(t: Table, entries: seq<Entry>, defaults: seq<KeyValue>) {
    && (forall id | 0 <= id < |t.details| && FallsBack(t, entries, id) :: DefaultOf(t, id) in defaults)
    && (forall kv | kv in defaults ::
          exists id | 0 <= id < |t.details| :: FallsBack(t, entries, id) && kv == DefaultOf(t, id))
    && (forall i, j | 0 <= i < j < |defaults| :: defaults[i] != defaults[j])
  }

  /** The options whose names have all been visited are marked exactly when they fall back, and their defaults
      convert. */
  ghost predicate Decided(t: Table, parsed: map<nat, OptionValue>, entries: seq<Entry>, todo: set<string>) {
    forall id | 0 <= id < |t.details| ::
      if Stored(parsed, id).isDefault then FallsBack(t, entries, id)
        && t.details[id].accepts(t.details[id].default.value)
      else FallsBack(t, entries, id) ==> exists name :: name in todo && name in t.options && t.options[name] == id
  }

  lemma NothingDecided(t: Table, parsed: map<nat, OptionValue>, entries: seq<Entry>)
    requires TableOk(t) && forall id :: !Stored(parsed, id).isDefault
    ensures Decided(t, parsed, entries, t.options.Keys)
  {
    hide TableOk, CountOf, EssentialName;
    forall id | 0 <= id < |t.details|
      ensures FallsBack(t, entries, id) ==>
        exists name :: name in t.options.Keys && name in t.options && t.options[name] == id
    {
      OptionHasName(t, id);
      assert EssentialName(t.details[id]) in t.options;
    }
  }

  lemma TouchKeepsBooks(t: Table, parsed: map<nat, OptionValue>, entries: seq<Entry>, id: nat)
    requires CountsMirror(t, parsed, entries) && id < |t.details|
    ensures CountsMirror(t, parsed[id := Stored(parsed, id)], entries)
      && Stored(parsed, id).count == CountOf(entries, id)
  {
    hide CountOf;
  }

  lemma RefusedDefault(t: Table, parsed: map<nat, OptionValue>, entries: seq<Entry>, id: nat)
    requires CountsMirror(t, parsed, entries) && id < |t.details| && t.details[id].default.Some?
    requires Stored(parsed, id).count == 0
    ensures !t.details[id].accepts(t.details[id].default.value) ==> !DefaultsOk(t, entries)
  {
    hide CountOf;
  }

  /** The visit of one name decides its option. */
  lemma OneMoreDecided(t: Table, before: map<nat, OptionValue>, after: map<nat, OptionValue>, entries: seq<Entry>,
    todo: set<string>, name: string)
    requires Decided(t, before, entries, todo) && name in t.options && t.options[name] < |t.details|
    requires var id := t.options[name];
      var touched := before[id := Stored(before, id)];
      && (FallsBack(t, entries, id) && !Stored(before, id).isDefault ==>
            t.details[id].accepts(t.details[id].default.value))
      && after == if FallsBack(t, entries, id) && !Stored(before, id).isDefault
                  then touched[id := Stored(touched, id).(isDefault := true)] else touched
    ensures Decided(t, after, entries, todo - {name})
  {
    hide CountOf;
    var id := t.options[name];
    forall j | 0 <= j < |t.details| && j != id && FallsBack(t, entries, j) && !Stored(after, j).isDefault
      ensures exists other :: other in todo - {name} && other in t.options && t.options[other] == j
    {
      var other :| other in todo && other in t.options && t.options[other] == j;
    }
  }

  lemma AllDecided(t: Table, parsed: map<nat, OptionValue>, entries: seq<Entry>)
    requires Decided(t, parsed, entries, {})
    ensures DefaultsOk(t, entries) && forall id | 0 <= id < |t.details| ::
      Stored(parsed, id).isDefault <==> FallsBack(t, entries, id)
  {
    hide CountOf;
  }

  lemma MarkedFellBack(t: Table, parsed: map<nat, OptionValue>, entries: seq<Entry>, defaults: seq<KeyValue>)
    requires DefaultsLogged(t, parsed, defaults)
    requires forall id | 0 <= id < |t.details| :: Stored(parsed, id).isDefault <==> FallsBack(t, entries, id)
    ensures DefaultsAre(t, entries, defaults)
  {
    hide DefaultOf;
    forall kv | kv in defaults ensures exists id | 0 <= id < |t.details| ::
      FallsBack(t, entries, id) && kv == DefaultOf(t, id) {
      var id :| 0 <= id < |t.details| && Stored(parsed, id).isDefault && kv == DefaultOf(t, id);
      assert FallsBack(t, entries, id);
    }
  }

  lemma EssentialNamesDiffer(t: Table, id: nat, other: nat)
    requires TableOk(t) && id < |t.details| && other < |t.details| && id != other
    ensures EssentialName(t.details[id]) != EssentialName(t.details[other])
    ensures DefaultOf(t, id) != DefaultOf(t, other)
  {
    OptionHasName(t, id);
    OptionHasName(t, other);
  }

  lemma {:induction false} OneMoreDefault(t: Table, parsed: map<nat, OptionValue>, defaults: seq<KeyValue>, id: nat)
    requires TableOk(t) && id < |t.details| && DefaultsLogged(t, parsed, defaults) && !Stored(parsed, id).isDefault
    ensures DefaultsLogged(t, parsed[id := Stored(parsed, id).(isDefault := true)], defaults + [DefaultOf(t, id)])
  {
    hide TableOk, DefaultOf;
    var next := parsed[id := Stored(parsed, id).(isDefault := true)];
    forall other | 0 <= other < |t.details| && other != id ensures DefaultOf(t, id) != DefaultOf(t, other) {
      EssentialNamesDiffer(t, id, other);
    }
    forall j | 0 <= j < |t.details| && Stored(next, j).isDefault
      ensures DefaultOf(t, j) in defaults + [DefaultOf(t, id)]
    {
      assert j == id || Stored(parsed, j).isDefault;
    }
    forall i | 0 <= i < |defaults| ensures defaults[i] != DefaultOf(t, id) {
      var kv := defaults[i];
      assert kv in defaults;
      var j :| 0 <= j < |t.details| && Stored(parsed, j).isDefault && kv == DefaultOf(t, j);
    }
    forall kv | kv in defaults + [DefaultOf(t, id)]
      ensures exists j | 0 <= j < |t.details| :: Stored(next, j).isDefault && kv == DefaultOf(t, j)
    {
      if kv in defaults {
        var j :| 0 <= j < |t.details| && Stored(parsed, j).isDefault && kv == DefaultOf(t, j);
        assert Stored(next, j).isDefault;
      } else {
        assert Stored(next, id).isDefault;
      }
    }
  }

  lemma OptionOfName(t: Table, name: string)
    requires TableOk(t) && name in t.options
    ensures t.options[name] < |t.details| && NameOf(t.details[t.options[name]], name)
  {
  }

  lemma OneMoreKey(t: Table, keys: map<string, nat>, id: nat, name: string)
    requires TableOk(t) && KeysAgree(t, keys) && id < |t.details|
    requires name == t.details[id].shortName || name in t.details[id].longNames
    ensures KeysAgree(t, keys[name := id])
  {
    assert name == "" || NameOf(t.details[id], name);
  }

  lemma NoKeysAgree(t: Table)
    ensures KeysAgree(t, map[])
  {
  }

  lemma EmplaceKeepsCounts(t: Table, parsed: map<nat, OptionValue>, entries: seq<Entry>, id: nat)
    requires CountsMirror(t, parsed, entries) && id < |t.details| && id !in parsed
    ensures CountsMirror(t, parsed[id := NO_VALUE], entries)
  {
  }

  lemma NothingLogged(t: Table, parsed: map<nat, OptionValue>)
    requires forall id :: !Stored(parsed, id).isDefault
    ensures DefaultsLogged(t, parsed, [])
  {
  }

  lemma TouchKeepsLog(t: Table, parsed: map<nat, OptionValue>, defaults: seq<KeyValue>, id: nat)
    requires DefaultsLogged(t, parsed, defaults)
    ensures forall j: nat :: Stored(parsed[id := Stored(parsed, id)], j) == Stored(parsed, j)
    ensures DefaultsLogged(t, parsed[id := Stored(parsed, id)], defaults)
  {
    hide DefaultOf;
    var next := parsed[id := Stored(parsed, id)];
    assert forall j: nat :: Stored(next, j) == Stored(parsed, j);
    forall kv | kv in defaults ensures exists j | 0 <= j < |t.details| ::
      Stored(next, j).isDefault && kv == DefaultOf(t, j) {
      var j :| 0 <= j < |t.details| && Stored(parsed, j).isDefault && kv == DefaultOf(t, j);
      assert Stored(next, j).isDefault;
    }
  }

  lemma OptionHasName(t: Table, id: nat)
    requires TableOk(t) && id < |t.details|
    ensures EssentialName(t.details[id]) in t.options && t.options[EssentialName(t.details[id])] == id
  {
    assert NameOf(t.details[id], EssentialName(t.details[id]));
  }
}
