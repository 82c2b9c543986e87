/** Options written as --name=value, and groups of short options, parse back to what was written. */
module CxxPrinted {
  import opened Text
  import opened Results
  import opened CxxSpec

  /** A long name of the pattern: a letter or digit and at least one more name character. */
  predicate IsLongName(name: string) {
    |name| >= 2 && IsAlnum(name[0]) && forall i | 0 <= i < |name| :: IsNameChar(name[i])
  }

  datatype Setting = Setting(name: string, value: string)

  function Print(s: Setting): string { "--" + s.name + "=" + s.value }

  function PrintAll(settings: seq<Setting>): (r: seq<string>)
    ensures |r| == |settings| && forall i | 0 <= i < |r| :: r[i] == Print(settings[i])
  {
    seq(|settings|, i requires 0 <= i < |settings| => Print(settings[i]))
  }

  predicate IsOption(t: Table, s: Setting) {
    && IsLongName(s.name) && s.name in t.options && t.options[s.name] < |t.details|
    && t.details[t.options[s.name]].accepts(s.value)
  }

  ghost predicate AllOptions(t: Table, settings: seq<Setting>) {
    forall i | 0 <= i < |settings| :: IsOption(t, settings[i]) && AllDot(settings[i].value)
  }

  function EntriesOf(t: Table, settings: seq<Setting>): (r: seq<Entry>)
    requires forall i | 0 <= i < |settings| :: settings[i].name in t.options
    ensures |r| == |settings|
    ensures forall i | 0 <= i < |r| :: r[i] == Entry(t.options[settings[i].name], settings[i].value)
  {
    seq(|settings|, i requires 0 <= i < |settings| => Entry(t.options[settings[i].name], settings[i].value))
  }

  lemma {:induction false} NameRunIs(name: string, value: string)
    requires forall i | 0 <= i < |name| :: IsNameChar(name[i])
    ensures NameRun(name + "=" + value) == |name|
  {
    if name != "" {
      assert (name + "=" + value)[1..] == name[1..] + "=" + value;
      NameRunIs(name[1..], value);
    }
  }

  /** The pattern takes a printed option apart exactly when its value has no line break. */
  lemma PrintedIsTakenApart(name: string, value: string)
    requires IsLongName(name)
    ensures ParseArgument(Print(Setting(name, value))) == Long(name, true, value) <==> AllDot(value)
  {
    var rest := name + "=" + value;
    NameRunIs(name, value);
    assert Print(Setting(name, value)) == "--" + rest;
    assert ("--" + rest)[2..] == rest;
    assert rest[..|name|] == name && rest[|name| + 1..] == value && rest[|name|] == '=';
  }

  lemma OneSettingTaken(t: Table, log: Log, argv: seq<string>, current: nat, s: Setting)
    requires TableOk(t) && IsOption(t, s) && AllDot(s.value) && current < |argv| && argv[current] == Print(s)
    ensures argv[current] != "--"
    ensures TakeOne(t, log, argv, current) ==
      Ok((log.(entries := log.entries + [Entry(t.options[s.name], s.value)]), current))
  {
    hide TableOk, ParseArgument, IsLongName, TakeGroup, TakeOrLeave, TakeArgument;
    PrintedIsTakenApart(s.name, s.value);
    assert |Print(s)| > 2;
  }

  lemma {:induction false} AllSettingsTaken(t: Table, log: Log, argv: seq<string>, current: nat, settings: seq<Setting>)
    requires TableOk(t) && AllOptions(t, settings) && current <= |argv| && argv[current..] == PrintAll(settings)
    ensures TakeAll(t, log, argv, current) ==
      Ok((log.(entries := log.entries + EntriesOf(t, settings)), |argv|))
    decreases |settings|
  {
    hide TableOk, TakeOne, IsLongName, Print, AllDot;
    if settings == [] {
      assert log.entries + [] == log.entries;
    } else {
      var s := settings[0];
      assert argv[current] == argv[current..][0] == Print(s);
      OneSettingTaken(t, log, argv, current, s);
      var next := log.(entries := log.entries + [Entry(t.options[s.name], s.value)]);
      assert argv[current + 1..] == argv[current..][1..] == PrintAll(settings[1..]);
      AllSettingsTaken(t, next, argv, current + 1, settings[1..]);
      assert EntriesOf(t, settings) == [Entry(t.options[s.name], s.value)] + EntriesOf(t, settings[1..]);
      Regroup(log.entries, [Entry(t.options[s.name], s.value)], EntriesOf(t, settings[1..]));
    }
  }

  /** A command line of printed options is logged as just those options, in order, with nothing left over; or
      a default of another option is refused. */
  lemma PrintedOptionsParse(t: Table, program: string, settings: seq<Setting>)
    requires TableOk(t) && AllOptions(t, settings)
    ensures var entries := EntriesOf(t, settings);
      ParseLog(t, [program] + PrintAll(settings)) ==
        if DefaultsOk(t, entries) then Ok(Log(entries, [], 0)) else Error(IncorrectType)
  {
    hide TableOk, TakeAll, DefaultsOk, IsLongName;
    var argv := [program] + PrintAll(settings);
    assert argv[1..] == PrintAll(settings) && argv[|argv|..] == [];
    AllSettingsTaken(t, NO_LOG, argv, 1, settings);
    assert [] + EntriesOf(t, settings) == EntriesOf(t, settings);
  }

  // ---- groups of short options ----

  /** A letter that names an option with an implicit value. */
  predicate IsFlag(t: Table, c: char) {
    && [c] in t.options && t.options[[c]] < |t.details|
    && t.details[t.options[[c]]].implicit.Some?
    && t.details[t.options[[c]]].accepts(t.details[t.options[[c]]].implicit.value)
  }

  /** The entries of flags, in order. */
  function FlagEntries(t: Table, flags: string): (r: seq<Entry>)
    requires forall i | 0 <= i < |flags| :: IsFlag(t, flags[i])
    ensures |r| == |flags|
  {
    if flags == "" then []
    else
      assert IsFlag(t, flags[0]);
      var id := t.options[[flags[0]]];
      [Entry(id, t.details[id].implicit.value)] + FlagEntries(t, flags[1..])
  }

  /** The letters of a group up to the one that wants an argument are flags: each one is logged with its
      implicit value. */
  lemma {:induction false} FlagsTaken(t: Table, log: Log, s: string, i: nat, n: nat, argv: seq<string>, current: nat)
    requires TableOk(t) && i <= n < |s| && forall k | i <= k < n :: IsFlag(t, s[k])
    ensures TakeGroup(t, log, s, i, argv, current) ==
      TakeGroup(t, log.(entries := log.entries + FlagEntries(t, s[i..n])), s, n, argv, current)
    decreases n - i
  {
    hide TableOk;
    if i == n {
      assert s[i..n] == "" && log.entries + [] == log.entries;
    } else {
      var id := t.options[[s[i]]];
      var e := Entry(id, t.details[id].implicit.value);
      var next := log.(entries := log.entries + [e]);
      assert s[i..n][0] == s[i] && s[i..n][1..] == s[i + 1..n];
      FlagsTaken(t, next, s, i + 1, n, argv, current);
      Regroup(log.entries, [e], FlagEntries(t, s[i + 1..n]));
    }
  }

  /** A group -abcVALUE of flags and one option that wants an argument: the option gets the rest of the letters,
      or the next argument when there are none, or the argument is missing. */
  lemma GroupParses(t: Table, log: Log, flags: string, c: char, value: string, argv: seq<string>, current: nat)
    requires TableOk(t) && (forall k | 0 <= k < |flags| :: IsFlag(t, flags[k]))
    requires [c] in t.options && t.options[[c]] < |t.details| && t.details[t.options[[c]]].implicit.None?
    ensures var id, s := t.options[[c]], flags + [c] + value;
      var given := log.(entries := log.entries + FlagEntries(t, flags));
      TakeGroup(t, log, s, 0, argv, current) ==
        if value == "" && current + 1 >= |argv| then Error(MissingArgument)
        else
          var text := if value == "" then argv[current + 1] else value;
          if !t.details[id].accepts(text) then Error(IncorrectType)
          else Ok((given.(entries := given.entries + [Entry(id, text)]), if value == "" then current + 1 else current))
  {
    hide TableOk;
    var s := flags + [c] + value;
    forall k | 0 <= k < |flags| ensures IsFlag(t, s[k]) { assert s[k] == flags[k]; }
    FlagsTaken(t, log, s, 0, |flags|, argv, current);
    assert s[0..|flags|] == flags && s[|flags|] == c && s[|flags| + 1..] == value;
  }
}
