/** The forms of an option on the command line: what the pattern takes apart, and command lines written in any
    mixture of the forms. */
module CxxForms {
  import opened Text
  import opened Results
  import opened CxxSpec
  import opened CxxPrinted

  // ---- the grammar ----

  /** --name or --name=value, where the value has no line break. */
  predicate IsLongForm(arg: string, name: string, setValue: bool, value: string) {
    && IsLongName(name)
    && if setValue then arg == Print(Setting(name, value)) && AllDot(value) else arg == "--" + name && value == ""
  }

  /** A dash, a letter or digit, and anything without a line break. */
  predicate IsGroupForm(arg: string, letters: string) {
    letters != "" && IsAlnum(letters[0]) && AllDot(letters[1..]) && arg == "-" + letters
  }

  lemma {:induction false} RunOfName(rest: string, n: nat)
    requires n <= |rest| && (forall i | 0 <= i < n :: IsNameChar(rest[i])) && (n < |rest| ==> !IsNameChar(rest[n]))
    ensures NameRun(rest) == n
    decreases n
  {
    if n > 0 { RunOfName(rest[1..], n - 1); }
  }

  lemma {:induction false} RunIsName(rest: string)
    ensures forall i | 0 <= i < NameRun(rest) :: IsNameChar(rest[i])
    ensures NameRun(rest) < |rest| ==> !IsNameChar(rest[NameRun(rest)])
  {
    if rest != "" && IsNameChar(rest[0]) {
      RunIsName(rest[1..]);
      assert forall i | 0 < i < NameRun(rest) :: rest[i] == rest[1..][i - 1];
    }
  }

  lemma LongIs(arg: string, name: string, setValue: bool, value: string)
    ensures ParseArgument(arg) == Long(name, setValue, value) <==> IsLongForm(arg, name, setValue, value)
  {
    hide ParseArgument, IsLongForm;
    if ParseArgument(arg).Long? { LongHasForm(arg); }
    if IsLongForm(arg, name, setValue, value) { FormIsLong(arg, name, setValue, value); }
  }

  lemma LongHasForm(arg: string)
    requires ParseArgument(arg).Long?
    ensures var r := ParseArgument(arg); IsLongForm(arg, r.name, r.setValue, r.value)
  {
    hide NameRun, AllDot;
    var rest := arg[2..];
    var n := NameRun(rest);
    RunIsName(rest);
    assert arg == "--" + rest;
    if n < |rest| { assert rest == rest[..n] + "=" + rest[n + 1..]; }
  }

  lemma FormIsLong(arg: string, name: string, setValue: bool, value: string)
    requires IsLongForm(arg, name, setValue, value)
    ensures ParseArgument(arg) == Long(name, setValue, value)
  {
    hide NameRun, AllDot;
    if setValue {
      PrintedIsTakenApart(name, value);
    } else {
      assert arg[2..] == name;
      RunOfName(name, |name|);
    }
  }

  lemma GroupIs(arg: string, letters: string)
    ensures ParseArgument(arg) == Group(letters) <==> IsGroupForm(arg, letters)
  {
    hide NameRun, AllDot;
    if IsGroupForm(arg, letters) {
      assert arg[1..] == letters && arg[2..] == letters[1..] && arg[1] == letters[0];
    }
    if ParseArgument(arg).Group? { assert arg == "-" + arg[1..] && arg[1..][1..] == arg[2..]; }
  }

  /** The pattern matches exactly these forms and takes them apart. */
  lemma {:induction false} FormsAre(arg: string)
    ensures forall name, setValue, value ::
      ParseArgument(arg) == Long(name, setValue, value) <==> IsLongForm(arg, name, setValue, value)
    ensures forall letters :: ParseArgument(arg) == Group(letters) <==> IsGroupForm(arg, letters)
    ensures ParseArgument(arg) == Unmatched <==>
      (forall name, setValue, value :: !IsLongForm(arg, name, setValue, value))
      && forall letters :: !IsGroupForm(arg, letters)
  {
    hide ParseArgument, IsLongForm, IsGroupForm;
    forall name, setValue, value
      ensures ParseArgument(arg) == Long(name, setValue, value) <==> IsLongForm(arg, name, setValue, value)
    {
      LongIs(arg, name, setValue, value);
    }
    forall letters ensures ParseArgument(arg) == Group(letters) <==> IsGroupForm(arg, letters) {
      GroupIs(arg, letters);
    }
  }

  /** A name goes on with letters, digits, and any of - _ and . */
  lemma NamesGoOn(front: string, c: char)
    requires IsLongName(front)
    ensures IsLongName(front + [c]) <==> IsAlnum(c) || c in "-_."
  {
    var s := "-_.";
    assert s[0] == '-' && s[1] == '_' && s[2] == '.';
    var name := front + [c];
    assert name[|front|] == c && forall i | 0 <= i < |front| :: name[i] == front[i];
  }

  /** No form has a line break in it: an argument with one is matched by nothing. */
  lemma LineBreakIsUnmatched(arg: string)
    requires '\n' in arg || '\r' in arg
    ensures ParseArgument(arg) == Unmatched
  {
    hide ParseArgument;
    MatchedHasNone(arg);
  }

  lemma MatchedHasNone(arg: string)
    ensures ParseArgument(arg) != Unmatched ==> '\n' !in arg && '\r' !in arg
  {
    hide ParseArgument;
    match ParseArgument(arg) {
      case Long(name, setValue, value) =>
        LongIs(arg, name, setValue, value);
        NameHasNone(name);
        assert arg == "--" + name + if setValue then "=" + value else "";
      case Group(letters) =>
        GroupIs(arg, letters);
        assert arg == "-" + letters && letters == [letters[0]] + letters[1..];
      case Unmatched =>
    }
  }

  lemma NameHasNone(name: string)
    requires IsLongName(name)
    ensures '\n' !in name && '\r' !in name
  {
  }

  // ---- written command lines ----

  /** An option as it may be written: --name=value, --name value, --name of an option that needs no value, -abc of such
      options, and -abcVALUE or -abc VALUE of such options and one more. */
  datatype Written =
    | Equals(name: string, value: string)
    | Follows(name: string, value: string)
    | Plain(name: string)
    | Flags(flags: string)
    | Last(flags: string, c: char, value: string, apart: bool)
  {
    function Words(): seq<string> {
      match this
      case Equals(name, value) => ["--" + name + "=" + value]
      case Follows(name, value) => ["--" + name, value]
      case Plain(name) => ["--" + name]
      case Flags(flags) => ["-" + flags]
      case Last(flags, c, value, apart) => if apart then ["-" + flags + [c], value] else ["-" + flags + [c] + value]
    }
  }

  /** An option that stands alone with its implicit value. */
  predicate StandsAlone(t: Table, name: string) {
    && name in t.options && t.options[name] < |t.details|
    && var implicit := t.details[t.options[name]].implicit;
       implicit.Some? && t.details[t.options[name]].accepts(implicit.value)
  }

  /** An option that takes a text. */
  predicate Wants(t: Table, name: string, text: string) {
    && name in t.options && t.options[name] < |t.details|
    && t.details[t.options[name]].implicit.None? && t.details[t.options[name]].accepts(text)
  }

  predicate AllFlags(t: Table, flags: string) { forall i | 0 <= i < |flags| :: IsFlag(t, flags[i]) }

  predicate IsWritten(t: Table, w: Written) {
    match w
    case Equals(name, value) =>
      && IsLongName(name) && AllDot(value)
      && name in t.options && t.options[name] < |t.details| && t.details[t.options[name]].accepts(value)
    case Follows(name, value) => IsLongName(name) && Wants(t, name, value)
    case Plain(name) => IsLongName(name) && StandsAlone(t, name)
    case Flags(flags) => flags != "" && IsAlnum(flags[0]) && AllDot(flags) && AllFlags(t, flags)
    case Last(flags, c, value, apart) =>
      && IsAlnum((flags + [c])[0]) && AllDot(flags + [c]) && AllFlags(t, flags) && Wants(t, [c], value)
      && (!apart ==> value != "" && AllDot(value))
  }

  /** What is logged for it. */
  function EntriesOfOne(t: Table, w: Written): seq<Entry>
    requires IsWritten(t, w)
  {
    match w
    case Equals(name, value) => [Entry(t.options[name], value)]
    case Follows(name, value) => [Entry(t.options[name], value)]
    case Plain(name) => [Entry(t.options[name], t.details[t.options[name]].implicit.value)]
    case Flags(flags) => FlagEntries(t, flags)
    case Last(flags, c, value, _) => FlagEntries(t, flags) + [Entry(t.options[[c]], value)]
  }

  function AllWords(ws: seq<Written>): seq<string> { if ws == [] then [] else ws[0].Words() + AllWords(ws[1..]) }

  function AllEntries(t: Table, ws: seq<Written>): seq<Entry>
    requires forall i | 0 <= i < |ws| :: IsWritten(t, ws[i])
  {
    if ws == [] then [] else EntriesOfOne(t, ws[0]) + AllEntries(t, ws[1..])
  }

  lemma FlagsAlone(t: Table, log: Log, flags: string, argv: seq<string>, current: nat)
    requires TableOk(t) && flags != "" && AllFlags(t, flags)
    ensures TakeGroup(t, log, flags, 0, argv, current) ==
      Ok((log.(entries := log.entries + FlagEntries(t, flags)), current))
  {
    hide TableOk, IsFlag;
    var n := |flags| - 1;
    assert forall k | 0 <= k < n :: IsFlag(t, flags[k]);
    FlagsTaken(t, log, flags, 0, n, argv, current);
    LastFlag(t, log.(entries := log.entries + FlagEntries(t, flags[0..n])), flags, argv, current);
    FlagsBoth(t, flags[..n], flags[n..]);
    assert flags[..n] == flags[0..n] && flags[..n] + flags[n..] == flags;
    Regroup(log.entries, FlagEntries(t, flags[0..n]), FlagEntries(t, flags[n..]));
  }

  lemma LastFlag(t: Table, log: Log, flags: string, argv: seq<string>, current: nat)
    requires TableOk(t) && flags != "" && IsFlag(t, flags[|flags| - 1])
    ensures var n := |flags| - 1;
      && AllFlags(t, flags[n..])
      && TakeGroup(t, log, flags, n, argv, current) ==
           Ok((log.(entries := log.entries + FlagEntries(t, flags[n..])), current))
  {
    hide TableOk;
    var n := |flags| - 1;
    var c := flags[n];
    var e := Entry(t.options[[c]], t.details[t.options[[c]]].implicit.value);
    assert flags[n..] == [c] && [c][0] == c && [c][1..] == "";
    assert FlagEntries(t, [c]) == [e] + FlagEntries(t, "") == [e];
    assert Take(t, log, e.id, e.value) == Ok(log.(entries := log.entries + [e]));
  }

  lemma {:induction false} FlagsBoth(t: Table, a: string, b: string)
    requires AllFlags(t, a) && AllFlags(t, b)
    ensures AllFlags(t, a + b) && FlagEntries(t, a + b) == FlagEntries(t, a) + FlagEntries(t, b)
    decreases |a|
  {
    hide IsFlag;
    if a == "" {
      assert a + b == b;
    } else {
      assert (a + b)[1..] == a[1..] + b && (a + b)[0] == a[0];
      FlagsBoth(t, a[1..], b);
    }
  }

  /** One written option is logged, whatever follows. */
  lemma {:induction false} WrittenTaken(t: Table, log: Log, w: Written, argv: seq<string>, current: nat)
    requires TableOk(t) && IsWritten(t, w) && current < |argv| && w.Words() <= argv[current..]
    ensures w.Words() != [] && w.Words()[0] != "--"
    ensures TakeOne(t, log, argv, current) ==
      Ok((log.(entries := log.entries + EntriesOfOne(t, w)), current + |w.Words()| - 1))
  {
    hide TableOk, ParseArgument, TakeGroup, TakeOrLeave, IsLongForm, IsGroupForm, IsLongName, FlagEntries;
    var arg := w.Words()[0];
    assert argv[current] == argv[current..][0] == arg;
    if |w.Words()| == 2 { assert argv[current + 1] == argv[current..][1] == w.Words()[1]; }
    match w {
      case Equals(name, value) => LongWritten(name, true, value);
      case Follows(name, _) => LongWritten(name, false, "");
      case Plain(name) => LongWritten(name, false, "");
      case Flags(flags) =>
        GroupWritten(flags);
        FlagsAlone(t, log, flags, argv, current);
      case Last(flags, c, value, apart) =>
        LastWritten(t, w, flags + [c] + if apart then "" else value);
        GroupParses(t, log, flags, c, if apart then "" else value, argv, current);
        Regroup(log.entries, FlagEntries(t, flags), [Entry(t.options[[c]], value)]);
    }
  }

  lemma LongWritten(name: string, setValue: bool, value: string)
    requires IsLongName(name) && AllDot(value) && (!setValue ==> value == "")
    ensures var arg := if setValue then "--" + name + "=" + value else "--" + name;
      ParseArgument(arg) == Long(name, setValue, value) && arg != "--"
  {
    hide ParseArgument;
    LongIs(if setValue then "--" + name + "=" + value else "--" + name, name, setValue, value);
  }

  lemma GroupWritten(letters: string)
    requires letters != "" && IsAlnum(letters[0]) && AllDot(letters)
    ensures ParseArgument("-" + letters) == Group(letters) && "-" + letters != "--"
  {
    hide ParseArgument;
    GroupIs("-" + letters, letters);
    assert ("-" + letters)[1] == letters[0];
  }

  lemma LastWritten(t: Table, w: Written, letters: string)
    requires w.Last? && IsWritten(t, w) && letters == w.flags + [w.c] + if w.apart then "" else w.value
    ensures w.Words()[0] == "-" + letters && ParseArgument("-" + letters) == Group(letters) && "-" + letters != "--"
  {
    hide ParseArgument, AllFlags, Wants;
    assert letters[0] == (w.flags + [w.c])[0];
    if w.apart { assert letters == w.flags + [w.c]; }
    GroupWritten(letters);
  }

  lemma {:induction false} AllWrittenTaken(t: Table, log: Log, argv: seq<string>, current: nat, ws: seq<Written>)
    requires TableOk(t) && (forall i | 0 <= i < |ws| :: IsWritten(t, ws[i])) && current <= |argv|
    requires argv[current..] == AllWords(ws)
    ensures TakeAll(t, log, argv, current) ==
      Ok((log.(entries := log.entries + AllEntries(t, ws)), |argv|))
    decreases |ws|
  {
    hide TableOk, TakeOne, IsWritten, EntriesOfOne, Written.Words;
    if ws == [] {
      assert log.entries + [] == log.entries;
    } else {
      var w, words := ws[0], ws[0].Words();
      assert words <= argv[current..];
      WrittenNotEmpty(w);
      WrittenTaken(t, log, w, argv, current);
      assert argv[current] == argv[current..][0] == words[0];
      assert argv[current + |words|..] == argv[current..][|words|..] == AllWords(ws[1..]);
      AllWrittenTaken(t, log.(entries := log.entries + EntriesOfOne(t, w)), argv, current + |words|, ws[1..]);
      Regroup(log.entries, EntriesOfOne(t, w), AllEntries(t, ws[1..]));
    }
  }

  lemma WrittenNotEmpty(w: Written)
    ensures w.Words() != []
  {
  }

  /** A command line of options in any mixture of these forms is logged as just those options with just those values, in
      order, with nothing left over; or a default of another option is refused. */
  lemma WrittenOptionsParse(t: Table, program: string, ws: seq<Written>)
    requires TableOk(t) && forall i | 0 <= i < |ws| :: IsWritten(t, ws[i])
    ensures var entries := AllEntries(t, ws);
      ParseLog(t, [program] + AllWords(ws)) ==
        if DefaultsOk(t, entries) then Ok(Log(entries, [], 0)) else Error(IncorrectType)
  {
    hide TableOk, TakeAll, DefaultsOk, IsWritten, AllEntries;
    var argv := [program] + AllWords(ws);
    assert argv[1..] == AllWords(ws) && argv[|argv|..] == [];
    AllWrittenTaken(t, NO_LOG, argv, 1, ws);
    assert [] + AllEntries(t, ws) == AllEntries(t, ws);
  }
}
