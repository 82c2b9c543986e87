/** OptionParser::parse of cxxopts as functions: what every argument does to
    the log of options, the unmatched arguments and the positional slots. */
module CxxSpec {
  import opened Text
  import opened Results

  // ---- options ----

  /** An option. Converting a text to its value succeeds for the texts that it accepts. */
  datatype Details = Details(shortName: string, longNames: seq<string>, isContainer: bool,
                             implicit: Option<string>, default: Option<string>, accepts: string -> bool)

  function EssentialName(d: Details): string {
    if d.longNames == [] then d.shortName else d.longNames[0]
  }

  predicate NameOf(d: Details, name: string) { (d.shortName != "" && name == d.shortName) || name in d.longNames }

  /** The options by number, the table of their names, the positional list and the leniency. */
  datatype Table = Table(details: seq<Details>, options: map<string, nat>, positional: seq<string>,
                         allowUnrecognised: bool)

  /** The table leads from exactly the names of an option to that option, and every option has a name. */
  ghost predicate TableOk(t: Table) {
    && "" !in t.options
    && (forall name | name in t.options :: t.options[name] < |t.details| && NameOf(t.details[t.options[name]], name))
    && (forall id, name | 0 <= id < |t.details| && NameOf(t.details[id], name) ::
          name in t.options && t.options[name] == id)
    && (forall id | 0 <= id < |t.details| :: NameOf(t.details[id], EssentialName(t.details[id])))
  }

  datatype ParseError = MissingArgument | NoSuchOption | InvalidSyntax | IncorrectType

  type Parsing<+T> = Result<T, ParseError>

  // ---- the grammar of one argument ----

  predicate IsNameChar(c: char) { IsAlnum(c) || c == '-' || c == '_' || c == '.' }

  /** What '.' of the pattern matches. */
  predicate IsDot(c: char) { c != '\n' && c != '\r' }

  predicate AllDot(s: string) { forall i | 0 <= i < |s| :: IsDot(s[i]) }

  /** The length of the run of name characters at the front. */
  function NameRun(s: string): (n: nat)
    ensures n <= |s|
  {
    if s == "" || !IsNameChar(s[0]) then 0 else 1 + NameRun(s[1..])
  }

  datatype Argument = Long(name: string, setValue: bool, value: string) | Group(letters: string) | Unmatched

  /** --([[:alnum:]][-_[:alnum:].]+)(=(.*))?|-([[:alnum:]].*) */
  function ParseArgument(arg: string): Argument {
    if "--" <= arg then
      var rest := arg[2..];
      var n := NameRun(rest);
      if n < 2 || !IsAlnum(rest[0]) then Unmatched
      else if n == |rest| then Long(rest, false, "")
      else if rest[n] == '=' && AllDot(rest[n + 1..]) then Long(rest[..n], true, rest[n + 1..])
      else Unmatched
    else if |arg| >= 2 && arg[0] == '-' && IsAlnum(arg[1]) && AllDot(arg[2..]) then Group(arg[1..])
    else Unmatched
  }

  // ---- the log ----

  datatype Entry = Entry(id: nat, value: string)

  /** The options given so far, in order, the arguments nobody took, and the next positional slot. */
  datatype Log = Log(entries: seq<Entry>, unmatched: seq<string>, next: nat)

  function CountOf(entries: seq<Entry>, id: nat): nat {
    if entries == [] then 0 else CountOf(entries[..|entries| - 1], id) + if entries[|entries| - 1].id == id then 1
    else 0
  }

  lemma {:induction false} CountOfMore(entries: seq<Entry>, e: Entry)
    ensures forall id :: CountOf(entries + [e], id) == CountOf(entries, id) + if e.id == id then 1 else 0
  {
    var more := entries + [e];
    assert more[..|more| - 1] == entries;
  }

  function Take(t: Table, log: Log, id: nat, value: string): Parsing<Log>
    requires id < |t.details|
  {
    if t.details[id].accepts(value) then Ok(log.(entries := log.entries + [Entry(id, value)])) else Error(IncorrectType)
  }

  /** An option with an optional argument takes its implicit value, another one the next argument. */
  function TakeArgument(t: Table, log: Log, id: nat, argv: seq<string>, current: nat): Parsing<(Log, nat)>
    requires id < |t.details|
  {
    var implicit := t.details[id].implicit;
    if implicit.Some? then
      var next :- Take(t, log, id, implicit.value);
      Ok((next, current))
    else if current + 1 >= |argv| then Error(MissingArgument)
    else
      var next :- Take(t, log, id, argv[current + 1]);
      Ok((next, current + 1))
  }

  /** A positional argument: full single-valued slots are passed over. */
  function TakePositional(t: Table, log: Log, a: string): Parsing<(bool, Log)>
    requires TableOk(t)
    decreases |t.positional| - log.next
  {
    if log.next >= |t.positional| then Ok((false, log))
    else if t.positional[log.next] !in t.options then Error(NoSuchOption)
    else
      var id := t.options[t.positional[log.next]];
      if t.details[id].isContainer then
        var next :- Take(t, log, id, a);
        Ok((true, next))
      else if CountOf(log.entries, id) == 0 then
        var next :- Take(t, log, id, a);
        Ok((true, next.(next := log.next + 1)))
      else TakePositional(t, log.(next := log.next + 1), a)
  }

  function TakeOrLeave(t: Table, log: Log, a: string): Parsing<Log>
    requires TableOk(t)
  {
    var r :- TakePositional(t, log, a);
    Ok(if r.0 then r.1 else r.1.(unmatched := r.1.unmatched + [a]))
  }

  /** The letters of -abc from the i-th one on. */
  function TakeGroup(t: Table, log: Log, s: string, i: nat, argv: seq<string>, current: nat): Parsing<(Log, nat)>
    requires TableOk(t) && i <= |s|
    decreases |s| - i
  {
    if i == |s| then Ok((log, current))
    else
      var name := [s[i]];
      if name !in t.options then
        if t.allowUnrecognised then TakeGroup(t, log.(unmatched := log.unmatched + ["-" + name]), s, i + 1, argv,
          current)
        else Error(NoSuchOption)
      else
        var id := t.options[name];
        if i + 1 == |s| then TakeArgument(t, log, id, argv, current)
        else if t.details[id].implicit.Some? then
          var next :- Take(t, log, id, t.details[id].implicit.value);
          TakeGroup(t, next, s, i + 1, argv, current)
        else
          var next :- Take(t, log, id, s[i + 1..]);
          Ok((next, current))
  }

  /** One argument: the log afterwards and the last argument that was used up. */
  function TakeOne(t: Table, log: Log, argv: seq<string>, current: nat): Parsing<(Log, nat)>
    requires TableOk(t) && current < |argv|
  {
    var arg := argv[current];
    match ParseArgument(arg)
    case Unmatched =>
      if |arg| > 1 && arg[0] == '-' && !t.allowUnrecognised then Error(InvalidSyntax)
      else
        var next :- TakeOrLeave(t, log, arg);
        Ok((next, current))
    case Group(letters) => TakeGroup(t, log, letters, 0, argv, current)
    case Long(name, setValue, value) =>
      if name !in t.options then
        if t.allowUnrecognised then Ok((log.(unmatched := log.unmatched + [arg]), current)) else Error(NoSuchOption)
      else
        var id := t.options[name];
        if setValue then
          var next :- Take(t, log, id, value);
          Ok((next, current))
        else TakeArgument(t, log, id, argv, current)
  }

  lemma {:induction false} GroupStays(t: Table, log: Log, s: string, i: nat, argv: seq<string>, current: nat)
    requires TableOk(t) && i <= |s| && current < |argv|
    ensures var r := TakeGroup(t, log, s, i, argv, current); r.Ok? ==> current <= r.value.1 < |argv|
    decreases |s| - i
  {
    if i < |s| {
      var name := [s[i]];
      if name !in t.options {
        GroupStays(t, log.(unmatched := log.unmatched + ["-" + name]), s, i + 1, argv, current);
      } else if i + 1 < |s| && t.details[t.options[name]].implicit.Some? {
        var next := Take(t, log, t.options[name], t.details[t.options[name]].implicit.value);
        if next.Ok? { GroupStays(t, next.value, s, i + 1, argv, current); }
      }
    }
  }

  /** No argument uses up more than the one after it: the index stays among the arguments. */
  lemma TakeOneStays(t: Table, log: Log, argv: seq<string>, current: nat)
    requires TableOk(t) && current < |argv|
    ensures var r := TakeOne(t, log, argv, current); r.Ok? ==> current <= r.value.1 < |argv|
  {
    hide TakeOrLeave;
    match ParseArgument(argv[current]) {
      case Group(letters) => GroupStays(t, log, letters, 0, argv, current);
      case _ =>
    }
  }

  /** All arguments from current on, up to the first "--" if there is one. */
  function TakeAll(t: Table, log: Log, argv: seq<string>, current: nat): Parsing<(Log, nat)>
    requires TableOk(t) && current <= |argv|
    decreases |argv| - current
  {
    if current == |argv| then Ok((log, current))
    else if argv[current] == "--" then Ok((log, current + 1))
    else
      TakeOneStays(t, log, argv, current);
      var r :- TakeOne(t, log, argv, current);
      TakeAll(t, r.0, argv, r.1 + 1)
  }

  /** What follows "--": the slots first, then everything else is unmatched. */
  function TakeRest(t: Table, log: Log, rest: seq<string>): Parsing<Log>
    requires TableOk(t)
    decreases |rest|
  {
    if rest == [] then Ok(log)
    else
      var r :- TakePositional(t, log, rest[0]);
      if r.0 then TakeRest(t, r.1, rest[1..]) else Ok(r.1.(unmatched := r.1.unmatched + rest))
  }

  /** Defaults are converted too, so that a default that is not accepted is an error; it is one of
      an option that was not given. */
  ghost predicate DefaultsOk(t: Table, entries: seq<Entry>) {
    forall id | 0 <= id < |t.details| && t.details[id].default.Some? && CountOf(entries, id) == 0 ::
      t.details[id].accepts(t.details[id].default.value)
  }

  const NO_LOG: Log := Log([], [], 0)

  /** The log of a whole command line. */
  ghost function ParseLog(t: Table, argv: seq<string>): Parsing<Log>
    requires TableOk(t) && |argv| > 0
  {
    AllStays(t, NO_LOG, argv, 1);
    var r :- TakeAll(t, NO_LOG, argv, 1);
    if !DefaultsOk(t, r.0.entries) then Error(IncorrectType)
    else TakeRest(t, r.0, argv[r.1..])
  }

  lemma {:induction false} AllStays(t: Table, log: Log, argv: seq<string>, current: nat)
    requires TableOk(t) && current <= |argv|
    ensures var r := TakeAll(t, log, argv, current); r.Ok? ==> r.value.1 <= |argv|
    decreases |argv| - current
  {
    hide TakeOne;
    if current < |argv| && argv[current] != "--" {
      TakeOneStays(t, log, argv, current);
      var r := TakeOne(t, log, argv, current);
      if r.Ok? { AllStays(t, r.value.0, argv, r.value.1 + 1); }
    }
  }
}
