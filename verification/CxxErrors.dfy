/** Why a command line is refused: the argument at fault and what is wrong with it. */
module CxxErrors {
  import opened Text
  import opened Results
  import opened CxxSpec
  import opened CxxAccount

  // ---- one argument ----

  /** The argument behind one, if there is one. */
  function Following(argv: seq<string>, current: nat): Option<string> {
    if current + 1 < |argv| then Some(argv[current + 1]) else None
  }

  /** An option without a value of its own: its implicit value is refused, or there is no argument behind it, or
      that one is refused. */
  predicate ValueFails(t: Table, id: nat, more: Option<string>, error: ParseError)
    requires id < |t.details|
  {
    var d := t.details[id];
    if d.implicit.None? && more.None? then error == MissingArgument
    else error == IncorrectType && !d.accepts(if d.implicit.Some? then d.implicit.value else more.value)
  }

  /** The first letter at fault: an unknown one, or an option whose value is refused or missing. */
  predicate GroupFails(t: Table, s: string, more: Option<string>, error: ParseError)
    requires forall name | name in t.options :: t.options[name] < |t.details|
  {
    && s != ""
    && var name := [s[0]];
    if name !in t.options then if t.allowUnrecognised then GroupFails(t, s[1..], more, error) else error == NoSuchOption
    else
      var id := t.options[name];
      var d := t.details[id];
      if |s| == 1 then ValueFails(t, id, more, error)
      else if d.implicit.Some? && d.accepts(d.implicit.value) then GroupFails(t, s[1..], more, error)
      else error == IncorrectType && !d.accepts(if d.implicit.Some? then d.implicit.value else s[1..])
  }

  /** A single-valued slot that has its value. */
  predicate IsFull(t: Table, entries: seq<Entry>, k: nat)
    requires TableOk(t)
  {
    && k < |t.positional| && t.positional[k] in t.options
    && var id := t.options[t.positional[k]]; !t.details[id].isContainer && CountOf(entries, id) > 0
  }

  /** The next slot that is not full has no option, or its option refuses the argument. */
  predicate SlotFails(t: Table, entries: seq<Entry>, next: nat, a: string, error: ParseError)
    requires TableOk(t)
  {
    exists k | next <= k < |t.positional| ::
      && (forall j | next <= j < k :: IsFull(t, entries, j)) && !IsFull(t, entries, k)
      && if t.positional[k] !in t.options then error == NoSuchOption
         else error == IncorrectType && !t.details[t.options[t.positional[k]]].accepts(a)
  }

  ghost predicate ArgumentFails(t: Table, log: Log, argv: seq<string>, current: nat, error: ParseError)
    requires TableOk(t) && current < |argv|
  {
    var arg, more := argv[current], Following(argv, current);
    match ParseArgument(arg)
    case Group(letters) => GroupFails(t, letters, more, error)
    case Long(name, setValue, value) =>
      if name !in t.options then !t.allowUnrecognised && error == NoSuchOption
      else if setValue then error == IncorrectType && !t.details[t.options[name]].accepts(value)
      else ValueFails(t, t.options[name], more, error)
    case Unmatched =>
      if |arg| > 1 && arg[0] == '-' && !t.allowUnrecognised then error == InvalidSyntax
      else SlotFails(t, log.entries, log.next, arg, error)
  }

  /** A full slot is passed over. */
  lemma SlotPassed(t: Table, entries: seq<Entry>, next: nat, a: string, error: ParseError)
    requires TableOk(t) && IsFull(t, entries, next)
    ensures SlotFails(t, entries, next, a, error) <==> SlotFails(t, entries, next + 1, a, error)
  {
    hide TableOk, CountOf;
  }

  lemma SlotHere(t: Table, entries: seq<Entry>, next: nat, a: string, error: ParseError)
    requires TableOk(t) && next < |t.positional| && !IsFull(t, entries, next)
    ensures SlotFails(t, entries, next, a, error) <==>
      if t.positional[next] !in t.options then error == NoSuchOption
      else error == IncorrectType && !t.details[t.options[t.positional[next]]].accepts(a)
  {
    hide CountOf, IsFull;
  }

  lemma {:induction false} SlotFailsExactly(t: Table, log: Log, a: string, error: ParseError)
    requires TableOk(t)
    ensures TakePositional(t, log, a) == Error(error) <==> SlotFails(t, log.entries, log.next, a, error)
    decreases |t.positional| - log.next
  {
    hide TableOk, CountOf, SlotFails;
    if log.next >= |t.positional| {
      NoSlot(t, log.entries, log.next, a, error);
    } else {
      if t.positional[log.next] in t.options { NamedIsOption(t, t.positional[log.next]); }
      if IsFull(t, log.entries, log.next) {
        SlotPassed(t, log.entries, log.next, a, error);
        SlotFailsExactly(t, log.(next := log.next + 1), a, error);
      } else {
        SlotHere(t, log.entries, log.next, a, error);
      }
    }
  }

  lemma NoSlot(t: Table, entries: seq<Entry>, next: nat, a: string, error: ParseError)
    requires TableOk(t) && next >= |t.positional|
    ensures !SlotFails(t, entries, next, a, error)
  {
    hide TableOk;
  }

  lemma {:induction false} GroupFailsExactly(t: Table, log: Log, s: string, i: nat, argv: seq<string>, current: nat,
    error: ParseError)
    requires TableOk(t) && i <= |s| && current < |argv|
    ensures TakeGroup(t, log, s, i, argv, current) == Error(error) <==>
      GroupFails(t, s[i..], Following(argv, current), error)
    decreases |s| - i
  {
    hide TableOk;
    if i < |s| {
      var name, rest := [s[i]], s[i..];
      assert rest[0] == s[i] && rest[1..] == s[i + 1..];
      if name !in t.options {
        GroupFailsExactly(t, log.(unmatched := log.unmatched + ["-" + name]), s, i + 1, argv, current, error);
      } else {
        NamedIsOption(t, name);
        var d := t.details[t.options[name]];
        if i + 1 < |s| && d.implicit.Some? && d.accepts(d.implicit.value) {
          var next := log.(entries := log.entries + [Entry(t.options[name], d.implicit.value)]);
          GroupFailsExactly(t, next, s, i + 1, argv, current, error);
        }
      }
    }
  }

  /** One argument is refused exactly when it is at fault in one of these ways. */
  lemma {:induction false} OneFailsExactly(t: Table, log: Log, argv: seq<string>, current: nat, error: ParseError)
    requires TableOk(t) && current < |argv|
    ensures TakeOne(t, log, argv, current) == Error(error) <==> ArgumentFails(t, log, argv, current, error)
  {
    hide TableOk, TakeGroup, TakePositional, GroupFails, SlotFails, ParseArgument;
    var arg := argv[current];
    match ParseArgument(arg) {
      case Group(letters) =>
        GroupFailsExactly(t, log, letters, 0, argv, current, error);
        assert letters[0..] == letters;
      case Long(name, _, _) => if name in t.options { NamedIsOption(t, name); }
      case Unmatched => SlotFailsExactly(t, log, arg, error);
    }
  }

  // ---- the whole command line ----

  /** Steps that take the arguments from current to stop and lead from one log to another. */
  ghost predicate LeadsTo(t: Table, log: Log, args: seq<string>, steps: seq<Step>, last: Log)
    requires TableOk(t)
  {
    && GoesOn(log, last) && Sums(args, NewEntries(log, last), NewLeft(log, last), steps)
    && forall i | 0 <= i < |steps| :: OptionStep(t, steps[i]) || PlainStep(t, steps[i])
  }

  lemma LeadsFirst(t: Table, log: Log, step: Step, next: Log, args: seq<string>, steps: seq<Step>, last: Log)
    requires TableOk(t) && LeadsTo(t, next, args, steps, last) && GoesOn(log, next)
    requires step.entries == NewEntries(log, next) && step.left == NewLeft(log, next)
    requires OptionStep(t, step) || PlainStep(t, step)
    ensures LeadsTo(t, log, step.tokens + args, [step] + steps, last)
  {
    hide TableOk, OptionStep, PlainStep, Sums, GoesOn, NewEntries, NewLeft;
    GoesOnTwice(log, next, last);
    StepFirst(step, args, NewEntries(next, last), NewLeft(next, last), steps);
  }

  lemma LeadsNowhere(t: Table, log: Log)
    requires TableOk(t)
    ensures LeadsTo(t, log, [], [], log)
  {
    hide TableOk;
  }

  /** The argument in front of "--" that is at fault, behind steps that were taken. */
  lemma {:induction false} FrontFails(t: Table, log: Log, argv: seq<string>, current: nat, error: ParseError)
    returns (steps: seq<Step>, stop: nat, last: Log)
    requires TableOk(t) && current <= |argv| && TakeAll(t, log, argv, current) == Error(error)
    ensures current <= stop < |argv| && argv[stop] != "--" && LeadsTo(t, log, argv[current..stop], steps, last)
    ensures ArgumentFails(t, last, argv, stop, error)
    decreases |argv| - current
  {
    hide TableOk, TakeOne, LeadsTo, ArgumentFails, OptionStep, GoesOn, NewEntries, NewLeft;
    OneFailsExactly(t, log, argv, current, error);
    if TakeOne(t, log, argv, current).Error? {
      steps, stop, last := [], current, log;
      LeadsNowhere(t, log);
      assert argv[current..current] == [];
    } else {
      var (next, end) := TakeOne(t, log, argv, current).value;
      OneExplained(t, log, argv, current);
      var step := StepAt(log, next, argv, current, end);
      var more;
      more, stop, last := FrontFails(t, next, argv, end + 1, error);
      steps := [step] + more;
      LeadsFirst(t, log, step, next, argv[end + 1..stop], more, last);
      assert argv[current..stop] == argv[current..end + 1] + argv[end + 1..stop];
    }
  }

  /** Behind "--" an argument that no slot accepts. */
  lemma {:induction false} BackFails(t: Table, log: Log, rest: seq<string>, error: ParseError)
    returns (steps: seq<Step>, n: nat, last: Log)
    requires TableOk(t) && TakeRest(t, log, rest) == Error(error)
    ensures n < |rest| && LeadsTo(t, log, rest[..n], steps, last)
    ensures SlotFails(t, last.entries, last.next, rest[n], error)
    decreases |rest|
  {
    hide TableOk, TakePositional, LeadsTo, SlotFails, PlainStep, GoesOn, NewEntries, NewLeft;
    SlotFailsExactly(t, log, rest[0], error);
    if TakePositional(t, log, rest[0]).Error? {
      steps, n, last := [], 0, log;
      LeadsNowhere(t, log);
      assert rest[..0] == [];
    } else {
      var next := TakePositional(t, log, rest[0]).value.1;
      PositionalExplained(t, log, rest[0]);
      var step := Step([rest[0]], NewEntries(log, next), []);
      var more, m;
      more, m, last := BackFails(t, next, rest[1..], error);
      steps, n := [step] + more, m + 1;
      LeadsFirst(t, log, step, next, rest[1..][..m], more, last);
      assert rest[..n] == [rest[0]] + rest[1..][..m];
    }
  }

  /** Where a command line is refused: at one of its arguments, behind others that were all accounted for; or, when
      all in front of "--" were, at a default; or at an argument behind "--". */
  lemma {:induction false} RefusedAt(t: Table, argv: seq<string>, error: ParseError)
    returns (steps: seq<Step>, stop: nat, log: Log, more: seq<Step>, n: nat, last: Log)
    requires TableOk(t) && |argv| > 0 && ParseLog(t, argv) == Error(error)
    ensures 1 <= stop <= |argv| && LeadsTo(t, NO_LOG, argv[1..stop], steps, log)
    ensures stop < |argv| && argv[stop] != "--" ==> ArgumentFails(t, log, argv, stop, error)
    ensures stop == |argv| || argv[stop] == "--" ==>
      if !DefaultsOk(t, log.entries) then error == IncorrectType
      else
        && stop < n < |argv| && LeadsTo(t, log, argv[stop + 1..n], more, last)
        && SlotFails(t, last.entries, last.next, argv[n], error)
  {
    hide TableOk, TakeAll, TakeRest, DefaultsOk, LeadsTo, ArgumentFails, SlotFails;
    AllStays(t, NO_LOG, argv, 1);
    more, n, last := [], 0, NO_LOG;
    if TakeAll(t, NO_LOG, argv, 1).Error? {
      steps, stop, log := FrontFails(t, NO_LOG, argv, 1, error);
    } else {
      var (front, end) := TakeAll(t, NO_LOG, argv, 1).value;
      log := front;
      steps, stop := FrontLeads(t, NO_LOG, argv, 1);
      if DefaultsOk(t, log.entries) {
        NothingRefused(t, log);
        var k;
        more, k, last := BackFails(t, log, argv[end..], error);
        n := end + k;
        assert argv[end..][..k] == argv[end..n];
      }
    }
  }

  lemma NothingRefused(t: Table, log: Log)
    requires TableOk(t)
    ensures TakeRest(t, log, []) == Ok(log)
  {
  }

  lemma FrontLeads(t: Table, log: Log, argv: seq<string>, current: nat) returns (steps: seq<Step>, stop: nat)
    requires TableOk(t) && current <= |argv| && TakeAll(t, log, argv, current).Ok?
    ensures var (next, end) := TakeAll(t, log, argv, current).value;
      && current <= stop <= end <= |argv| && LeadsTo(t, log, argv[current..stop], steps, next)
      && (if stop < |argv| then argv[stop] == "--" && end == stop + 1 else end == stop)
  {
    hide TableOk, TakeAll, OptionStep, GoesOn, NewEntries, NewLeft, Sums;
    steps, stop := FrontExplained(t, log, argv, current);
    var end := TakeAll(t, log, argv, current).value.1;
    if stop < |argv| { assert argv[stop..end][0] == argv[stop] && |argv[stop..end]| == 1; }
    if stop == |argv| { assert |argv[stop..end]| == 0; }
  }
}
