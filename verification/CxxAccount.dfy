/** What becomes of every argument of a command line: it named options, was the value of one, went to a positional slot,
    was left over, or was the "--" that ends the options. */
module CxxAccount {
  import opened Text
  import opened CxxSpec

  /** Arguments that belong together, the options that were logged for them, and what nobody took of them. */
  datatype Step = Step(tokens: seq<string>, entries: seq<Entry>, left: seq<string>)

  ghost predicate IsListed(t: Table, id: nat) {
    exists k :: 0 <= k < |t.positional| && t.positional[k] in t.options && t.options[t.positional[k]] == id
  }

  /** An argument that goes to a positional slot, or is left over, as it stands. */
  ghost predicate PlainStep(t: Table, step: Step) {
    && |step.tokens| == 1
    && if step.entries == [] then step.left == step.tokens
       else
         && step.left == [] && |step.entries| == 1
         && step.entries[0].value == step.tokens[0] && IsListed(t, step.entries[0].id)
  }

  /** An option without a value of its own: its implicit value, or the argument behind it. */
  predicate ValueStep(t: Table, id: nat, more: seq<string>, entries: seq<Entry>)
    requires id < |t.details|
  {
    var implicit := t.details[id].implicit;
    if implicit.Some? then more == [] && entries == [Entry(id, implicit.value)]
    else |more| == 1 && entries == [Entry(id, more[0])]
  }

  /** The letters of a group: flags, unknown letters, and last an option with what is left of the letters or with the
      argument behind them. */
  predicate GroupStep(t: Table, s: string, more: seq<string>, entries: seq<Entry>, left: seq<string>)
    requires forall name | name in t.options :: t.options[name] < |t.details|
  {
    if s == "" then more == [] && entries == [] && left == []
    else
      var name := [s[0]];
      if name !in t.options then
        t.allowUnrecognised && left != [] && left[0] == "-" + name && GroupStep(t, s[1..], more, entries, left[1..])
      else
        var id := t.options[name];
        var implicit := t.details[id].implicit;
        if |s| == 1 then left == [] && ValueStep(t, id, more, entries)
        else if implicit.Some? then
          entries != [] && entries[0] == Entry(id, implicit.value) && GroupStep(t, s[1..], more, entries[1..], left)
        else more == [] && left == [] && entries == [Entry(id, s[1..])]
  }

  /** One argument in front of "--", with the value behind it if it takes one. */
  ghost predicate OptionStep(t: Table, step: Step)
    requires TableOk(t)
  {
    && step.tokens != []
    && match ParseArgument(step.tokens[0])
       case Unmatched => PlainStep(t, step)
         && (|step.tokens[0]| > 1 && step.tokens[0][0] == '-' ==> t.allowUnrecognised)
       case Group(letters) => GroupStep(t, letters, step.tokens[1..], step.entries, step.left)
       case Long(name, setValue, value) =>
         if name !in t.options then t.allowUnrecognised && |step.tokens| == 1 && step.entries == []
           && step.left == step.tokens
         else if setValue then |step.tokens| == 1 && step.left == [] && step.entries == [Entry(t.options[name], value)]
         else step.left == [] && ValueStep(t, t.options[name], step.tokens[1..], step.entries)
  }

  function Tokens(steps: seq<Step>): seq<string> { if steps == [] then [] else steps[0].tokens + Tokens(steps[1..]) }

  function Logged(steps: seq<Step>): seq<Entry> { if steps == [] then [] else steps[0].entries + Logged(steps[1..]) }

  function LeftOver(steps: seq<Step>): seq<string> { if steps == [] then [] else steps[0].left + LeftOver(steps[1..]) }

  /** The arguments are those of the steps, in order and each in one step, but for the "--" between the steps before and
      after it; and the log holds just what the steps give. */
  ghost predicate Accounts(t: Table, args: seq<string>, log: Log, front: seq<Step>, mark: seq<string>, back: seq<Step>)
    requires TableOk(t)
  {
    && args == Tokens(front) + mark + Tokens(back)
    && (mark == ["--"] || (mark == [] && back == []))
    && log.entries == Logged(front) + Logged(back)
    && log.unmatched == LeftOver(front) + LeftOver(back)
    && (forall i | 0 <= i < |front| :: front[i].tokens != [] && front[i].tokens[0] != "--" && OptionStep(t, front[i]))
    && (forall i | 0 <= i < |back| :: PlainStep(t, back[i]))
  }

  // ---- one argument ----

  /** The later log goes on from the earlier one. */
  predicate GoesOn(log: Log, next: Log) { log.entries <= next.entries && log.unmatched <= next.unmatched }

  function NewEntries(log: Log, next: Log): seq<Entry>
    requires GoesOn(log, next)
  {
    next.entries[|log.entries|..]
  }

  function NewLeft(log: Log, next: Log): seq<string>
    requires GoesOn(log, next)
  {
    next.unmatched[|log.unmatched|..]
  }

  lemma GoesOnTwice(a: Log, b: Log, c: Log)
    requires GoesOn(a, b) && GoesOn(b, c)
    ensures GoesOn(a, c) && NewEntries(a, c) == NewEntries(a, b) + NewEntries(b, c)
      && NewLeft(a, c) == NewLeft(a, b) + NewLeft(b, c)
  {
  }

  lemma Same(log: Log)
    ensures GoesOn(log, log) && NewEntries(log, log) == [] && NewLeft(log, log) == []
  {
  }

  /** An option that is taken. */
  lemma TakenIs(t: Table, log: Log, id: nat, value: string)
    requires id < |t.details|
    ensures var r := Take(t, log, id, value); r.Ok? ==>
      GoesOn(log, r.value) && NewEntries(log, r.value) == [Entry(id, value)] && NewLeft(log, r.value) == []
  {
  }

  lemma LeftIs(log: Log, a: string)
    ensures var next := log.(unmatched := log.unmatched + [a]);
      GoesOn(log, next) && NewEntries(log, next) == [] && NewLeft(log, next) == [a]
  {
  }

  lemma ArgumentExplained(t: Table, log: Log, id: nat, argv: seq<string>, current: nat)
    requires id < |t.details| && current < |argv|
    ensures var r := TakeArgument(t, log, id, argv, current); r.Ok? ==>
      && current <= r.value.1 < |argv|
      && GoesOn(log, r.value.0) && NewLeft(log, r.value.0) == []
      && ValueStep(t, id, argv[current + 1..r.value.1 + 1], NewEntries(log, r.value.0))
  {
    hide Take, GoesOn, NewEntries, NewLeft;
    var implicit := t.details[id].implicit;
    if implicit.Some? {
      TakenIs(t, log, id, implicit.value);
    } else if current + 1 < |argv| {
      TakenIs(t, log, id, argv[current + 1]);
      assert argv[current + 1..current + 2] == [argv[current + 1]];
    }
  }

  lemma {:induction false} PositionalExplained(t: Table, log: Log, a: string)
    requires TableOk(t)
    ensures var r := TakePositional(t, log, a); r.Ok? ==>
      && GoesOn(log, r.value.1) && NewLeft(log, r.value.1) == []
      && if r.value.0 then PlainStep(t, Step([a], NewEntries(log, r.value.1), [])) else NewEntries(log, r.value.1) == []
    decreases |t.positional| - log.next
  {
    hide TableOk, Take, CountOf;
    if log.next < |t.positional| && t.positional[log.next] in t.options {
      NamedIsOption(t, t.positional[log.next]);
      var id := t.options[t.positional[log.next]];
      TakenIs(t, log, id, a);
      if !t.details[id].isContainer && CountOf(log.entries, id) != 0 {
        PositionalExplained(t, log.(next := log.next + 1), a);
      }
    }
  }

  lemma NamedIsOption(t: Table, name: string)
    requires TableOk(t) && name in t.options
    ensures t.options[name] < |t.details|
  {
  }

  lemma {:induction false} PlainExplained(t: Table, log: Log, a: string)
    requires TableOk(t)
    ensures var r := TakeOrLeave(t, log, a); r.Ok? ==>
      GoesOn(log, r.value) && PlainStep(t, Step([a], NewEntries(log, r.value), NewLeft(log, r.value)))
  {
    hide TableOk, TakePositional, IsListed;
    PositionalExplained(t, log, a);
  }

  lemma UnknownLetter(t: Table, s: string, more: seq<string>, entries: seq<Entry>, left: seq<string>)
    requires TableOk(t) && s != "" && [s[0]] !in t.options && t.allowUnrecognised
      && GroupStep(t, s[1..], more, entries, left)
    ensures GroupStep(t, s, more, entries, ["-" + [s[0]]] + left)
  {
    hide ValueStep;
    assert (["-" + [s[0]]] + left)[1..] == left;
  }

  lemma FlagLetter(t: Table, s: string, more: seq<string>, entries: seq<Entry>, left: seq<string>)
    requires TableOk(t) && |s| > 1 && [s[0]] in t.options && t.details[t.options[[s[0]]]].implicit.Some?
    requires GroupStep(t, s[1..], more, entries, left)
    ensures var id := t.options[[s[0]]]; GroupStep(t, s, more, [Entry(id, t.details[id].implicit.value)] + entries,
      left)
  {
    hide ValueStep;
    var id := t.options[[s[0]]];
    assert ([Entry(id, t.details[id].implicit.value)] + entries)[1..] == entries;
  }

  lemma LastLetter(t: Table, s: string, more: seq<string>, entries: seq<Entry>)
    requires TableOk(t) && s != "" && [s[0]] in t.options
    requires var id := t.options[[s[0]]];
      if |s| == 1 then ValueStep(t, id, more, entries)
      else t.details[id].implicit.None? && more == [] && entries == [Entry(id, s[1..])]
    ensures GroupStep(t, s, more, entries, [])
  {
    hide ValueStep;
  }

  lemma NoLetter(t: Table)
    requires TableOk(t)
    ensures GroupStep(t, "", [], [], [])
  {
  }

  lemma {:induction false} GroupExplained(t: Table, log: Log, s: string, i: nat, argv: seq<string>, current: nat)
    requires TableOk(t) && i <= |s| && current < |argv|
    ensures var r := TakeGroup(t, log, s, i, argv, current); r.Ok? ==>
      && current <= r.value.1 < |argv| && GoesOn(log, r.value.0)
      && GroupStep(t, s[i..], argv[current + 1..r.value.1 + 1], NewEntries(log, r.value.0), NewLeft(log, r.value.0))
    decreases |s| - i
  {
    hide Take, TakeArgument, GoesOn, NewEntries, NewLeft, ValueStep, GroupStep, TableOk;
    var r := TakeGroup(t, log, s, i, argv, current);
    if i == |s| {
      Same(log);
      NoLetter(t);
      assert s[i..] == "" && argv[current + 1..current + 1] == [];
    } else if r.Ok? {
      var name, rest := [s[i]], s[i..];
      assert rest[0] == s[i] && rest[1..] == s[i + 1..];
      if name !in t.options {
        var next := log.(unmatched := log.unmatched + ["-" + name]);
        LeftIs(log, "-" + name);
        GroupExplained(t, next, s, i + 1, argv, current);
        GoesOnTwice(log, next, r.value.0);
        UnknownLetter(t, rest, argv[current + 1..r.value.1 + 1], NewEntries(next, r.value.0), NewLeft(next, r.value.0));
        Regroup(NewEntries(next, r.value.0), [], []);
      } else {
        var id := t.options[name];
        NamedIsOption(t, name);
        if i + 1 == |s| {
          ArgumentExplained(t, log, id, argv, current);
          LastLetter(t, rest, argv[current + 1..r.value.1 + 1], NewEntries(log, r.value.0));
        } else if t.details[id].implicit.Some? {
          TakenIs(t, log, id, t.details[id].implicit.value);
          var next := Take(t, log, id, t.details[id].implicit.value).value;
          GroupExplained(t, next, s, i + 1, argv, current);
          GoesOnTwice(log, next, r.value.0);
          FlagLetter(t, rest, argv[current + 1..r.value.1 + 1], NewEntries(next, r.value.0), NewLeft(next, r.value.0));
          Regroup(NewLeft(next, r.value.0), [], []);
        } else {
          TakenIs(t, log, id, s[i + 1..]);
          LastLetter(t, rest, [], NewEntries(log, r.value.0));
          assert argv[current + 1..current + 1] == [];
        }
      }
    }
  }

  /** What one argument did. */
  function StepAt(log: Log, next: Log, argv: seq<string>, current: nat, last: nat): Step
    requires GoesOn(log, next) && current <= last < |argv|
  {
    Step(argv[current..last + 1], NewEntries(log, next), NewLeft(log, next))
  }

  lemma {:induction false} OneExplained(t: Table, log: Log, argv: seq<string>, current: nat)
    requires TableOk(t) && current < |argv|
    ensures var r := TakeOne(t, log, argv, current); r.Ok? ==>
      && current <= r.value.1 < |argv| && GoesOn(log, r.value.0)
      && OptionStep(t, StepAt(log, r.value.0, argv, current, r.value.1))
  {
    hide Take, TakeArgument, TakeGroup, TakeOrLeave, GoesOn, NewEntries, NewLeft, ValueStep, PlainStep, TableOk;
    hide GroupStep, ParseArgument;
    var r := TakeOne(t, log, argv, current);
    if r.Ok? {
      var arg := argv[current];
      assert argv[current..current + 1] == [arg];
      match ParseArgument(arg) {
        case Unmatched =>
          PlainExplained(t, log, arg);
        case Group(letters) =>
          GroupExplained(t, log, letters, 0, argv, current);
          assert letters[0..] == letters;
          assert argv[current..r.value.1 + 1][1..] == argv[current + 1..r.value.1 + 1];
        case Long(name, setValue, value) =>
          if name !in t.options {
            LeftIs(log, arg);
          } else if setValue {
            NamedIsOption(t, name);
            TakenIs(t, log, t.options[name], value);
          } else {
            NamedIsOption(t, name);
            ArgumentExplained(t, log, t.options[name], argv, current);
            assert argv[current..r.value.1 + 1][1..] == argv[current + 1..r.value.1 + 1];
          }
      }
    }
  }

  // ---- the whole command line ----

  /** Steps that account for some arguments and what became of them. */
  predicate Sums(args: seq<string>, entries: seq<Entry>, left: seq<string>, steps: seq<Step>) {
    args == Tokens(steps) && entries == Logged(steps) && left == LeftOver(steps)
  }

  lemma NoSteps()
    ensures Sums([], [], [], [])
  {
  }

  lemma StepFirst(step: Step, args: seq<string>, entries: seq<Entry>, left: seq<string>, steps: seq<Step>)
    requires Sums(args, entries, left, steps)
    ensures Sums(step.tokens + args, step.entries + entries, step.left + left, [step] + steps)
  {
    assert ([step] + steps)[1..] == steps;
  }

  /** The steps before the "--", where they stop, and what ends them. */
  lemma {:induction false} FrontExplained(t: Table, log: Log, argv: seq<string>, current: nat)
    returns (steps: seq<Step>, stop: nat)
    requires TableOk(t) && current <= |argv| && TakeAll(t, log, argv, current).Ok?
    ensures var (next, end) := TakeAll(t, log, argv, current).value;
      && GoesOn(log, next) && current <= stop <= end <= |argv|
      && argv[stop..end] == (if stop < |argv| then ["--"] else [])
      && Sums(argv[current..stop], NewEntries(log, next), NewLeft(log, next), steps)
    ensures forall i | 0 <= i < |steps| ::
      steps[i].tokens != [] && steps[i].tokens[0] != "--" && OptionStep(t, steps[i])
    decreases |argv| - current
  {
    hide TakeOne, OptionStep, GoesOn, NewEntries, NewLeft, TableOk, Sums;
    if current == |argv| || argv[current] == "--" {
      steps, stop := [], current;
      NoSteps();
      Same(log);
      assert argv[current..current] == [];
      if current < |argv| { assert argv[current..current + 1] == ["--"]; }
    } else {
      OneExplained(t, log, argv, current);
      var (next, last) := TakeOne(t, log, argv, current).value;
      var step := StepAt(log, next, argv, current, last);
      var more;
      more, stop := FrontExplained(t, next, argv, last + 1);
      var all := TakeAll(t, log, argv, current).value.0;
      steps := [step] + more;
      GoesOnTwice(log, next, all);
      StepFirst(step, argv[last + 1..stop], NewEntries(next, all), NewLeft(next, all), more);
      assert argv[current..stop] == argv[current..last + 1] + argv[last + 1..stop];
    }
  }

  /** Leftovers are steps of their own. */
  lemma {:induction false} LeftExplained(t: Table, rest: seq<string>) returns (steps: seq<Step>)
    ensures Sums(rest, [], rest, steps) && forall i | 0 <= i < |steps| :: PlainStep(t, steps[i])
    decreases |rest|
  {
    hide Sums;
    steps := [];
    if rest == [] {
      NoSteps();
    } else {
      var more := LeftExplained(t, rest[1..]);
      var step := Step([rest[0]], [], [rest[0]]);
      StepFirst(step, rest[1..], [], rest[1..], more);
      assert [rest[0]] + rest[1..] == rest;
      steps := [step] + more;
    }
  }

  lemma {:induction false} BackExplained(t: Table, log: Log, rest: seq<string>) returns (steps: seq<Step>)
    requires TableOk(t) && TakeRest(t, log, rest).Ok?
    ensures var next := TakeRest(t, log, rest).value;
      GoesOn(log, next) && Sums(rest, NewEntries(log, next), NewLeft(log, next), steps)
    ensures (rest == [] ==> steps == []) && forall i | 0 <= i < |steps| :: PlainStep(t, steps[i])
    decreases |rest|
  {
    hide TakePositional, PlainStep, GoesOn, NewEntries, NewLeft, TableOk, Sums;
    steps := [];
    if rest == [] {
      NoSteps();
      Same(log);
    } else {
      PositionalExplained(t, log, rest[0]);
      var (taken, next) := TakePositional(t, log, rest[0]).value;
      var all := TakeRest(t, log, rest).value;
      if taken {
        var more := BackExplained(t, next, rest[1..]);
        var step := Step([rest[0]], NewEntries(log, next), []);
        GoesOnTwice(log, next, all);
        StepFirst(step, rest[1..], NewEntries(next, all), NewLeft(next, all), more);
        assert [rest[0]] + rest[1..] == rest;
        steps := [step] + more;
      } else {
        steps := LeftExplained(t, rest);
        AllLeft(log, next, rest);
      }
    }
  }

  lemma AllLeft(log: Log, next: Log, rest: seq<string>)
    requires GoesOn(log, next) && NewEntries(log, next) == [] && NewLeft(log, next) == []
    ensures var all := next.(unmatched := next.unmatched + rest);
      GoesOn(log, all) && NewEntries(log, all) == [] && NewLeft(log, all) == rest
  {
  }

  /** Every argument of a command line that is parsed is accounted for, in order, and so is every option in the log and
      everything left over. */
  lemma {:induction false} ArgumentsAccounted(t: Table, argv: seq<string>)
    requires TableOk(t) && |argv| > 0 && ParseLog(t, argv).Ok?
    ensures exists front, mark, back :: Accounts(t, argv[1..], ParseLog(t, argv).value, front, mark, back)
  {
    hide TakeAll, TakeRest, DefaultsOk, OptionStep, PlainStep, TableOk, Tokens, Logged, LeftOver;
    AllStays(t, NO_LOG, argv, 1);
    var (next, end) := TakeAll(t, NO_LOG, argv, 1).value;
    var log := ParseLog(t, argv).value;
    var front, stop := FrontExplained(t, NO_LOG, argv, 1);
    var back := BackExplained(t, next, argv[end..]);
    var mark := argv[stop..end];
    assert argv[1..] == argv[1..stop] + mark + argv[end..];
    if mark == [] { assert argv[end..] == []; }
    assert next.entries + NewEntries(next, log) == log.entries && next.unmatched + NewLeft(next, log) == log.unmatched;
    assert Accounts(t, argv[1..], log, front, mark, back);
  }
}
