/** Runs of an App as sequences of steps. */
module CliAppSteps {
  import opened Text
  import opened Results
  import opened CliConfigValue
  import opened CliConfigLines
  import opened CliAppSpec
  import opened CliApp
  import opened CliAppForms
  import opened CliAppBlocks

  // ---- positionals ----

  predicate SomeOpen(s: Settings, events: seq<Event>, text: string, requiredOnly: bool) {
    exists i | 0 <= i < |s.options| :: IsOpen(s, events, i, text, requiredOnly)
  }

  predicate IsFirstOpen(s: Settings, events: seq<Event>, i: nat, text: string, requiredOnly: bool) {
    && i < |s.options| && IsOpen(s, events, i, text, requiredOnly)
    && forall k | 0 <= k < i :: !IsOpen(s, events, k, text, requiredOnly)
  }

  /** With positionals at the end and no argument to spare the required ones go first. */
  predicate OnlyRequired(s: Settings, st: State)
    requires st.args != []
  {
    s.positionalsAtEnd && |st.args| <= RemainingRequired(s, st.events, 0) && SomeOpen(s, st.events, st.Top(), true)
  }

  lemma SlotIsFirst(s: Settings, st: State)
    requires st.args != []
    ensures var i := Slot(s, st.events, st.args);
      && (i < |s.options| ==> IsFirstOpen(s, st.events, i, st.Top(), OnlyRequired(s, st)))
      && (i == |s.options| ==> !SomeOpen(s, st.events, st.Top(), false))
  {
    hide IsOpen, RemainingRequired, FirstOpen;
    var i := FirstOpen(s, st.events, st.Top(), true, 0);
    if i < |s.options| { assert IsOpen(s, st.events, i, st.Top(), true); }
  }

  // ---- steps ----

  /** What one step does: an option takes its texts, a positional takes an argument, an argument that no positional
      takes is left over (with all that follow when they belong to another command), an argument looks like an
      option that does not exist, or the mark says that only positionals follow. */
  datatype Step =
    | OptionStep(taken: Taken)
    | PositionalStep(option: nat, token: string, separated: bool)
    | LeftStep(tokens: seq<string>)
    | UnknownStep(kind: Classifier, token: string)
    | MarkStep

  ghost predicate IsStep(s: Settings, st: State, only: bool, step: Step) {
    && st.args != []
    && var plain := only || Recognize(s, st.Top()) == NoOption;
    match step
    case OptionStep(t) => !plain && t.token == st.Top() && IsTaken(s, st, t)
    case PositionalStep(i, token, separated) =>
      && plain && token == st.Top() && IsFirstOpen(s, st.events, i, token, OnlyRequired(s, st))
      && var results := ResultsOf(s, st.events, i);
         separated == (s.options[i].injectSeparator && results != [] && results[|results| - 1] != "")
    case LeftStep(tokens) =>
      && plain && !s.positionalsAtEnd && !SomeOpen(s, st.events, st.Top(), false)
      && tokens == if s.prefixCommand then Stacked(st.args) else [st.Top()]
    case UnknownStep(kind, token) =>
      && !plain && kind == Recognize(s, token) && kind != PositionalMark && token == st.Top()
      && forall i: nat, split :: !Names(s, token, i, split)
    case MarkStep => !only && st.Top() == "--"
  }

  function MissedEvents(kind: Classifier, tokens: seq<string>): seq<Event> {
    seq(|tokens|, k requires 0 <= k < |tokens| => Missed(kind, tokens[k]))
  }

  function Popped(args: seq<string>, n: nat): seq<string> { if n <= |args| then args[..|args| - n] else [] }

  function AfterStep(st: State, step: Step): State {
    match step
    case OptionStep(t) => AfterTaken(st, t)
    case PositionalStep(i, token, separated) =>
      State(Popped(st.args, 1), st.events + (if separated then [Filled(i)] else []) + [Given(i, token)])
    case LeftStep(tokens) => State(Popped(st.args, |tokens|), st.events + MissedEvents(NoOption, tokens))
    case UnknownStep(kind, token) => State(Popped(st.args, 1), st.events + [Missed(kind, token)])
    case MarkStep => State(Popped(st.args, 1), st.events + [Missed(PositionalMark, "--")])
  }

  /** Behind the mark, or with positionals at the end behind the first of them, only positionals follow. */
  function OnlyAfter(s: Settings, only: bool, step: Step): bool {
    match step
    case MarkStep => true
    case PositionalStep(_, _, _) => only || s.positionalsAtEnd
    case LeftStep(_) => only || s.positionalsAtEnd
    case _ => only
  }

  lemma {:induction false} AllMissed(st: State)
    ensures MissAll(st) == State([], st.events + MissedEvents(NoOption, Stacked(st.args)))
    decreases |st.args|
  {
    if st.args != [] {
      var n, next := |st.args| - 1, st.Pop(Missed(NoOption, st.Top()));
      AllMissed(next);
      assert Stacked(st.args) == [st.Top()] + Stacked(next.args);
      assert MissedEvents(NoOption, Stacked(st.args)) ==
        [Missed(NoOption, st.Top())] + MissedEvents(NoOption, Stacked(next.args));
    }
  }

  /** Why the run stops at a state. */
  ghost predicate StopsAt(s: Settings, st: State, only: bool, t: Taken, error: ParseError) {
    && st.args != []
    && var plain := only || Recognize(s, st.Top()) == NoOption;
    if plain then error == Extras && s.positionalsAtEnd && !SomeOpen(s, st.events, st.Top(), false)
    else t.token == st.Top() && Fails(s, st, t, error)
  }

  lemma {:induction false} PositionalExplained(s: Settings, st: State, only: bool) returns (step: Step)
    requires st.args != [] && (only || Recognize(s, st.Top()) == NoOption)
    ensures match ParsePositional(s, st)
      case Ok(next) => IsStep(s, st, only, step) && next == AfterStep(st, step)
        && (step.PositionalStep? || step.LeftStep?)
      case Error(e) => e == Extras && s.positionalsAtEnd && !SomeOpen(s, st.events, st.Top(), false)
  {
    hide Slot, SomeOpen, IsFirstOpen, ResultsOf, Recognize, OnlyRequired;
    SlotIsFirst(s, st);
    var i := Slot(s, st.events, st.args);
    if i < |s.options| {
      step := PositionalStep(i, st.Top(), Separated(s, st, i) != st);
    } else {
      var next := st.Pop(Missed(NoOption, st.Top()));
      AllMissed(next);
      AllMissed(st);
      step := LeftStep(if s.prefixCommand then Stacked(st.args) else [st.Top()]);
    }
  }

  lemma {:induction false} StepExplained(s: Settings, st: State, only: bool) returns (step: Step, t: Taken)
    requires st.args != []
    ensures match ParseSingle(s, st, only)
      case Ok(next) => IsStep(s, st, only, step) && next == (AfterStep(st, step), OnlyAfter(s, only, step))
      case Error(e) => StopsAt(s, st, only, t, e)
  {
    hide Recognize, ParsePositional, ParseArg, TrySplit, Addressed, Names, IsTaken, Fails, AfterTaken;
    RecognizedSplits(s, st.Top());
    ClassesOf(s, st.Top());
    var kind := if only then NoOption else Recognize(s, st.Top());
    step := MarkStep;
    t := Taken("", 0, Split("", "", ""), false, [], [], [], [], false, [], false, "");
    if kind == NoOption {
      step := PositionalExplained(s, st, only);
    } else if kind != PositionalMark {
      if Addressed(s, kind, st.Top()).0 < |s.options| {
        t := OptionTakes(s, st);
        step := OptionStep(t);
      } else {
        step := UnknownStep(kind, st.Top());
        forall i: nat, split ensures !Names(s, st.Top(), i, split) { AddressedNames(s, st.Top(), i, split); }
        UnknownMissed(s, st, kind);
      }
    }
  }

  lemma UnknownMissed(s: Settings, st: State, kind: Classifier)
    requires st.args != [] && TrySplit(kind, st.Top()).Some? && Addressed(s, kind, st.Top()).0 == |s.options|
    ensures ParseArg(s, st, kind) == Ok(st.Pop(Missed(kind, st.Top())))
  {
    hide Addressed;
  }

  // ---- runs ----

  function Final(st: State, steps: seq<Step>): State
    decreases |steps|
  {
    if steps == [] then st else Final(AfterStep(st, steps[0]), steps[1..])
  }

  function FinalOnly(s: Settings, only: bool, steps: seq<Step>): bool
    decreases |steps|
  {
    if steps == [] then only else FinalOnly(s, OnlyAfter(s, only, steps[0]), steps[1..])
  }

  ghost predicate IsRun(s: Settings, st: State, only: bool, steps: seq<Step>)
    decreases |steps|
  {
    steps == [] || (IsStep(s, st, only, steps[0])
                    && IsRun(s, AfterStep(st, steps[0]), OnlyAfter(s, only, steps[0]), steps[1..]))
  }

  /** Every run is a sequence of steps that uses up all arguments, or one that ends where it has to stop. */
  lemma {:induction false} RunExplained(s: Settings, st: State, only: bool) returns (steps: seq<Step>, t: Taken)
    ensures IsRun(s, st, only, steps)
    ensures var last := Final(st, steps);
      match Run(s, st, only)
      case Ok(after) => after == last && after.args == []
      case Error(e) => StopsAt(s, last, FinalOnly(s, only, steps), t, e)
    decreases Size(st.args)
  {
    hide ParseSingle, IsStep, AfterStep, OnlyAfter, StopsAt, Size;
    steps := [];
    t := Taken("", 0, Split("", "", ""), false, [], [], [], [], false, [], false, "");
    if st.args != [] {
      SingleShrinks(s, st, only);
      var step;
      step, t := StepExplained(s, st, only);
      if ParseSingle(s, st, only).Ok? {
        var rest;
        rest, t := RunExplained(s, AfterStep(st, step), OnlyAfter(s, only, step));
        steps := [step] + rest;
        assert steps[1..] == rest;
      }
    }
  }

  // ---- what holds of all runs ----

  /** A text that comes with a name: what stands behind it, or the value that the option has for it. */
  predicate ComesWith(o: Choice, split: Split, text: string) {
    IsAttached(o, split, [text]) || IsFlagValue(o, split.name, "", [text])
  }

  ghost predicate FromName(s: Settings, events: seq<Event>, k: nat)
    requires k < |events| && events[k].Supplied?
  {
    exists j, split ::
      && 0 <= j < k && events[j].Named? && (forall m | j < m < k :: !events[m].Named?)
      && Names(s, events[j].token, events[k].option, split) && events[k].option < |s.options|
      && ComesWith(s.options[events[k].option], split, events[k].text)
  }

  ghost predicate AllFromNames(s: Settings, events: seq<Event>) {
    forall k | 0 <= k < |events| && events[k].Supplied? :: FromName(s, events, k)
  }

  /** No name, and only texts that come with this one. */
  predicate Behind(o: Choice, i: nat, split: Split, events: seq<Event>) {
    forall m | 0 <= m < |events| ::
      !events[m].Named? && (events[m].Supplied? ==> events[m].option == i && ComesWith(o, split, events[m].text))
  }

  lemma TextsBehind(o: Choice, i: nat, split: Split, texts: seq<string>)
    requires texts == [] || IsAttached(o, split, texts) || IsFlagValue(o, split.name, "", texts)
    ensures Behind(o, i, split, SuppliedEvents(i, texts))
  {
    hide MaxNum;
    if texts != [] { assert texts == [texts[0]]; }
  }

  lemma BehindAll(t: Taken, o: Choice, i: nat, split: Split)
    requires Behind(o, i, split, SuppliedEvents(t.option, t.attached))
    requires Behind(o, i, split, SuppliedEvents(t.option, t.byDefault))
    ensures |t.Events()| > 0 && t.Events()[0] == Named(t.token) && Behind(o, i, split, t.Events()[1..])
  {
    hide ComesWith, SuppliedEvents, GivenEvents;
    GivenBehind(o, i, split, t.option, t.given);
    GivenBehind(o, i, split, t.option, t.further);
    var events := t.Events();
    assert events[0] == Named(t.token);
    forall m | 0 < m < |events| ensures !events[m].Named? && (events[m].Supplied? ==>
      events[m].option == i && ComesWith(o, split, events[m].text)) {
    }
  }

  lemma GivenBehind(o: Choice, i: nat, split: Split, k: nat, texts: seq<string>)
    ensures Behind(o, i, split, GivenEvents(k, texts))
  {
  }

  lemma EarlierStay(s: Settings, events: seq<Event>, more: seq<Event>, k: nat)
    requires k < |events| && events[k].Supplied? && FromName(s, events, k)
    ensures FromName(s, events + more, k)
  {
    hide Names, ComesWith;
    var all := events + more;
    var j, split :| 0 <= j < k && events[j].Named? && (forall m | j < m < k :: !events[m].Named?)
      && Names(s, events[j].token, events[k].option, split) && events[k].option < |s.options|
      && ComesWith(s.options[events[k].option], split, events[k].text);
    assert all[j] == events[j] && all[k] == events[k] && forall m | j < m < k :: all[m] == events[m];
    assert Names(s, all[j].token, all[k].option, split);
  }

  lemma StepKeepsNames(s: Settings, st: State, only: bool, step: Step)
    requires IsStep(s, st, only, step) && AllFromNames(s, st.events)
    ensures AllFromNames(s, AfterStep(st, step).events)
  {
    hide Names, FromName, IsTaken, ComesWith;
    var all := AfterStep(st, step).events;
    var n := |st.events|;
    var more := all[n..];
    assert all == st.events + more;
    forall k | 0 <= k < |all| && all[k].Supplied? ensures FromName(s, all, k) {
      if k < n {
        EarlierStay(s, st.events, more, k);
      } else {
        NewFromName(s, st, only, step, k);
      }
    }
  }

  lemma NewFromName(s: Settings, st: State, only: bool, step: Step, k: nat)
    requires IsStep(s, st, only, step)
    requires var all := AfterStep(st, step).events; |st.events| <= k < |all| && all[k].Supplied?
    ensures FromName(s, AfterStep(st, step).events, k)
  {
    hide Names, IsTaken, ComesWith, Taken.Events;
    var all, n := AfterStep(st, step).events, |st.events|;
    assert step.OptionStep?;
    var t := step.taken;
    TakenNames(s, st, t);
    BehindAll(t, s.options[t.option], t.option, t.split);
    assert forall m | n < m < |all| :: all[m] == t.Events()[1..][m - n - 1];
    assert all[n] == t.Events()[0] && Names(s, all[n].token, all[k].option, t.split);
  }

  lemma TakenNames(s: Settings, st: State, t: Taken)
    requires IsTaken(s, st, t)
    ensures Names(s, t.token, t.option, t.split) && t.option < |s.options|
    ensures Behind(s.options[t.option], t.option, t.split, SuppliedEvents(t.option, t.attached))
    ensures Behind(s.options[t.option], t.option, t.split, SuppliedEvents(t.option, t.byDefault))
  {
    hide IsLeast, IsFurther, RemainingRequired, ResultsOf, MinNum, MaxNum, Taken.All, Taken.Least, Stacked, IsAttached;
    hide IsFlagValue, SuppliedEvents, Behind, Taken.Front;
    TextsBehind(s.options[t.option], t.option, t.split, t.attached);
    TextsBehind(s.options[t.option], t.option, t.split, t.byDefault);
  }

  lemma {:induction false} StepsKeepNames(s: Settings, st: State, only: bool, steps: seq<Step>)
    requires IsRun(s, st, only, steps) && AllFromNames(s, st.events)
    ensures AllFromNames(s, Final(st, steps).events)
    decreases |steps|
  {
    hide IsStep, AllFromNames, AfterStep, OnlyAfter;
    if steps != [] {
      StepKeepsNames(s, st, only, steps[0]);
      StepsKeepNames(s, AfterStep(st, steps[0]), OnlyAfter(s, only, steps[0]), steps[1..]);
    }
  }

  /** In every run each text that is no argument of its own comes with the last name before it: it is what stands behind
      that name in its argument, or the value that the option has for it. */
  lemma SuppliedFromNames(s: Settings, args: seq<string>)
    ensures var r := Run(s, State(args, []), false); r.Ok? ==> AllFromNames(s, r.value.events)
  {
    hide AllFromNames, IsRun, StopsAt, Run, Final;
    var st := State(args, []);
    var steps, t := RunExplained(s, st, false);
    NoEvents(s);
    StepsKeepNames(s, st, false, steps);
  }

  lemma NoEvents(s: Settings)
    ensures AllFromNames(s, [])
  {
  }

  /** Behind the mark, and with positionals at the end behind the first of them, no argument names an option. */
  lemma {:induction false} OnlyPositionalsFollow(s: Settings, st: State, steps: seq<Step>)
    requires IsRun(s, st, true, steps)
    ensures forall k | 0 <= k < |steps| :: steps[k].PositionalStep? || steps[k].LeftStep?
    decreases |steps|
  {
    hide AfterStep;
    if steps != [] {
      OnlyPositionalsFollow(s, AfterStep(st, steps[0]), steps[1..]);
      assert forall k | 0 < k < |steps| :: steps[k] == steps[1..][k - 1];
    }
  }

  // ---- required positionals ----

  /** Every argument is an item at least, and acceptable to every required positional. */
  ghost predicate AllCount(s: Settings, args: seq<string>) {
    forall a, o | a in args && o in s.options ::
      AddedCount(o, a) > 0 && (o.isPositional && o.required ==> MayTake(s, o, a))
  }

  /** A required positional that does not have its least number of items yet. */
  predicate IsWanting(s: Settings, events: seq<Event>, i: nat) {
    && i < |s.options| && s.options[i].isPositional && s.options[i].required
    && Count(s, events, i) < ItemsMin(s.options[i])
  }

  /** More results mean that less is needed. */
  lemma {:induction false} LessNeeded(s: Settings, before: seq<Event>, after: seq<Event>, from: nat, i: nat)
    requires from <= |s.options| && forall j | 0 <= j < |s.options| :: Count(s, before, j) <= Count(s, after, j)
    ensures RemainingRequired(s, after, from) <= RemainingRequired(s, before, from)
    ensures from <= i && IsWanting(s, before, i) && Count(s, before, i) < Count(s, after, i) ==>
      RemainingRequired(s, after, from) < RemainingRequired(s, before, from)
    decreases |s.options| - from
  {
    hide Count, ItemsMin;
    if from < |s.options| { LessNeeded(s, before, after, from + 1, i); }
  }

  lemma {:induction false} SomeNeeded(s: Settings, events: seq<Event>, text: string, from: nat)
    requires from <= |s.options| && RemainingRequired(s, events, from) > 0
    requires forall o | o in s.options && o.isPositional && o.required :: MayTake(s, o, text)
    ensures SomeOpen(s, events, text, true)
    decreases |s.options| - from
  {
    hide Count, ItemsMin, MayTake;
    if IsWanting(s, events, from) {
      assert IsOpen(s, events, from, text, true);
    } else {
      SomeNeeded(s, events, text, from + 1);
    }
  }

  lemma GivenCounts(s: Settings, events: seq<Event>, separated: bool, i: nat, text: string)
    requires i < |s.options| && AddedCount(s.options[i], text) > 0
    ensures var after := events + (if separated then [Filled(i)] else []) + [Given(i, text)];
      && Count(s, events, i) < Count(s, after, i)
      && forall j | 0 <= j < |s.options| :: Count(s, events, j) <= Count(s, after, j)
  {
    hide ResultsOf, AddedResults;
    var filled := events + if separated then [Filled(i)] else [];
    OneMoreEvent(s, events, Filled(i));
    OneMoreEvent(s, filled, Given(i, text));
    assert separated || filled == events;
  }

  /** One positional step leaves enough arguments for the required positionals when there were enough. */
  lemma EnoughStays(s: Settings, st: State, only: bool, step: Step)
    requires IsStep(s, st, only, step) && s.positionalsAtEnd && AllCount(s, st.args)
    requires only || Recognize(s, st.Top()) == NoOption
    requires RemainingRequired(s, st.events, 0) <= |st.args|
    ensures var next := AfterStep(st, step);
      && RemainingRequired(s, next.events, 0) <= |next.args| && AllCount(s, next.args)
      && OnlyAfter(s, only, step)
  {
    hide RemainingRequired, AddedCount, MayTake, ItemsMin, Count;
    var i, token := step.option, step.token;
    var o, next := s.options[i], AfterStep(st, step);
    assert o in s.options && token in st.args;
    GivenCounts(s, st.events, step.separated, i, token);
    LessNeeded(s, st.events, next.events, 0, i);
    if RemainingRequired(s, st.events, 0) == |st.args| {
      SomeNeeded(s, st.events, token, 0);
    }
  }

  /** With positionals at the end, and from the first of them on at least as many arguments as the required ones need, a
      run that is not stopped gives every required positional all its items, however many optional ones stand before
      them. */
  lemma {:induction false} RequiredFilled(s: Settings, st: State, only: bool, steps: seq<Step>)
    requires IsRun(s, st, only, steps) && Final(st, steps).args == [] && s.positionalsAtEnd && AllCount(s, st.args)
    requires only || st.args == [] || Recognize(s, st.Top()) == NoOption
    requires RemainingRequired(s, st.events, 0) <= |st.args|
    ensures RemainingRequired(s, Final(st, steps).events, 0) == 0
    ensures forall i: nat :: !IsWanting(s, Final(st, steps).events, i)
    decreases |steps|
  {
    hide RemainingRequired, IsStep, AfterStep, OnlyAfter, AllCount, IsWanting, Recognize;
    if steps == [] {
      NothingNeeded(s, st.events, 0);
    } else {
      StepTakesOne(s, st, only, steps[0]);
      EnoughStays(s, st, only, steps[0]);
      RequiredFilled(s, AfterStep(st, steps[0]), true, steps[1..]);
    }
  }

  lemma StepTakesOne(s: Settings, st: State, only: bool, step: Step)
    requires IsStep(s, st, only, step)
    ensures st.args != []
  {
    hide Recognize, IsTaken;
  }

  lemma {:induction false} NothingNeeded(s: Settings, events: seq<Event>, from: nat)
    requires from <= |s.options| && RemainingRequired(s, events, from) == 0
    ensures forall i: nat | from <= i :: !IsWanting(s, events, i)
    decreases |s.options| - from
  {
    hide Count, ItemsMin;
    if from < |s.options| { NothingNeeded(s, events, from + 1); }
  }

  // ---- numbers ----

  /** An option must have one group of items, or none when it expects none; and it takes as many groups as it expects at
      most, or, when that is unlimited and no extra arguments are allowed, as it expects at least. */
  lemma NumbersAre(o: Choice)
    ensures var group, all := o.typeSizeMin, o.typeSizeMin * o.expectedMin;
      MinNum(o) == (if o.expectedMin == 0 then 0 else group) && MinNum(o) <= all
    ensures var all, least := o.typeSizeMax * o.expectedMax, o.typeSizeMax * o.expectedMin;
      && (all < 0x200_0000 || (o.allowExtraArgs && all < 0x8000_0000) ==> MaxNum(o) == all)
      && (all >= 0x200_0000 && !o.allowExtraArgs && least < 0x8000_0000 ==> MaxNum(o) == least)
      && (all >= 0x8000_0000 && o.allowExtraArgs ==> MaxNum(o) == 0x2000_0000)
  {
    GroupsOf(o.typeSizeMin, o.expectedMin);
  }

  lemma GroupsOf(size: nat, groups: nat)
    ensures groups == 0 ==> size * groups == 0
    ensures groups > 0 ==> size <= size * groups
  {
  }

  /** An option that is no positional, refuses the text, or has all its items. */
  predicate NoRoom(s: Settings, events: seq<Event>, i: nat, text: string)
    requires i < |s.options|
  {
    var o := s.options[i];
    || !o.isPositional || (s.validatePositionals && !o.accepts(text))
    || (!o.allowExtraArgs && Count(s, events, i) >= Sized(o.typeSizeMax, o.expectedMax))
  }

  /** A positional takes an argument only while it has room, and an argument is left over only when none has. */
  lemma RoomForPositionals(s: Settings, st: State, only: bool, step: Step)
    requires IsStep(s, st, only, step)
    ensures step.PositionalStep? ==>
      var o, n := s.options[step.option], Count(s, st.events, step.option);
      && o.isPositional && (s.validatePositionals ==> o.accepts(st.Top()))
      && (o.allowExtraArgs || n < Sized(o.typeSizeMax, o.expectedMax)
          || (s.positionalsAtEnd && o.required && n < o.typeSizeMin * o.expectedMin))
    ensures step.LeftStep? ==> forall i | 0 <= i < |s.options| :: NoRoom(s, st.events, i, st.Top())
  {
    hide Count, RemainingRequired, Recognize, IsTaken, Sized, Stacked;
    if step.LeftStep? {
      forall i | 0 <= i < |s.options| ensures NoRoom(s, st.events, i, st.Top()) {
        assert !IsOpen(s, st.events, i, st.Top(), false);
      }
    }
  }

  /** An array is taken apart by just those options that take extra arguments or several groups. */
  lemma ArraysAreTaken(o: Choice, text: string)
    requires LooksLikeArray(text) && Undoubled(text).None? && o.delimiter == '\0'
    ensures AddedResults(text, TakingOf(o)) == [text] <==> !(o.allowExtraArgs || o.expectedMax > 1)
  {
    hide AddedResults, Undoubled;
    AddedShort(text, TakingOf(o));
    assert text in [text];
  }
}
