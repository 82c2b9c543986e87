/** What holds of whole runs of a flat App: every argument is accounted for, and an option
    that is named gets as many items as it asks for. */
module CliAppRuns {
  import opened Text
  import opened CliConfigValue
  import opened CliAppSpec
  import opened CliApp

  // ---- every argument is accounted for ----

  /** The arguments before an event, from those after it. Only an argument that is still on
      the stack can have been put back. */
  function Before(e: Event, args: seq<string>): Option<seq<string>> {
    match e
    case Named(token) => Some(args + [token])
    case Given(_, token) => Some(args + [token])
    case Missed(_, token) => Some(args + [token])
    case MarkDropped => Some(args + ["--"])
    case PushedBack(token) => if args != [] && args[|args| - 1] == token then Some(args[..|args| - 1]) else None
    case _ => Some(args)
  }

  /** The arguments that a run started from, by undoing its events from the last to the first. */
  function Undo(events: seq<Event>, args: seq<string>): Option<seq<string>> {
    if events == [] then Some(args)
    else
      var before := Before(events[|events| - 1], args);
      if before.None? then None else Undo(events[..|events| - 1], before.value)
  }

  ghost predicate SameOrigin(a: State, b: State) { Undo(a.events, a.args) == Undo(b.events, b.args) }

  lemma {:induction false} UndoLast(events: seq<Event>, e: Event, args: seq<string>)
    ensures Undo(events + [e], args) == if Before(e, args).None? then None else Undo(events, Before(e, args).value)
  {
    assert (events + [e])[..|events|] == events;
  }

  /** An argument that goes with its own text in the event can be put back. */
  lemma PopKeepsOrigin(st: State, e: Event)
    requires st.args != [] && Before(e, st.args[..|st.args| - 1]) == Some(st.args[..|st.args| - 1] + [st.Top()])
    ensures SameOrigin(st.Pop(e), st)
  {
    UndoLast(st.events, e, st.args[..|st.args| - 1]);
    assert st.args[..|st.args| - 1] + [st.Top()] == st.args;
  }

  lemma NoteKeepsOrigin(st: State, e: Event)
    requires e.Supplied? || e.Filled?
    ensures SameOrigin(st.Note(e), st)
  {
    UndoLast(st.events, e, st.args);
  }

  lemma PushKeepsOrigin(st: State, rest: string)
    ensures SameOrigin(PushBack(st, rest), st)
  {
    if rest != "" {
      UndoLast(st.events, PushedBack("-" + rest), st.args + ["-" + rest]);
      assert (st.args + ["-" + rest])[..|st.args|] == st.args;
    }
  }

  lemma SeparatedKeepsOrigin(s: Settings, st: State, i: nat)
    requires i < |s.options|
    ensures SameOrigin(Separated(s, st, i), st) && Separated(s, st, i).args == st.args
  {
    hide ResultsOf;
    NoteKeepsOrigin(st, Filled(i));
  }

  lemma {:induction false} MissAllKeepsOrigin(st: State)
    ensures SameOrigin(MissAll(st), st)
    decreases |st.args|
  {
    hide Undo;
    if st.args != [] {
      PopKeepsOrigin(st, Missed(NoOption, st.Top()));
      MissAllKeepsOrigin(st.Pop(Missed(NoOption, st.Top())));
    }
  }

  lemma {:induction false} MinKeepsOrigin(s: Settings, g: Gathered, i: nat)
    requires i < |s.options|
    ensures SameOrigin(GatherMin(s, g, i).st, g.st)
    decreases |g.st.args|
  {
    hide Undo, AddedCount, MinNum;
    if MinNum(s.options[i]) > g.collected && g.st.args != [] {
      PopKeepsOrigin(g.st, Given(i, g.st.Top()));
      MinKeepsOrigin(s, Gathered(g.st.Pop(Given(i, g.st.Top())), g.collected + AddedCount(s.options[i], g.st.Top())),
        i);
    }
  }

  lemma {:induction false} FurtherKeepsOrigin(s: Settings, g: Gathered, i: nat, needed: nat)
    requires i < |s.options|
    ensures SameOrigin(GatherOptional(s, g, i, needed).st, g.st)
    decreases |g.st.args|
  {
    hide Undo, AddedCount, MaxNum, Recognize;
    if g.st.args != [] && GatherOptional(s, g, i, needed) != g {
      PopKeepsOrigin(g.st, Given(i, g.st.Top()));
      FurtherKeepsOrigin(s,
        Gathered(g.st.Pop(Given(i, g.st.Top())), g.collected + AddedCount(s.options[i], g.st.Top())), i, needed);
    }
  }

  lemma OptionalKeepsOrigin(s: Settings, g: Gathered, i: nat, name: string)
    requires i < |s.options|
    ensures var r := Optional(s, g, i, name); r.Ok? ==> SameOrigin(r.value.st, g.st)
  {
    hide Undo, GatherOptional, RemainingRequired, MinNum, MaxNum;
    var more := GatherOptional(s, g, i, RemainingRequired(s, g.st.events, 0));
    FurtherKeepsOrigin(s, g, i, RemainingRequired(s, g.st.events, 0));
    if more.st.args != [] && more.st.Top() == "--" { PopKeepsOrigin(more.st, MarkDropped); }
    var value := s.options[i].flagValue(name, "");
    if value.Some? { NoteKeepsOrigin(DropMark(s, more.st), Supplied(i, value.value)); }
  }

  lemma AttachedKeepsOrigin(s: Settings, st: State, i: nat, split: Split)
    requires i < |s.options|
    ensures var r := Attached(s, st, i, split); r.Ok? ==> SameOrigin(r.value.st, st)
  {
    hide Undo, MaxNum, AddedCount;
    var r := Attached(s, st, i, split);
    if r.Ok? && r.value.st != st {
      NoteKeepsOrigin(st, r.value.st.events[|st.events|]);
    }
  }

  lemma {:induction false} ArgKeepsOrigin(s: Settings, st: State, kind: Classifier)
    requires st.args != [] && TrySplit(kind, st.Top()).Some?
    ensures var r := ParseArg(s, st, kind); r.Ok? ==> SameOrigin(r.value, st)
  {
    hide Undo, Addressed, Attached, GatherMin, Optional, MinNum, MaxNum, Separated, PushBack;
    var (i, split) := Addressed(s, kind, st.Top());
    PopKeepsOrigin(st, Missed(kind, st.Top()));
    if i < |s.options| && ParseArg(s, st, kind).Ok? {
      PopKeepsOrigin(st, Named(st.Top()));
      var popped := Separated(s, st.Pop(Named(st.Top())), i);
      SeparatedKeepsOrigin(s, st.Pop(Named(st.Top())), i);
      AttachedKeepsOrigin(s, popped, i, split);
      var attached := Attached(s, popped, i, split).value;
      MinKeepsOrigin(s, attached, i);
      var least := GatherMin(s, attached, i);
      OptionalKeepsOrigin(s, least, i, split.name);
      var most := Optional(s, least, i, split.name).value;
      NoteKeepsOrigin(most.st, Filled(i));
      PushKeepsOrigin(Completed(s, most, i).value, if MaxNum(s.options[i]) == 0 then split.rest else "");
    }
  }

  lemma {:induction false} PositionalKeepsOrigin(s: Settings, st: State)
    requires st.args != []
    ensures var r := ParsePositional(s, st); r.Ok? ==> SameOrigin(r.value, st)
  {
    hide Undo, Slot, Separated;
    var i := Slot(s, st.events, st.args);
    if i < |s.options| {
      SeparatedKeepsOrigin(s, st, i);
      var separated := Separated(s, st, i);
      PopKeepsOrigin(separated, Given(i, st.Top()));
    } else {
      PopKeepsOrigin(st, Missed(NoOption, st.Top()));
      MissAllKeepsOrigin(st.Pop(Missed(NoOption, st.Top())));
    }
  }

  lemma {:induction false} SingleKeepsOrigin(s: Settings, st: State, positionalOnly: bool)
    requires st.args != []
    ensures var r := ParseSingle(s, st, positionalOnly); r.Ok? ==> SameOrigin(r.value.0, st)
  {
    hide Undo, ParseArg, ParsePositional, TrySplit;
    RecognizedSplits(s, st.Top());
    var kind := if positionalOnly then NoOption else Recognize(s, st.Top());
    if kind == PositionalMark {
      PopKeepsOrigin(st, Missed(PositionalMark, "--"));
    } else if kind == NoOption {
      PositionalKeepsOrigin(s, st);
    } else {
      ArgKeepsOrigin(s, st, kind);
    }
  }

  /** The events of a run lead back to exactly the arguments it was given, in their order: each argument, and
      each group of letters that was put back, named an option, became a value, is missing, or was the dropped mark. */
  lemma {:induction false} ArgumentsAccounted(s: Settings, st: State, positionalOnly: bool)
    ensures var r := Run(s, st, positionalOnly); r.Ok? ==> SameOrigin(r.value, st)
    decreases Size(st.args)
  {
    hide Undo, ParseSingle;
    if st.args != [] {
      SingleShrinks(s, st, positionalOnly);
      var next := ParseSingle(s, st, positionalOnly);
      if next.Ok? {
        SingleKeepsOrigin(s, st, positionalOnly);
        ArgumentsAccounted(s, next.value.0, next.value.1);
      }
    }
  }

  lemma RunAccounted(s: Settings, args: seq<string>)
    ensures var r := Run(s, State(args, []), false); r.Ok? ==> Undo(r.value.events, []) == Some(args)
  {
    ArgumentsAccounted(s, State(args, []), false);
  }

  // ---- options that keep their texts as they are ----

  predicate KeepsText(o: Choice, text: string) { o.delimiter == '\0' && !LooksLikeArray(text) }

  lemma KeptText(o: Choice, text: string)
    requires KeepsText(o, text)
    ensures AddedResults(text, TakingOf(o)) == [text]
  {
    hide Halved;
  }

  /** The texts that became values of an option. */
  function TextsOf(events: seq<Event>, option: nat): seq<string> {
    if events == [] then []
    else
      TextsOf(events[..|events| - 1], option)
      + match events[|events| - 1]
        case Given(o, token) => (if o == option then [token] else [])
        case Supplied(o, text) => (if o == option then [text] else [])
        case Filled(o) => (if o == option then [""] else [])
        case _ => []
  }

  /** Without a delimiter and array texts an argument is one result, and the results are the arguments in order. */
  lemma {:induction false} PlainResults(s: Settings, events: seq<Event>, option: nat)
    requires option < |s.options|
    requires forall t | t in TextsOf(events, option) :: KeepsText(s.options[option], t)
    ensures ResultsOf(s, events, option) == TextsOf(events, option)
  {
    hide AddedResults, KeepsText;
    if events != [] {
      var n := |events| - 1;
      var more := TextsOf(events, option)[|TextsOf(events[..n], option)|..];
      assert TextsOf(events, option) == TextsOf(events[..n], option) + more;
      forall t | t in TextsOf(events[..n], option) ensures KeepsText(s.options[option], t) {
        assert t in TextsOf(events, option);
      }
      PlainResults(s, events[..n], option);
      if more != [] {
        assert more[0] in TextsOf(events, option);
        KeptText(s.options[option], more[0]);
      }
    }
  }

  // ---- items per name ----

  ghost predicate AllKept(o: Choice, texts: seq<string>) { forall i | 0 <= i < |texts| :: KeepsText(o, texts[i]) }

  /** Only option i got more results, as many as were collected. */
  ghost predicate Collected(s: Settings, before: seq<Event>, after: seq<Event>, i: nat, items: int)
    requires i < |s.options|
  {
    && Count(s, after, i) == Count(s, before, i) + items
    && forall j | 0 <= j < |s.options| && j != i :: ResultsOf(s, after, j) == ResultsOf(s, before, j)
  }

  lemma OneValue(s: Settings, events: seq<Event>, i: nat, text: string)
    requires i < |s.options|
    ensures Collected(s, events, events + [Given(i, text)], i, AddedCount(s.options[i], text))
    ensures Collected(s, events, events + [Supplied(i, text)], i, AddedCount(s.options[i], text))
    ensures KeepsText(s.options[i], text) ==> AddedCount(s.options[i], text) == 1
  {
    hide AddedResults, ResultsOf, KeepsText;
    if KeepsText(s.options[i], text) { KeptText(s.options[i], text); }
    OneMoreEvent(s, events, Given(i, text));
    OneMoreEvent(s, events, Supplied(i, text));
  }

  lemma NoValue(s: Settings, events: seq<Event>, e: Event, i: nat)
    requires i < |s.options| && (e.Named? || e.PushedBack? || e.MarkDropped? || e == Filled(i))
    ensures Collected(s, events, events + [e], i, if e.Filled? then 1 else 0)
  {
    hide ResultsOf;
    OneMoreEvent(s, events, e);
  }

  /** All texts that an option may take for a name are single results. */
  ghost predicate TextsKept(o: Choice, split: Split, args: seq<string>) {
    && AllKept(o, args) && KeepsText(o, split.value) && KeepsText(o, split.rest)
    && (var v := o.flagValue(split.name, split.value); v.Some? ==> KeepsText(o, v.value))
    && (var v := o.flagValue(split.name, ""); v.Some? ==> KeepsText(o, v.value))
  }

  lemma {:induction false} LeastItems(s: Settings, g: Gathered, i: nat)
    requires i < |s.options|
    ensures var r := GatherMin(s, g, i);
      && g.collected <= r.collected
      && Collected(s, g.st.events, r.st.events, i, r.collected - g.collected)
      && (AllKept(s.options[i], g.st.args) ==>
            (r.collected <= g.collected || r.collected <= MinNum(s.options[i])) && AllKept(s.options[i], r.st.args))
    decreases |g.st.args|
  {
    hide ResultsOf, AddedCount, MinNum, KeepsText;
    if MinNum(s.options[i]) > g.collected && g.st.args != [] {
      OneValue(s, g.st.events, i, g.st.Top());
      LeastItems(s, Gathered(g.st.Pop(Given(i, g.st.Top())), g.collected + AddedCount(s.options[i], g.st.Top())), i);
    }
  }

  lemma {:induction false} FurtherItems(s: Settings, g: Gathered, i: nat, needed: nat)
    requires i < |s.options|
    ensures var r := GatherOptional(s, g, i, needed);
      && g.collected <= r.collected
      && Collected(s, g.st.events, r.st.events, i, r.collected - g.collected)
      && (AllKept(s.options[i], g.st.args) && !s.options[i].allowExtraArgs ==>
            r.collected <= g.collected || r.collected <= MaxNum(s.options[i]))
    decreases |g.st.args|
  {
    hide ResultsOf, AddedCount, MaxNum, KeepsText, Recognize;
    if g.st.args != [] && GatherOptional(s, g, i, needed) != g {
      OneValue(s, g.st.events, i, g.st.Top());
      FurtherItems(s, Gathered(g.st.Pop(Given(i, g.st.Top())), g.collected + AddedCount(s.options[i], g.st.Top())), i,
        needed);
    }
  }

  lemma AttachedItems(s: Settings, st: State, i: nat, split: Split) returns (items: nat)
    requires i < |s.options| && Attached(s, st, i, split).Ok?
    ensures var r := Attached(s, st, i, split).value;
      && r.st.args == st.args
      && Collected(s, st.events, r.st.events, i, items)
      && r.collected == (if MaxNum(s.options[i]) == 0 then 0 else items)
      && (TextsKept(s.options[i], split, st.args) ==> items <= 1 && (MaxNum(s.options[i]) == 0 ==> items == 1))
  {
    hide ResultsOf, AddedCount, MaxNum, KeepsText;
    var r := Attached(s, st, i, split).value;
    items := 0;
    if r.st != st {
      var text := r.st.events[|st.events|].text;
      OneValue(s, st.events, i, text);
      items := AddedCount(s.options[i], text);
    }
  }

  lemma OptionalItems(s: Settings, g: Gathered, i: nat, split: Split) returns (items: nat)
    requires i < |s.options| && Optional(s, g, i, split.name).Ok? && g.collected >= MinNum(s.options[i])
    ensures var r, o := Optional(s, g, i, split.name).value, s.options[i];
      && Collected(s, g.st.events, r.st.events, i, items)
      && (MinNum(o) > 0 ==> g.collected + items == r.collected)
      && (TextsKept(o, split, g.st.args) ==>
            && (MaxNum(o) > 0 ==> g.collected + items >= 1)
            && (!o.allowExtraArgs ==> items == 0 || g.collected + items <= MaxNum(o)))
  {
    hide ResultsOf, MinNum, MaxNum, KeepsText, GatherOptional, RemainingRequired, Recognize, AddedCount;
    var o := s.options[i];
    items := 0;
    if MaxNum(o) > g.collected || o.allowExtraArgs {
      var needed := RemainingRequired(s, g.st.events, 0);
      var more := GatherOptional(s, g, i, needed);
      FurtherItems(s, g, i, needed);
      NoValue(s, more.st.events, MarkDropped, i);
      var st := DropMark(s, more.st);
      items := more.collected - g.collected;
      if MinNum(o) == 0 && MaxNum(o) > 0 && more.collected == 0 {
        var text := o.flagValue(split.name, "").value;
        OneValue(s, st.events, i, text);
        items := AddedCount(o, text);
      }
    }
  }

  /** What an option that is named gets, besides a separator before it: at least its least number of items, in
      whole groups or filled up by one empty text. When its texts are single results it gets at least one
      and, without extra arguments, at most its greatest number. Nobody else gets any. */
  lemma {:induction false} ItemsPerName(s: Settings, st: State, kind: Classifier) returns (items: nat, filled: bool)
    requires st.args != [] && TrySplit(kind, st.Top()).Some? && Addressed(s, kind, st.Top()).0 < |s.options|
    requires ParseArg(s, st, kind).Ok?
    ensures var (i, split) := Addressed(s, kind, st.Top());
      var o, before := s.options[i], Separated(s, st.Pop(Named(st.Top())), i);
      && Collected(s, before.events, ParseArg(s, st, kind).value.events, i, items + if filled then 1 else 0)
      && MinNum(o) <= items
      && (filled ==> MinNum(o) > 0 && o.typeSizeMin != o.typeSizeMax)
      && (MinNum(o) > 0 && MaxNum(o) > 0 && o.typeSizeMax > 0 ==> (filled <==> items % o.typeSizeMax != 0))
      && (TextsKept(o, split, before.args) ==>
            && 1 <= items
            && (!o.allowExtraArgs && MinNum(o) <= MaxNum(o) ==> items <= MaxNum(o) || items == 1))
  {
    hide ResultsOf, Addressed, Attached, GatherMin, Optional, MinNum, MaxNum, KeepsText, Separated;
    var (i, split) := Addressed(s, kind, st.Top());
    var o, before := s.options[i], Separated(s, st.Pop(Named(st.Top())), i);
    var n := AttachedItems(s, before, i, split);
    var attached := Attached(s, before, i, split).value;
    LeastItems(s, attached, i);
    var least := GatherMin(s, attached, i);
    var more := OptionalItems(s, least, i, split);
    var most := Optional(s, least, i, split.name).value;
    items := n + (least.collected - attached.collected) + more;
    NoValue(s, most.st.events, Filled(i), i);
    var done := Completed(s, most, i).value;
    filled := done != most.st;
    NoValue(s, done.events, PushedBack("-" + split.rest), i);
  }
}
