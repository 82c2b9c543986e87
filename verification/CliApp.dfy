/** The parsing loop of a flat App and the fields it fills: the results of the options, the
    order they came in, and the missing arguments. */
module CliApp {
  import opened Results
  import opened CliConfigValue
  import Spec = CliAppSpec
  import opened CliAppSpec

  /** What missing_ holds after some events. */
  function MissingOf(events: seq<Event>): seq<(Classifier, string)> {
    if events == [] then []
    else
      var e := events[|events| - 1];
      MissingOf(events[..|events| - 1]) + if e.Missed? then [(e.kind, e.token)] else []
  }

  /** What parse_order_ holds after some events. */
  function OrderOf(events: seq<Event>): seq<nat> {
    if events == [] then []
    else
      var e := events[|events| - 1];
      OrderOf(events[..|events| - 1]) + if e.Given? || e.Supplied? then [e.option] else []
  }

  /** The results that an event adds to an option. */
  function ResultsBy(s: Settings, e: Event, option: nat): seq<string>
    requires option < |s.options|
  {
    match e
    case Given(o, token) => if o == option then AddedResults(token, TakingOf(s.options[o])) else []
    case Supplied(o, text) => if o == option then AddedResults(text, TakingOf(s.options[o])) else []
    case Filled(o) => if o == option then [""] else []
    case _ => []
  }

  lemma {:induction false} OneMoreEvent(s: Settings, events: seq<Event>, e: Event)
    ensures forall i | 0 <= i < |s.options| ::
      ResultsOf(s, events + [e], i) == ResultsOf(s, events, i) + ResultsBy(s, e, i)
    ensures MissingOf(events + [e]) == MissingOf(events) + if e.Missed? then [(e.kind, e.token)] else []
    ensures OrderOf(events + [e]) == OrderOf(events) + if e.Given? || e.Supplied? then [e.option] else []
  {
    hide AddedResults, TakingOf;
    assert (events + [e])[..|events|] == events;
  }

  class App {
    const settings: Settings
    var results: seq<seq<string>>
    var missing: seq<(Classifier, string)>
    var parseOrder: seq<nat>
    ghost var events: seq<Event>

    /** The fields are what the events made of them. */
    ghost predicate Valid()
      reads this
    {
      && |results| == |settings.options|
      && (forall i | 0 <= i < |results| :: results[i] == ResultsOf(settings, events, i))
      && missing == MissingOf(events)
      && parseOrder == OrderOf(events)
    }

    constructor (s: Settings)
      ensures settings == s && Valid() && events == []
    {
      settings := s;
      results := seq(|s.options|, i => []);
      missing, parseOrder, events := [], [], [];
    }

    ghost method Note(e: Event)
      requires Valid() && (e.Named? || e.PushedBack? || e.MarkDropped?)
      modifies this`events
      ensures Valid() && events == old(events) + [e]
    {
      hide ResultsOf, MissingOf, OrderOf;
      OneMoreEvent(settings, events, e);
      events := events + [e];
    }

    /** A value for an option, from an argument of its own or not. */
    method Add(i: nat, text: string, ghost own: bool) returns (result_count: nat)
      requires Valid() && i < |settings.options|
      modifies this`results, this`parseOrder, this`events
      ensures Valid() && events == old(events) + [if own then Given(i, text) else Supplied(i, text)]
      ensures result_count == AddedCount(settings.options[i], text)
    {
      hide ResultsOf, MissingOf, OrderOf, AddedResults;
      ghost var e := if own then Given(i, text) else Supplied(i, text);
      OneMoreEvent(settings, events, e);
      var added;
      added, result_count := CliConfigValue.AddResult(text, TakingOf(settings.options[i]), results[i]);
      results := results[i := added];
      parseOrder := parseOrder + [i];
      events := events + [e];
    }

    method Fill(i: nat)
      requires Valid() && i < |settings.options|
      modifies this`results, this`events
      ensures Valid() && events == old(events) + [Filled(i)]
    {
      hide ResultsOf, MissingOf, OrderOf;
      OneMoreEvent(settings, events, Filled(i));
      results := results[i := results[i] + [""]];
      events := events + [Filled(i)];
    }

    method MoveToMissing(kind: Classifier, val: string)
      requires Valid()
      modifies this`missing, this`events
      ensures Valid() && events == old(events) + [Missed(kind, val)]
    {
      hide ResultsOf, MissingOf, OrderOf;
      OneMoreEvent(settings, events, Missed(kind, val));
      missing := missing + [(kind, val)];
      events := events + [Missed(kind, val)];
    }

    method CountRemainingPositionals() returns (retval: nat)
      requires Valid()
      ensures retval == RemainingRequired(settings, events, 0)
    {
      hide ResultsOf, ItemsMin;
      retval := 0;
      for i := 0 to |settings.options|
        invariant retval + RemainingRequired(settings, events, i) == RemainingRequired(settings, events, 0)
      {
        var opt := settings.options[i];
        if opt.isPositional && opt.required {
          if ItemsMin(opt) > 0 && |results[i]| < ItemsMin(opt) {
            retval := retval + (ItemsMin(opt) - |results[i]|);
          }
        }
      }
    }

    /** The first positional that can take a text, or the number of options. */
    method FindOpen(positional: string, requiredOnly: bool) returns (i: nat)
      requires Valid()
      ensures i == FirstOpen(settings, events, positional, requiredOnly, 0)
    {
      hide ResultsOf, ItemsMin, ItemsMax;
      i := 0;
      while i < |settings.options|
        invariant 0 <= i <= |settings.options|
        invariant FirstOpen(settings, events, positional, requiredOnly, i) ==
          FirstOpen(settings, events, positional, requiredOnly, 0)
      {
        var opt := settings.options[i];
        var open := opt.isPositional &&
          if requiredOnly then opt.required && |results[i]| < ItemsMin(opt)
          else |results[i]| < ItemsMax(opt) || opt.allowExtraArgs;
        if open && (!settings.validatePositionals || opt.accepts(positional)) {
          return;
        }
        i := i + 1;
      }
    }

    method AddSeparator(i: nat, ghost args: seq<string>)
      requires Valid() && i < |settings.options|
      modifies this`results, this`events
      ensures Valid() && State(args, events) == Separated(settings, State(args, old(events)), i)
    {
      hide ResultsOf;
      if settings.options[i].injectSeparator {
        if results[i] != [] && results[i][|results[i]| - 1] != "" {
          Fill(i);
        }
      }
    }

    /** _parse_positional. */
    method ParsePositional(args: seq<string>) returns (r: Outcome<seq<string>>)
      requires Valid() && args != []
      modifies this`results, this`parseOrder, this`missing, this`events
      ensures Valid()
      ensures var spec := Spec.ParsePositional(settings, State(args, old(events)));
        if r.Error? then spec == Error(r.error) else spec == Ok(State(r.value, events))
    {
      hide ResultsOf, RemainingRequired, FirstOpen, Valid;
      var left := args;
      var positional := left[|left| - 1];
      var posOpt := |settings.options|;
      if settings.positionalsAtEnd {
        var remreq := CountRemainingPositionals();
        if |left| <= remreq {
          posOpt := FindOpen(positional, true);
        }
      }
      if posOpt == |settings.options| {
        posOpt := FindOpen(positional, false);
      }
      assert posOpt == Slot(settings, events, args);
      if posOpt < |settings.options| {
        AddSeparator(posOpt, args);
        var _ := Add(posOpt, positional, true);
        return Ok(left[..|left| - 1]);
      }
      if settings.positionalsAtEnd {
        return Error(Extras);
      }
      MoveToMissing(NoOption, positional);
      left := left[..|left| - 1];
      if settings.prefixCommand {
        ghost var rest := State(left, events);
        while left != []
          invariant Valid() && MissAll(State(left, events)) == MissAll(rest)
          decreases |left|
        {
          MoveToMissing(NoOption, left[|left| - 1]);
          left := left[..|left| - 1];
        }
      }
      r := Ok(left);
    }

    /** The value that comes with the name of an option. */
    method AddAttached(args: seq<string>, i: nat, split: Split) returns (r: Outcome<nat>)
      requires Valid() && i < |settings.options|
      modifies this`results, this`parseOrder, this`events
      ensures Valid()
      ensures var spec := Attached(settings, State(args, old(events)), i, split);
        if r.Error? then spec == Error(r.error) else spec == Ok(Gathered(State(args, events), r.value))
    {
      hide ResultsOf, AddedCount, MaxNum, Valid;
      var op := settings.options[i];
      var collected := 0;
      if MaxNum(op) == 0 {
        var res := op.flagValue(split.name, split.value);
        if res.None? {
          return Error(BadFlag);
        }
        var _ := Add(i, res.value, false);
      } else if split.value != "" {
        collected := Add(i, split.value, false);
      } else if split.rest != "" {
        collected := Add(i, split.rest, false);
      }
      r := Ok(collected);
    }

    /** The loop for the least number of items. */
    method GatherMinimum(args: seq<string>, i: nat, start: nat) returns (left: seq<string>, collected: nat)
      requires Valid() && i < |settings.options|
      modifies this`results, this`parseOrder, this`events
      ensures Valid()
        && Gathered(State(left, events), collected) == GatherMin(settings, Gathered(State(args, old(events)), start), i)
    {
      hide ResultsOf, AddedCount, MinNum, Valid;
      left, collected := args, start;
      while MinNum(settings.options[i]) > collected && left != []
        invariant Valid()
        invariant GatherMin(settings, Gathered(State(left, events), collected), i) ==
          GatherMin(settings, Gathered(State(args, old(events)), start), i)
        decreases |left|
      {
        var current := left[|left| - 1];
        left := left[..|left| - 1];
        var result_count := Add(i, current, true);
        collected := collected + result_count;
      }
    }

    /** The loop for further items. */
    method GatherFurther(args: seq<string>, i: nat, start: nat, remreqpos: nat)
      returns (left: seq<string>, collected: nat)
      requires Valid() && i < |settings.options|
      modifies this`results, this`parseOrder, this`events
      ensures Valid() && Gathered(State(left, events), collected) ==
        GatherOptional(settings, Gathered(State(args, old(events)), start), i, remreqpos)
    {
      hide ResultsOf, AddedCount, MaxNum, Valid, Recognize;
      var op := settings.options[i];
      left, collected := args, start;
      while (collected < MaxNum(op) || op.allowExtraArgs) && left != []
        && Recognize(settings, left[|left| - 1]) == NoOption
        invariant Valid()
        invariant GatherOptional(settings, Gathered(State(left, events), collected), i, remreqpos) ==
          GatherOptional(settings, Gathered(State(args, old(events)), start), i, remreqpos)
        decreases |left|
      {
        if remreqpos >= |left| {
          break;
        }
        if settings.validateOptionalArguments && !op.accepts(left[|left| - 1]) {
          break;
        }
        var result_count := Add(i, left[|left| - 1], true);
        left := left[..|left| - 1];
        collected := collected + result_count;
      }
    }

    method GatherOptionals(args: seq<string>, i: nat, start: nat, name: string) returns (r: Outcome<(seq<string>, nat)>)
      requires Valid() && i < |settings.options|
      modifies this`results, this`parseOrder, this`events
      ensures Valid()
      ensures var spec := Optional(settings, Gathered(State(args, old(events)), start), i, name);
        if r.Error? then spec == Error(r.error) else spec == Ok(Gathered(State(r.value.0, events), r.value.1))
    {
      hide ResultsOf, MinNum, MaxNum, Valid, Recognize, GatherOptional, RemainingRequired, AddedCount;
      var op := settings.options[i];
      var left, collected := args, start;
      if MaxNum(op) > collected || op.allowExtraArgs {
        var remreqpos := CountRemainingPositionals();
        left, collected := GatherFurther(left, i, collected, remreqpos);
        if left != [] && Recognize(settings, left[|left| - 1]) == PositionalMark {
          left := left[..|left| - 1];
          Note(MarkDropped);
        }
        if MinNum(op) == 0 && MaxNum(op) > 0 && collected == 0 {
          var res := op.flagValue(name, "");
          if res.None? {
            return Error(BadFlag);
          }
          var _ := Add(i, res.value, false);
        }
      }
      r := Ok((left, collected));
    }

    /** _parse_arg. */
    method ParseArg(args: seq<string>, kind: Classifier) returns (r: Outcome<seq<string>>)
      requires Valid() && args != [] && TrySplit(kind, args[|args| - 1]).Some?
      modifies this`results, this`parseOrder, this`missing, this`events
      ensures Valid()
      ensures var spec := Spec.ParseArg(settings, State(args, old(events)), kind);
        if r.Error? then spec == Error(r.error) else spec == Ok(State(r.value, events))
    {
      hide ResultsOf, MinNum, MaxNum, Valid, Addressed, Attached, GatherMin, Optional, Separated;
      var current, left := args[|args| - 1], args[..|args| - 1];
      var (i, split) := Addressed(settings, kind, current);
      if i == |settings.options| {
        MoveToMissing(kind, current);
        return Ok(left);
      }
      var op := settings.options[i];
      Note(Named(current));
      AddSeparator(i, left);
      var attached :- AddAttached(left, i, split);
      var collected := attached;
      left, collected := GatherMinimum(left, i, collected);
      if MinNum(op) > collected {
        return Error(TypedAtLeast);
      }
      var most :- GatherOptionals(left, i, collected, split.name);
      left, collected := most.0, most.1;
      if MinNum(op) > 0 && op.typeSizeMax > 0 && collected % op.typeSizeMax != 0 {
        if op.typeSizeMax != op.typeSizeMin {
          Fill(i);
        } else {
          return Error(PartialType);
        }
      }
      if MaxNum(op) == 0 && split.rest != "" {
        left := left + ["-" + split.rest];
        Note(PushedBack("-" + split.rest));
      }
      r := Ok(left);
    }

    /** _parse_single. */
    method ParseSingle(args: seq<string>, positional_only: bool) returns (r: Outcome<(seq<string>, bool)>)
      requires Valid() && args != []
      modifies this`results, this`parseOrder, this`missing, this`events
      ensures Valid()
      ensures var spec := Spec.ParseSingle(settings, State(args, old(events)), positional_only);
        if r.Error? then spec == Error(r.error) else spec == Ok((State(r.value.0, events), r.value.1))
    {
      hide ResultsOf, Valid, Spec.ParsePositional, Spec.ParseArg, Recognize, TrySplit;
      var classifier := if positional_only then NoOption else Recognize(settings, args[|args| - 1]);
      match classifier
      case PositionalMark =>
        MoveToMissing(classifier, "--");
        r := Ok((args[..|args| - 1], true));
      case NoOption =>
        var left :- ParsePositional(args);
        r := Ok((left, positional_only || settings.positionalsAtEnd));
      case _ =>
        RecognizedSplits(settings, args[|args| - 1]);
        var left :- ParseArg(args, classifier);
        r := Ok((left, positional_only));
    }

    /** The loop of _parse. */
    method Parse(args: seq<string>) returns (r: Outcome<()>)
      requires Valid() && events == []
      modifies this`results, this`parseOrder, this`missing, this`events
      ensures Valid()
      ensures var spec := Run(settings, State(args, []), false);
        if r.Error? then spec == Error(r.error) else spec == Ok(State([], events))
    {
      hide ResultsOf, Valid, Spec.ParseSingle;
      var left, positional_only := args, false;
      while left != []
        invariant Valid()
          && Run(settings, State(left, events), positional_only) == Run(settings, State(args, []), false)
        decreases Size(left)
      {
        SingleShrinks(settings, State(left, events), positional_only);
        var single :- ParseSingle(left, positional_only);
        left, positional_only := single.0, single.1;
      }
      r := Ok(());
    }
  }
}
