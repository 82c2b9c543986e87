/** What one step of an App does with its arguments, stated without the functions that do it: the texts that a named
    option gets and where they come from, the positional that takes an argument, and how a run is made of such steps. */
module CliAppBlocks {
  import opened Text
  import opened Results
  import opened CliConfigValue
  import opened CliAppSpec
  import opened CliAppForms

  // ---- the texts of one option ----

  function GivenEvents(i: nat, texts: seq<string>): seq<Event> {
    seq(|texts|, k requires 0 <= k < |texts| => Given(i, texts[k]))
  }

  function SuppliedEvents(i: nat, texts: seq<string>): seq<Event> {
    seq(|texts|, k requires 0 <= k < |texts| => Supplied(i, texts[k]))
  }

  /** How many items some texts are. */
  function Items(o: Choice, texts: seq<string>): nat {
    if texts == [] then 0 else Items(o, texts[..|texts| - 1]) + AddedCount(o, texts[|texts| - 1])
  }

  /** Arguments with the first of them on top. */
  function Stacked(texts: seq<string>): (r: seq<string>)
    ensures |r| == |texts|
    ensures forall k | 0 <= k < |r| :: r[k] == texts[|texts| - 1 - k]
  {
    seq(|texts|, k requires 0 <= k < |texts| => texts[|texts| - 1 - k])
  }

  /** What happens between the name of an option and the next step: an empty text as a separator, the text that
      comes with the name, the arguments that it must have and those that it may have, what is left then, the mark
      that ends them, the value that it has without any text, an empty text that completes a group, and letters that
      go back. */
  datatype Taken = Taken(token: string, option: nat, split: Split, separated: bool, attached: seq<string>,
                         given: seq<string>, further: seq<string>, left: seq<string>, marked: bool,
                         byDefault: seq<string>, filled: bool, back: string) {
    function Front(): seq<Event> {
      [Named(token)] + (if separated then [Filled(option)] else []) + SuppliedEvents(option, attached)
      + GivenEvents(option, given)
    }

    function Events(): seq<Event> {
      Front() + GivenEvents(option, further)
      + (if marked then [MarkDropped] else []) + SuppliedEvents(option, byDefault)
      + (if filled then [Filled(option)] else []) + (if back == "" then [] else [PushedBack("-" + back)])
    }

    /** The items so far: the value of a flag is none. */
    function Attached(o: Choice): nat { if MaxNum(o) == 0 then 0 else Items(o, attached) }

    function Least(o: Choice): nat { Attached(o) + Items(o, given) }

    function All(o: Choice): nat { Least(o) + Items(o, further) }
  }

  predicate IsFlagValue(o: Choice, name: string, value: string, texts: seq<string>) {
    |texts| == 1 && o.flagValue(name, value) == Some(texts[0])
  }

  /** A flag gets its value for what stands behind '=', and any other option the text behind '=' or behind its
      letter. */
  predicate IsAttached(o: Choice, split: Split, texts: seq<string>) {
    if MaxNum(o) == 0 then IsFlagValue(o, split.name, split.value, texts)
    else if split.value != "" then texts == [split.value]
    else if split.rest != "" then texts == [split.rest]
    else texts == []
  }

  /** Enough for the least number of items and no more, or all there is. */
  predicate IsLeast(o: Choice, start: nat, texts: seq<string>, left: seq<string>) {
    && (forall k | 0 <= k < |texts| :: start + Items(o, texts[..k]) < MinNum(o))
    && (left == [] || start + Items(o, texts) >= MinNum(o))
  }

  predicate MayFollow(s: Settings, o: Choice, text: string) {
    Recognize(s, text) == NoOption && (s.validateOptionalArguments ==> o.accepts(text))
  }

  predicate HasRoom(o: Choice, items: nat) { items < MaxNum(o) || o.allowExtraArgs }

  /** Texts that may follow, each with room for it. */
  predicate AllFollow(s: Settings, o: Choice, start: nat, texts: seq<string>) {
    forall k | 0 <= k < |texts| :: HasRoom(o, start + Items(o, texts[..k])) && MayFollow(s, o, texts[k])
  }

  /** As many texts that may follow as there is room for, but none of those that the required positionals need. */
  predicate IsFurther(s: Settings, o: Choice, start: nat, needed: nat, texts: seq<string>, left: seq<string>) {
    && AllFollow(s, o, start, texts)
    && (texts != [] ==> needed <= |left|)
    && (HasRoom(o, start + Items(o, texts)) && needed < |left| ==> !MayFollow(s, o, left[|left| - 1]))
  }

  /** The items are no whole number of groups. */
  predicate IsPartial(o: Choice, items: nat) { MinNum(o) > 0 && o.typeSizeMax > 0 && items % o.typeSizeMax != 0 }

  /** An option was named and got its texts. */
  ghost predicate IsCollected(s: Settings, before: State, t: Taken) {
    && before.args == t.left + Stacked([t.token] + t.given + t.further)
    && Names(s, t.token, t.option, t.split)
    && var o, results := s.options[t.option], ResultsOf(s, before.events, t.option);
    && t.separated == (o.injectSeparator && results != [] && results[|results| - 1] != "")
    && IsAttached(o, t.split, t.attached)
    && IsLeast(o, t.Attached(o), t.given, t.left + Stacked(t.further))
    && MinNum(o) <= t.Least(o)
    && IsFurther(s, o, t.Least(o), RemainingRequired(s, before.events + t.Front(), 0), t.further, t.left)
    && t.marked == (HasRoom(o, t.Least(o)) && t.left != [] && t.left[|t.left| - 1] == "--")
  }

  /** And it is complete: an option that may do without texts and got none has its own value. */
  ghost predicate IsTaken(s: Settings, before: State, t: Taken) {
    && IsCollected(s, before, t)
    && var o := s.options[t.option];
    && (if MinNum(o) == 0 && MaxNum(o) > 0 && t.All(o) == 0 then IsFlagValue(o, t.split.name, "", t.byDefault)
        else t.byDefault == [])
    && t.filled == IsPartial(o, t.All(o))
    && (t.filled ==> o.typeSizeMin != o.typeSizeMax)
    && t.back == if MaxNum(o) == 0 then t.split.rest else ""
  }

  function AfterTaken(before: State, t: Taken): State {
    State((if t.marked && t.left != [] then t.left[..|t.left| - 1] else t.left)
          + (if t.back == "" then [] else ["-" + t.back]), before.events + t.Events())
  }

  // ---- the loops ----

  lemma {:induction false} OneMoreGiven(i: nat, text: string, texts: seq<string>)
    ensures GivenEvents(i, [text] + texts) == [Given(i, text)] + GivenEvents(i, texts)
    ensures Stacked([text] + texts) == Stacked(texts) + [text]
  {
  }

  lemma {:induction false} ItemsFront(o: Choice, text: string, texts: seq<string>)
    ensures Items(o, [text] + texts) == AddedCount(o, text) + Items(o, texts)
    decreases |texts|
  {
    hide AddedCount;
    if texts == [] {
      assert ([text] + texts)[..0] == [];
    } else {
      var n := |texts| - 1;
      ItemsFront(o, text, texts[..n]);
      assert ([text] + texts)[..n + 1] == [text] + texts[..n];
    }
  }

  lemma LeastStep(o: Choice, start: nat, text: string, texts: seq<string>, left: seq<string>)
    requires start < MinNum(o) && IsLeast(o, start + AddedCount(o, text), texts, left)
    ensures IsLeast(o, start, [text] + texts, left)
    ensures start + Items(o, [text] + texts) == start + AddedCount(o, text) + Items(o, texts)
  {
    hide AddedCount, MinNum, Items;
    ItemsFront(o, text, texts);
    forall k | 0 <= k < |texts| + 1 ensures start + Items(o, ([text] + texts)[..k]) < MinNum(o) {
      if k == 0 {
        NoItems(o);
      } else {
        assert ([text] + texts)[..k] == [text] + texts[..k - 1];
        ItemsFront(o, text, texts[..k - 1]);
      }
    }
  }

  lemma NoItems(o: Choice)
    ensures Items(o, []) == 0
  {
  }

  lemma {:induction false} LeastTaken(s: Settings, g: Gathered, i: nat) returns (given: seq<string>)
    requires i < |s.options|
    ensures var r, o := GatherMin(s, g, i), s.options[i];
      && r.st.events == g.st.events + GivenEvents(i, given)
      && g.st.args == r.st.args + Stacked(given)
      && r.collected == g.collected + Items(o, given)
      && IsLeast(o, g.collected, given, r.st.args)
    decreases |g.st.args|
  {
    hide AddedCount, MinNum, Items;
    var o := s.options[i];
    given := [];
    NoItems(o);
    if MinNum(o) > g.collected && g.st.args != [] {
      var text := g.st.Top();
      var next := Gathered(g.st.Pop(Given(i, text)), g.collected + AddedCount(o, text));
      var rest := LeastTaken(s, next, i);
      given := [text] + rest;
      OneMoreGiven(i, text, rest);
      LeastStep(o, g.collected, text, rest, GatherMin(s, g, i).st.args);
      assert g.st.args == next.st.args + [text];
    }
  }

  lemma FurtherStep(s: Settings, o: Choice, start: nat, needed: nat, text: string, texts: seq<string>,
    left: seq<string>)
    requires HasRoom(o, start) && MayFollow(s, o, text) && needed <= |texts| + |left|
    requires IsFurther(s, o, start + AddedCount(o, text), needed, texts, left)
    ensures IsFurther(s, o, start, needed, [text] + texts, left)
    ensures start + Items(o, [text] + texts) == start + AddedCount(o, text) + Items(o, texts)
  {
    hide AddedCount, HasRoom, MayFollow, Items, AllFollow;
    ItemsFront(o, text, texts);
    OneMoreFollows(s, o, start, text, texts);
  }

  lemma OneMoreFollows(s: Settings, o: Choice, start: nat, text: string, texts: seq<string>)
    requires HasRoom(o, start) && MayFollow(s, o, text) && AllFollow(s, o, start + AddedCount(o, text), texts)
    ensures AllFollow(s, o, start, [text] + texts)
  {
    hide AddedCount, HasRoom, MayFollow, Items;
    var all := [text] + texts;
    forall k | 0 <= k < |all| ensures HasRoom(o, start + Items(o, all[..k])) && MayFollow(s, o, all[k]) {
      if k == 0 {
        NoItems(o);
      } else {
        assert all[..k] == [text] + texts[..k - 1] && all[k] == texts[k - 1];
        ItemsFront(o, text, texts[..k - 1]);
      }
    }
  }

  lemma NothingFurther(s: Settings, o: Choice, start: nat, needed: nat, left: seq<string>)
    requires HasRoom(o, start) && needed < |left| ==> !MayFollow(s, o, left[|left| - 1])
    ensures IsFurther(s, o, start, needed, [], left)
  {
    hide HasRoom, MayFollow;
    NoItems(o);
  }

  lemma {:induction false} FurtherTaken(s: Settings, g: Gathered, i: nat, needed: nat) returns (further: seq<string>)
    requires i < |s.options|
    ensures var r, o := GatherOptional(s, g, i, needed), s.options[i];
      && r.st.events == g.st.events + GivenEvents(i, further)
      && g.st.args == r.st.args + Stacked(further)
      && r.collected == g.collected + Items(o, further)
      && IsFurther(s, o, g.collected, needed, further, r.st.args)
    decreases |g.st.args|
  {
    hide AddedCount, Recognize, Items, MaxNum, IsFurther;
    var o := s.options[i];
    further := [];
    NoItems(o);
    if HasRoom(o, g.collected) && g.st.args != [] && MayFollow(s, o, g.st.Top()) && needed < |g.st.args| {
      var text := g.st.Top();
      var next := Gathered(g.st.Pop(Given(i, text)), g.collected + AddedCount(o, text));
      var rest := FurtherTaken(s, next, i, needed);
      further := [text] + rest;
      assert GatherOptional(s, g, i, needed) == GatherOptional(s, next, i, needed);
      OneMoreGiven(i, text, rest);
      FurtherStep(s, o, g.collected, needed, text, rest, GatherOptional(s, g, i, needed).st.args);
      assert g.st.args == next.st.args + [text];
    } else {
      NothingFurther(s, o, g.collected, needed, g.st.args);
    }
  }

  // ---- one option ----

  /** Why an option that is named stops the run: its value is refused, there are not enough arguments for it, or its
      last group of items is not complete and may not be filled up. */
  ghost predicate Fails(s: Settings, before: State, t: Taken, error: ParseError) {
    && Names(s, t.token, t.option, t.split)
    && var o := s.options[t.option];
    match error
    case BadFlag =>
      if MaxNum(o) == 0 then o.flagValue(t.split.name, t.split.value).None?
      else IsCollected(s, before, t) && MinNum(o) == t.All(o) == 0 && o.flagValue(t.split.name, "").None?
    case TypedAtLeast =>
      before.args == Stacked([t.token] + t.given) && IsAttached(o, t.split, t.attached) && t.Least(o) < MinNum(o)
    case PartialType => IsCollected(s, before, t) && IsPartial(o, t.All(o)) && o.typeSizeMin == o.typeSizeMax
    case Extras => false
  }

  lemma AttachedTaken(s: Settings, st: State, i: nat, split: Split) returns (texts: seq<string>)
    requires i < |s.options|
    ensures var r, o := Attached(s, st, i, split), s.options[i];
      match r
      case Ok(g) =>
        && g.st == State(st.args, st.events + SuppliedEvents(i, texts))
        && IsAttached(o, split, texts)
        && g.collected == if MaxNum(o) == 0 then 0 else Items(o, texts)
      case Error(e) => e == BadFlag && MaxNum(o) == 0 && o.flagValue(split.name, split.value).None?
  {
    hide AddedCount, MaxNum;
    var r := Attached(s, st, i, split);
    texts := if r.Ok? && r.value.st != st then [r.value.st.events[|st.events|].text] else [];
    if texts != [] {
      assert SuppliedEvents(i, texts) == [Supplied(i, texts[0])];
      assert texts[..0] == [];
    } else {
      assert st.events + SuppliedEvents(i, texts) == st.events;
    }
  }

  /** An option was named and got what it must have. */
  ghost predicate IsFront(s: Settings, st: State, least: Gathered, front: Taken) {
    && front.option < |s.options| && Names(s, front.token, front.option, front.split)
    && var o, results := s.options[front.option], ResultsOf(s, st.events, front.option);
    && st.args == least.st.args + Stacked([front.token] + front.given)
    && least.st.events == st.events + front.Front() && least.collected == front.Least(o)
    && IsAttached(o, front.split, front.attached)
    && IsLeast(o, front.Attached(o), front.given, least.st.args)
    && front.separated == (o.injectSeparator && results != [] && results[|results| - 1] != "")
  }

  lemma NameBringsNothing(s: Settings, events: seq<Event>, token: string, i: nat)
    requires i < |s.options|
    ensures ResultsOf(s, events + [Named(token)], i) == ResultsOf(s, events, i)
  {
    hide AddedResults;
    assert (events + [Named(token)])[..|events|] == events;
  }

  lemma SeparatorBefore(s: Settings, st: State, i: nat)
    requires st.args != [] && i < |s.options|
    ensures var named, results := st.Pop(Named(st.Top())), ResultsOf(s, st.events, i);
      var start := Separated(s, named, i);
      && start.args == named.args
      && start.events == st.events + [Named(st.Top())] + (if start != named then [Filled(i)] else [])
      && (start != named) == (s.options[i].injectSeparator && results != [] && results[|results| - 1] != "")
  {
    hide ResultsOf;
    NameBringsNothing(s, st.events, st.Top(), i);
  }

  lemma FrontGrow(before: seq<Event>, name: seq<Event>, fill: seq<Event>, attached: seq<Event>, given: seq<Event>)
    ensures before + name + fill + attached + given == before + (name + fill + attached + given)
  {
  }

  /** The name and all that it must have. */
  lemma {:induction false} FrontTaken(s: Settings, st: State, kind: Classifier) returns (t: Taken)
    requires st.args != [] && kind == Recognize(s, st.Top()) && kind !in {PositionalMark, NoOption}
    requires TrySplit(kind, st.Top()).Some? && Addressed(s, kind, st.Top()).0 < |s.options|
    ensures t.token == st.Top() && Addressed(s, kind, st.Top()) == (t.option, t.split)
    ensures t.further == [] && t.byDefault == [] && Names(s, t.token, t.option, t.split)
    ensures
      var o, start := s.options[t.option], Separated(s, st.Pop(Named(st.Top())), t.option);
      match Attached(s, start, t.option, t.split)
      case Error(e) => e == BadFlag && MaxNum(o) == 0 && o.flagValue(t.split.name, t.split.value).None?
      case Ok(g) => IsFront(s, st, GatherMin(s, g, t.option), t)
  {
    hide Addressed, Recognize, Names, Attached, GatherMin, MinNum, MaxNum, IsAttached, IsLeast, Items, AddedCount;
    hide TrySplit, ResultsOf, Separated, SuppliedEvents, GivenEvents, Stacked;
    var (i, split) := Addressed(s, kind, st.Top());
    var named := st.Pop(Named(st.Top()));
    var start := Separated(s, named, i);
    SeparatorBefore(s, st, i);
    AddressedNames(s, st.Top(), i, split);
    var attached := AttachedTaken(s, start, i, split);
    var given := [];
    if Attached(s, start, i, split).Ok? {
      given := LeastTaken(s, Attached(s, start, i, split).value, i);
      OneMoreGiven(i, st.Top(), given);
      FrontGrow(st.events, [Named(st.Top())], if start != named then [Filled(i)] else [], SuppliedEvents(i, attached),
        GivenEvents(i, given));
    }
    t := Taken(st.Top(), i, split, start != named, attached, given, [], [], false, [], false, "");
  }

  lemma StackedBoth(left: seq<string>, a: seq<string>, b: seq<string>)
    ensures left + Stacked(a + b) == left + Stacked(b) + Stacked(a)
  {
    assert Stacked(a + b) == Stacked(b) + Stacked(a);
  }

  lemma MarkDrops(s: Settings, st: State, before: seq<Event>, more: seq<Event>)
    requires st.events == before + more
    ensures var marked := st.args != [] && st.Top() == "--";
      DropMark(s, st) == State(if marked then st.args[..|st.args| - 1] else st.args,
        before + more + if marked then [MarkDropped] else [])
  {
    hide Recognize;
    if st.args != [] { ClassesOf(s, st.Top()); }
  }

  lemma FollowTaken(s: Settings, least: Gathered, i: nat) returns (further: seq<string>, left: seq<string>)
    requires i < |s.options|
    ensures var o, needed := s.options[i], RemainingRequired(s, least.st.events, 0);
      var more := GatherOptional(s, least, i, needed);
      && IsFurther(s, o, least.collected, needed, further, left)
      && least.st.args == left + Stacked(further)
      && (HasRoom(o, least.collected) ==>
            more.st.args == left && more.st.events == least.st.events + GivenEvents(i, further)
            && more.collected == least.collected + Items(o, further))
      && (!HasRoom(o, least.collected) ==> further == [])
  {
    hide MaxNum, Items, AddedCount, GatherOptional, RemainingRequired, IsFurther;
    var needed := RemainingRequired(s, least.st.events, 0);
    if HasRoom(s.options[i], least.collected) {
      further := FurtherTaken(s, least, i, needed);
      left := GatherOptional(s, least, i, needed).st.args;
    } else {
      further, left := [], least.st.args;
      NothingFurther(s, s.options[i], least.collected, needed, left);
    }
  }

  /** What follows, and the mark that ends it. */
  lemma {:induction false} RestTaken(s: Settings, st: State, least: Gathered, front: Taken) returns (t: Taken)
    requires IsFront(s, st, least, front) && MinNum(s.options[front.option]) <= least.collected
    ensures IsCollected(s, st, t) && t == front.(further := t.further, left := t.left, marked := t.marked)
    ensures
      var i, o := t.option, s.options[t.option];
      var more := GatherOptional(s, least, i, RemainingRequired(s, least.st.events, 0));
      if HasRoom(o, least.collected) then
        && more.st.args == t.left && more.collected == t.All(o)
        && DropMark(s, more.st) ==
             State(if t.marked && t.left != [] then t.left[..|t.left| - 1] else t.left,
               st.events + t.Front() + GivenEvents(i, t.further) + if t.marked then [MarkDropped] else [])
      else t.further == [] && t.left == least.st.args && !t.marked
  {
    hide MinNum, MaxNum, IsAttached, Items, AddedCount, ResultsOf, GatherOptional, RemainingRequired, IsFurther;
    hide IsLeast;
    hide Names, Recognize, DropMark, HasRoom;
    var i, o := front.option, s.options[front.option];
    var further, left := FollowTaken(s, least, i);
    var more := GatherOptional(s, least, i, RemainingRequired(s, least.st.events, 0));
    var marked := HasRoom(o, least.collected) && left != [] && left[|left| - 1] == "--";
    if HasRoom(o, least.collected) { MarkDrops(s, more.st, least.st.events, GivenEvents(i, further)); }
    t := front.(further := further, left := left, marked := marked);
    StackedBoth(left, [front.token] + front.given, further);
  }

  /** The events so far, and those that complete the option. */
  lemma EventsGrow(before: seq<Event>, front: seq<Event>, further: seq<Event>, mark: seq<Event>, value: seq<Event>,
    fill: seq<Event>, back: seq<Event>)
    ensures before + front + further + mark + value + fill + back ==
      before + (front + further + mark + value + fill + back)
  {
  }

  lemma FrontParts(s: Settings, st: State, least: Gathered, front: Taken)
    requires IsFront(s, st, least, front)
    ensures front.option < |s.options| && least.collected == front.Least(s.options[front.option])
    ensures least.st.events == st.events + front.Front() && Names(s, front.token, front.option, front.split)
  {
    hide MinNum, MaxNum, Items, IsAttached, AddedCount, Names, IsLeast, ResultsOf, Taken.Front, Taken.Least;
  }

  /** Without any text that follows there are as many items as before. */
  lemma AllIs(t: Taken, o: Choice)
    ensures t.further == [] ==> t.All(o) == t.Least(o) && GivenEvents(t.option, t.further) == []
  {
    hide MaxNum, AddedCount;
  }

  lemma OptionalTaken(s: Settings, st: State, least: Gathered, front: Taken) returns (t: Taken)
    requires IsFront(s, st, least, front) && MinNum(s.options[front.option]) <= least.collected
    requires front.further == front.byDefault == []
    ensures t.option == front.option < |s.options| && t.split == front.split && IsCollected(s, st, t)
    ensures t.token == front.token && Names(s, t.token, t.option, t.split)
    ensures
      var o := s.options[t.option];
      var needsValue := MinNum(o) == 0 && MaxNum(o) > 0 && t.All(o) == 0;
      match Optional(s, least, t.option, t.split.name)
      case Error(e) => e == BadFlag && needsValue && o.flagValue(t.split.name, "").None?
      case Ok(g) =>
        && g.collected == t.All(o)
        && (if needsValue then IsFlagValue(o, t.split.name, "", t.byDefault) else t.byDefault == [])
        && g.st.args == (if t.marked && t.left != [] then t.left[..|t.left| - 1] else t.left)
        && g.st.events == st.events + t.Front() + GivenEvents(t.option, t.further)
             + (if t.marked then [MarkDropped] else []) + SuppliedEvents(t.option, t.byDefault)
  {
    hide MinNum, MaxNum, Items, IsAttached, AddedCount, GatherOptional, RemainingRequired, IsFront, DropMark, Names;
    hide IsFurther, IsLeast, ResultsOf;
    FrontParts(s, st, least, front);
    var i, o := front.option, s.options[front.option];
    t := RestTaken(s, st, least, front);
    AllIs(t, o);
    if HasRoom(o, least.collected) {
      var more := GatherOptional(s, least, i, RemainingRequired(s, least.st.events, 0));
      if MinNum(o) == 0 && MaxNum(o) > 0 && more.collected == 0 && o.flagValue(t.split.name, "").Some? {
        var value := o.flagValue(t.split.name, "").value;
        t := t.(byDefault := [value]);
        assert SuppliedEvents(i, [value]) == [Supplied(i, value)];
      }
    }
  }

  /** An option that is named takes its texts as its form and its numbers say, or the run stops for one of three
      reasons. */
  lemma {:induction false} OptionTakes(s: Settings, st: State) returns (t: Taken)
    requires st.args != [] && Recognize(s, st.Top()) !in {PositionalMark, NoOption}
    requires TrySplit(Recognize(s, st.Top()), st.Top()).Some?
    requires Addressed(s, Recognize(s, st.Top()), st.Top()).0 < |s.options|
    ensures t.token == st.Top()
    ensures match ParseArg(s, st, Recognize(s, st.Top()))
      case Ok(next) => IsTaken(s, st, t) && next == AfterTaken(st, t)
      case Error(e) => Fails(s, st, t, e)
  {
    hide Recognize, TrySplit, Addressed, Attached, GatherMin, Optional, MinNum, MaxNum, Separated, IsFront, IsCollected;
    hide Names, Taken.All, Taken.Front, Items, IsFlagValue, IsAttached;
    var front := FrontTaken(s, st, Recognize(s, st.Top()));
    var i := front.option;
    var o, attached := s.options[i], Attached(s, Separated(s, st.Pop(Named(st.Top())), i), i, front.split);
    t := front;
    if attached.Ok? {
      var least := GatherMin(s, attached.value, i);
      FrontParts(s, st, least, front);
      if MinNum(o) > least.collected {
        NotEnough(s, st, least, front);
      } else {
        t := OptionalTaken(s, st, least, front);
        var most := Optional(s, least, i, front.split.name);
        if most.Ok? { t := LastTaken(s, st, most.value, t); }
      }
    }
  }

  lemma NotEnough(s: Settings, st: State, least: Gathered, front: Taken)
    requires IsFront(s, st, least, front) && MinNum(s.options[front.option]) > least.collected
    ensures Fails(s, st, front, TypedAtLeast)
  {
    hide MinNum, MaxNum, Items, IsAttached, AddedCount, Names, ResultsOf, Taken.Front;
    var o := s.options[front.option];
    assert least.st.args == [];
    assert st.args == [] + Stacked([front.token] + front.given);
  }

  lemma KeepsCollected(s: Settings, st: State, t: Taken, filled: bool, back: string)
    requires t.option < |s.options| && IsCollected(s, st, t)
    ensures var u := t.(filled := filled, back := back);
      IsCollected(s, st, u) && u.All(s.options[t.option]) == t.All(s.options[t.option]) && u.Front() == t.Front()
  {
    hide MinNum, MaxNum, Items, IsAttached, AddedCount, Names, ResultsOf, RemainingRequired, IsFurther, IsLeast;
  }

  /** The last group, and the letters that go back. */
  lemma LastTaken(s: Settings, st: State, most: Gathered, front: Taken) returns (t: Taken)
    requires front.option < |s.options| && IsCollected(s, st, front)
    requires
      var o := s.options[front.option];
      && (if MinNum(o) == 0 && MaxNum(o) > 0 && front.All(o) == 0
          then IsFlagValue(o, front.split.name, "", front.byDefault) else front.byDefault == [])
      && most.collected == front.All(o)
      && most.st == State(if front.marked && front.left != [] then front.left[..|front.left| - 1] else front.left,
           st.events + front.Front() + GivenEvents(front.option, front.further)
           + (if front.marked then [MarkDropped] else []) + SuppliedEvents(front.option, front.byDefault))
    ensures t.token == front.token
    ensures var o, done := s.options[front.option], Completed(s, most, front.option);
      match done
      case Error(e) => t == front && e == PartialType && IsPartial(o, t.All(o)) && o.typeSizeMin == o.typeSizeMax
      case Ok(next) =>
        IsTaken(s, st, t) && PushBack(next, if MaxNum(o) == 0 then front.split.rest else "") == AfterTaken(st, t)
  {
    hide MinNum, MaxNum, IsCollected, Taken.All, Taken.Front, IsFlagValue, GivenEvents, SuppliedEvents;
    var o := s.options[front.option];
    var filled := IsPartial(o, most.collected);
    t := front;
    if Completed(s, most, front.option).Ok? {
      var back := if MaxNum(o) == 0 then front.split.rest else "";
      t := front.(filled := filled, back := back);
      KeepsCollected(s, st, front, filled, back);
      EventsGrow(st.events, t.Front(), GivenEvents(t.option, t.further), if t.marked then [MarkDropped] else [],
        SuppliedEvents(t.option, t.byDefault), if filled then [Filled(t.option)] else [],
        if back == "" then [] else [PushedBack("-" + back)]);
    }
  }
}
