/** How a flat App of CLI11 (no subcommands, no parent) eats its arguments, as functions.
    The arguments are a stack whose top, the last one, is the next to be looked at. */
module CliAppSpec {
  import opened Text
  import opened Results
  import opened CliConfigValue

  // ---- options ----

  /** An option: the names it answers to, how many items it wants, and what it makes of them.
      The value of a flag can be refused. */
  datatype Choice = Choice(isShort: string -> bool, isLong: string -> bool, isPositional: bool, required: bool,
                           typeSizeMin: nat, typeSizeMax: nat, expectedMin: nat, expectedMax: nat,
                           allowExtraArgs: bool, injectSeparator: bool, delimiter: char,
                           flagValue: (string, string) -> Option<string>, accepts: string -> bool)

  datatype Settings = Settings(options: seq<Choice>, positionalsAtEnd: bool, validatePositionals: bool,
                               validateOptionalArguments: bool, prefixCommand: bool,
                               allowWindowsStyle: bool, allowNonStandard: bool)

  const MAX_VECTOR_SIZE: nat := 0x2000_0000

  /** A product of two sizes, or the size of an unlimited vector when an int cannot hold it. */
  function Sized(a: nat, b: nat): nat { if a * b < 0x8000_0000 then a * b else MAX_VECTOR_SIZE }

  function ItemsMin(o: Choice): nat { o.typeSizeMin * o.expectedMin }

  function ItemsMax(o: Choice): nat { Sized(o.typeSizeMax, o.expectedMax) }

  /** The least number of items that the name of the option must be followed by. */
  function MinNum(o: Choice): nat { if o.typeSizeMin <= ItemsMin(o) then o.typeSizeMin else ItemsMin(o) }

  /** The most items it takes: an unlimited vector without extra arguments is held to one group. */
  function MaxNum(o: Choice): nat {
    if ItemsMax(o) >= MAX_VECTOR_SIZE / 16 && !o.allowExtraArgs then Sized(o.typeSizeMax, o.expectedMin)
    else ItemsMax(o)
  }

  function TakingOf(o: Choice): Taking { Taking(o.allowExtraArgs || o.expectedMax > 1, o.delimiter) }

  // ---- the shape of an argument ----

  datatype Classifier = PositionalMark | Short | Long | WindowsStyle | NoOption

  /** The name in an argument, a value given with '=' or ':', and the rest behind a short name. */
  datatype Split = Split(name: string, value: string, rest: string)

  predicate ValidFirstChar(c: char) { c != '-' && c > '!' }

  function SplitShort(s: string): Option<Split> {
    if |s| > 1 && s[0] == '-' && ValidFirstChar(s[1]) then Some(Split([s[1]], "", s[2..])) else None
  }

  function SplitAt(s: string, from: nat, separator: char): Split
    requires from <= |s| && separator !in s[..from]
  {
    var n := IndexOf(s, separator);
    if n < |s| then Split(s[from..n], s[n + 1..], "") else Split(s[from..], "", "")
  }

  function SplitLong(s: string): Option<Split> {
    if |s| > 2 && s[..2] == "--" && ValidFirstChar(s[2]) then Some(SplitAt(s, 2, '=')) else None
  }

  function SplitWindows(s: string): Option<Split> {
    if |s| > 1 && s[0] == '/' && ValidFirstChar(s[1]) then Some(SplitAt(s, 1, ':')) else None
  }

  predicate IsDigit(c: char) { '0' <= c <= '9' }

  predicate Answers(o: Choice, kind: Classifier, name: string) {
    match kind
    case Long => o.isLong(name)
    case Short => o.isShort(name)
    case _ => o.isLong(name) || o.isShort(name)
  }

  /** The first option from the i-th on that answers to a name, or the number of options. */
  function FindName(s: Settings, kind: Classifier, name: string, i: nat): (r: nat)
    requires i <= |s.options|
    ensures i <= r <= |s.options|
    ensures r < |s.options| ==> Answers(s.options[r], kind, name)
    ensures forall k | i <= k < r :: !Answers(s.options[k], kind, name)
    decreases |s.options| - i
  {
    if i == |s.options| || Answers(s.options[i], kind, name) then i else FindName(s, kind, name, i + 1)
  }

  /** A digit behind a dash is a number, unless it is the name of an option. */
  function Recognize(s: Settings, current: string): Classifier {
    if current == "--" then PositionalMark
    else if SplitLong(current).Some? then Long
    else if SplitShort(current).Some? then
      if IsDigit(current[1]) && FindName(s, Short, [current[1]], 0) == |s.options| then NoOption else Short
    else if s.allowWindowsStyle && SplitWindows(current).Some? then WindowsStyle
    else NoOption
  }

  // ---- what happened to the arguments ----

  /** One thing that was done: an argument named an option, an argument became a value of an option, a
      text that came with a name or by default did, an empty text was put between values, the rest of a
      group of short options went back to the arguments, an argument was not taken by anything, and
      the "--" that ends a list was dropped. */
  datatype Event =
    | Named(token: string)
    | Given(option: nat, token: string)
    | Supplied(option: nat, text: string)
    | Filled(option: nat)
    | PushedBack(token: string)
    | Missed(kind: Classifier, token: string)
    | MarkDropped

  /** The results of an option after some events. */
  function ResultsOf(s: Settings, events: seq<Event>, option: nat): seq<string>
    requires option < |s.options|
  {
    if events == [] then []
    else
      var before := ResultsOf(s, events[..|events| - 1], option);
      match events[|events| - 1]
      case Given(o, token) => if o == option then before + AddedResults(token, TakingOf(s.options[o])) else before
      case Supplied(o, text) => if o == option then before + AddedResults(text, TakingOf(s.options[o])) else before
      case Filled(o) => if o == option then before + [""] else before
      case _ => before
  }

  function Count(s: Settings, events: seq<Event>, option: nat): nat
    requires option < |s.options|
  {
    |ResultsOf(s, events, option)|
  }

  // ---- positionals ----

  /** How many items the required positionals from the i-th option on still need. */
  function RemainingRequired(s: Settings, events: seq<Event>, i: nat): nat
    requires i <= |s.options|
    decreases |s.options| - i
  {
    if i == |s.options| then 0
    else
      (var o := s.options[i];
       if o.isPositional && o.required && Count(s, events, i) < ItemsMin(o) then ItemsMin(o) - Count(s, events, i)
       else 0)
      + RemainingRequired(s, events, i + 1)
  }

  predicate MayTake(s: Settings, o: Choice, text: string) { s.validatePositionals ==> o.accepts(text) }

  predicate IsOpen(s: Settings, events: seq<Event>, i: nat, text: string, requiredOnly: bool)
    requires i < |s.options|
  {
    var o := s.options[i];
    && o.isPositional
    && (if requiredOnly then o.required && Count(s, events, i) < ItemsMin(o)
        else Count(s, events, i) < ItemsMax(o) || o.allowExtraArgs)
    && MayTake(s, o, text)
  }

  /** The first open positional from the i-th option on, or the number of options. */
  function FirstOpen(s: Settings, events: seq<Event>, text: string, requiredOnly: bool, i: nat): (r: nat)
    requires i <= |s.options|
    ensures i <= r <= |s.options|
    ensures r < |s.options| ==> IsOpen(s, events, r, text, requiredOnly)
    ensures forall k | i <= k < r :: !IsOpen(s, events, k, text, requiredOnly)
    decreases |s.options| - i
  {
    if i == |s.options| || IsOpen(s, events, i, text, requiredOnly) then i
    else FirstOpen(s, events, text, requiredOnly, i + 1)
  }

  /** The positional for the top argument: with positionals at the end, required ones go first as soon as
      the arguments only just suffice for them. */
  function Slot(s: Settings, events: seq<Event>, args: seq<string>): (r: nat)
    requires args != []
    ensures r <= |s.options|
  {
    var text := args[|args| - 1];
    var preferred := if s.positionalsAtEnd && |args| <= RemainingRequired(s, events, 0)
                     then FirstOpen(s, events, text, true, 0) else |s.options|;
    if preferred < |s.options| then preferred else FirstOpen(s, events, text, false, 0)
  }

  // ---- the run ----

  datatype ParseError = TypedAtLeast | PartialType | Extras | BadFlag

  type Outcome<+T> = Result<T, ParseError>

  datatype State = State(args: seq<string>, events: seq<Event>) {
    function Top(): string
      requires args != []
    {
      args[|args| - 1]
    }

    /** The top argument is gone, and this is what happened to it. */
    function Pop(e: Event): State
      requires args != []
    {
      State(args[..|args| - 1], events + [e])
    }

    function Note(e: Event): State { State(args, events + [e]) }
  }

  function Separated(s: Settings, st: State, i: nat): State
    requires i < |s.options|
  {
    var results := ResultsOf(s, st.events, i);
    if s.options[i].injectSeparator && results != [] && results[|results| - 1] != "" then st.Note(Filled(i)) else st
  }

  function MissAll(st: State): State
    decreases |st.args|
  {
    if st.args == [] then st else MissAll(st.Pop(Missed(NoOption, st.Top())))
  }

  function ParsePositional(s: Settings, st: State): Outcome<State>
    requires st.args != []
  {
    var i := Slot(s, st.events, st.args);
    if i < |s.options| then Ok(Separated(s, st, i).Pop(Given(i, st.Top())))
    else if s.positionalsAtEnd then Error(Extras)
    else
      var next := st.Pop(Missed(NoOption, st.Top()));
      Ok(if s.prefixCommand then MissAll(next) else next)
  }

  function TrySplit(kind: Classifier, current: string): Option<Split> {
    match kind
    case Long => SplitLong(current)
    case Short => SplitShort(current)
    case WindowsStyle => SplitWindows(current)
    case _ => None
  }

  /** An argument is only split as what it was recognised to be, so that splitting it succeeds. */
  lemma RecognizedSplits(s: Settings, current: string)
    ensures Recognize(s, current) !in {PositionalMark, NoOption} ==> TrySplit(Recognize(s, current), current).Some?
  {
    hide FindName;
  }

  /** The option that an argument names and how it is split: -name=value may be a long name after one dash. */
  function Addressed(s: Settings, kind: Classifier, current: string): (r: (nat, Split))
    requires TrySplit(kind, current).Some?
    ensures r.0 <= |s.options|
  {
    var split := TrySplit(kind, current).value;
    var i := FindName(s, kind, split.name, 0);
    if i == |s.options| && s.allowNonStandard && kind == Short && |current| > 2 then
      var long := SplitLong("-" + current).value;
      (FindName(s, Short, long.name, 0), if FindName(s, Short, long.name, 0) < |s.options| then long else split)
    else (i, split)
  }

  /** The arguments and events, and the number of items that an option has collected from one name. */
  datatype Gathered = Gathered(st: State, collected: nat)

  function AddedCount(o: Choice, text: string): nat { |AddedResults(text, TakingOf(o))| }

  /** What the name itself brings: the value of a flag, a value after '=', or the rest behind a short name. */
  function Attached(s: Settings, st: State, i: nat, split: Split): Outcome<Gathered>
    requires i < |s.options|
  {
    var o := s.options[i];
    if MaxNum(o) == 0 then
      var value := o.flagValue(split.name, split.value);
      if value.None? then Error(BadFlag) else Ok(Gathered(st.Note(Supplied(i, value.value)), 0))
    else if split.value != "" then Ok(Gathered(st.Note(Supplied(i, split.value)), AddedCount(o, split.value)))
    else if split.rest != "" then Ok(Gathered(st.Note(Supplied(i, split.rest)), AddedCount(o, split.rest)))
    else Ok(Gathered(st, 0))
  }

  /** Whatever comes next, until there are enough items. */
  function GatherMin(s: Settings, g: Gathered, i: nat): Gathered
    requires i < |s.options|
    decreases |g.st.args|
  {
    var o := s.options[i];
    if MinNum(o) > g.collected && g.st.args != [] then
      GatherMin(s, Gathered(g.st.Pop(Given(i, g.st.Top())), g.collected + AddedCount(o, g.st.Top())), i)
    else g
  }

  /** Further arguments that look like no option, leaving as many as the required positionals need. */
  function GatherOptional(s: Settings, g: Gathered, i: nat, needed: nat): Gathered
    requires i < |s.options|
    decreases |g.st.args|
  {
    var o := s.options[i];
    if (g.collected < MaxNum(o) || o.allowExtraArgs) && g.st.args != [] && Recognize(s, g.st.Top()) == NoOption
      && needed < |g.st.args| && (s.validateOptionalArguments ==> o.accepts(g.st.Top()))
    then GatherOptional(s, Gathered(g.st.Pop(Given(i, g.st.Top())), g.collected + AddedCount(o, g.st.Top())), i, needed)
    else g
  }

  function DropMark(s: Settings, st: State): State {
    if st.args != [] && Recognize(s, st.Top()) == PositionalMark then st.Pop(MarkDropped) else st
  }

  /** The optional arguments, the mark that ends them, and the value of an option that got none. */
  function Optional(s: Settings, g: Gathered, i: nat, name: string): Outcome<Gathered>
    requires i < |s.options|
  {
    var o := s.options[i];
    if MaxNum(o) > g.collected || o.allowExtraArgs then
      var more := GatherOptional(s, g, i, RemainingRequired(s, g.st.events, 0));
      var st := DropMark(s, more.st);
      if MinNum(o) == 0 && MaxNum(o) > 0 && more.collected == 0 then
        var value := o.flagValue(name, "");
        if value.None? then Error(BadFlag) else Ok(Gathered(st.Note(Supplied(i, value.value)), 0))
      else Ok(Gathered(st, more.collected))
    else Ok(g)
  }

  /** The last group of items must be complete, or is filled up when its size may vary. */
  function Completed(s: Settings, g: Gathered, i: nat): Outcome<State>
    requires i < |s.options|
  {
    var o := s.options[i];
    if MinNum(o) > 0 && o.typeSizeMax > 0 && g.collected % o.typeSizeMax != 0 then
      if o.typeSizeMax != o.typeSizeMin then Ok(g.st.Note(Filled(i))) else Error(PartialType)
    else Ok(g.st)
  }

  /** Letters behind a flag are looked at as the next argument. */
  function PushBack(st: State, rest: string): State {
    if rest == "" then st else State(st.args + ["-" + rest], st.events + [PushedBack("-" + rest)])
  }

  /** An argument that looks like the name of an option. */
  function ParseArg(s: Settings, st: State, kind: Classifier): Outcome<State>
    requires st.args != [] && TrySplit(kind, st.Top()).Some?
  {
    var (i, split) := Addressed(s, kind, st.Top());
    if i == |s.options| then Ok(st.Pop(Missed(kind, st.Top())))
    else
      var o := s.options[i];
      var attached :- Attached(s, Separated(s, st.Pop(Named(st.Top())), i), i, split);
      var least := GatherMin(s, attached, i);
      if MinNum(o) > least.collected then Error(TypedAtLeast)
      else
        var most :- Optional(s, least, i, split.name);
        var done :- Completed(s, most, i);
        Ok(PushBack(done, if MaxNum(o) == 0 then split.rest else ""))
  }

  /** The next argument, and whether from here on all arguments are positional. */
  function ParseSingle(s: Settings, st: State, positionalOnly: bool): Outcome<(State, bool)>
    requires st.args != []
  {
    var kind := if positionalOnly then NoOption else Recognize(s, st.Top());
    match kind
    case PositionalMark => Ok((st.Pop(Missed(PositionalMark, "--")), true))
    case NoOption =>
      var next :- ParsePositional(s, st);
      Ok((next, positionalOnly || s.positionalsAtEnd))
    case _ =>
      RecognizedSplits(s, st.Top());
      var next :- ParseArg(s, st, kind);
      Ok((next, positionalOnly))
  }

  // ---- progress ----

  /** The length of all arguments together and their number. */
  function Size(args: seq<string>): nat { if args == [] then 0 else Size(args[..|args| - 1]) + |args[|args| - 1]| + 1 }

  lemma {:induction false} SizeOfMore(args: seq<string>, a: string)
    ensures Size(args + [a]) == Size(args) + |a| + 1
  {
    assert (args + [a])[..|args|] == args;
  }

  lemma {:induction false} MissAllShrinks(st: State)
    ensures Size(MissAll(st).args) <= Size(st.args)
    decreases |st.args|
  {
    if st.args != [] { MissAllShrinks(st.Pop(Missed(NoOption, st.Top()))); }
  }

  lemma {:induction false} GatherMinShrinks(s: Settings, g: Gathered, i: nat)
    requires i < |s.options|
    ensures Size(GatherMin(s, g, i).st.args) <= Size(g.st.args)
    decreases |g.st.args|
  {
    hide AddedCount, MinNum;
    if MinNum(s.options[i]) > g.collected && g.st.args != [] {
      GatherMinShrinks(s, Gathered(g.st.Pop(Given(i, g.st.Top())), g.collected + AddedCount(s.options[i], g.st.Top())),
        i);
    }
  }

  lemma {:induction false} GatherOptionalShrinks(s: Settings, g: Gathered, i: nat, needed: nat)
    requires i < |s.options|
    ensures Size(GatherOptional(s, g, i, needed).st.args) <= Size(g.st.args)
    decreases |g.st.args|
  {
    hide AddedCount, MaxNum, Recognize;
    if g.st.args != [] && GatherOptional(s, g, i, needed) != g {
      GatherOptionalShrinks(s,
        Gathered(g.st.Pop(Given(i, g.st.Top())), g.collected + AddedCount(s.options[i], g.st.Top())), i, needed);
    }
  }

  lemma OptionalShrinks(s: Settings, g: Gathered, i: nat, name: string)
    requires i < |s.options|
    ensures var r := Optional(s, g, i, name); r.Ok? ==> Size(r.value.st.args) <= Size(g.st.args)
  {
    hide GatherOptional, RemainingRequired, Recognize, MinNum, MaxNum;
    GatherOptionalShrinks(s, g, i, RemainingRequired(s, g.st.events, 0));
  }

  /** The letters that go back are less than the argument they came from. */
  lemma RestIsShorter(s: Settings, kind: Classifier, current: string)
    requires TrySplit(kind, current).Some?
    ensures Addressed(s, kind, current).1.rest != "" ==> |Addressed(s, kind, current).1.rest| + 2 == |current|
  {
    hide FindName;
  }

  lemma {:induction false} ArgShrinks(s: Settings, st: State, kind: Classifier)
    requires st.args != [] && TrySplit(kind, st.Top()).Some?
    ensures var r := ParseArg(s, st, kind); r.Ok? ==> Size(r.value.args) < Size(st.args)
  {
    hide Addressed, Attached, GatherMin, Optional, MinNum, MaxNum, Separated, Completed, PushBack, Size, TrySplit;
    var (i, split) := Addressed(s, kind, st.Top());
    PopShrinks(st, Missed(kind, st.Top()));
    PopShrinks(st, Named(st.Top()));
    if i < |s.options| && ParseArg(s, st, kind).Ok? {
      SeparatedKeepsArgs(s, st.Pop(Named(st.Top())), i);
      var popped := Separated(s, st.Pop(Named(st.Top())), i);
      AttachedKeepsArgs(s, popped, i, split);
      var least := GatherMin(s, Attached(s, popped, i, split).value, i);
      GatherMinShrinks(s, Attached(s, popped, i, split).value, i);
      OptionalShrinks(s, least, i, split.name);
      var most := Optional(s, least, i, split.name).value;
      CompletedKeepsArgs(s, most, i);
      RestIsShorter(s, kind, st.Top());
      PushBackSize(Completed(s, most, i).value, split.rest);
      PushBackSize(Completed(s, most, i).value, "");
    }
  }

  lemma CompletedKeepsArgs(s: Settings, g: Gathered, i: nat)
    requires i < |s.options|
    ensures var r := Completed(s, g, i); r.Ok? ==> r.value.args == g.st.args
  {
    hide MinNum;
  }

  lemma PushBackSize(st: State, rest: string)
    ensures Size(PushBack(st, rest).args) == Size(st.args) + if rest == "" then 0 else |rest| + 2
  {
    hide Size;
    if rest != "" { SizeOfMore(st.args, "-" + rest); }
  }

  lemma AttachedKeepsArgs(s: Settings, st: State, i: nat, split: Split)
    requires i < |s.options|
    ensures var r := Attached(s, st, i, split); r.Ok? ==> r.value.st.args == st.args
  {
    hide MaxNum, AddedCount;
  }

  /** Every step makes the arguments smaller, even where letters go back to them. */
  lemma {:induction false} SingleShrinks(s: Settings, st: State, positionalOnly: bool)
    requires st.args != []
    ensures var r := ParseSingle(s, st, positionalOnly); r.Ok? ==> Size(r.value.0.args) < Size(st.args)
  {
    hide ParseArg, ParsePositional, Recognize, TrySplit, Size;
    RecognizedSplits(s, st.Top());
    var kind := if positionalOnly then NoOption else Recognize(s, st.Top());
    PopShrinks(st, Missed(PositionalMark, "--"));
    if kind == NoOption {
      PositionalShrinks(s, st);
    } else if kind != PositionalMark {
      ArgShrinks(s, st, kind);
    }
  }

  lemma PopShrinks(st: State, e: Event)
    requires st.args != []
    ensures Size(st.Pop(e).args) + |st.Top()| + 1 == Size(st.args)
  {
  }

  lemma PositionalShrinks(s: Settings, st: State)
    requires st.args != []
    ensures var r := ParsePositional(s, st); r.Ok? ==> Size(r.value.args) < Size(st.args)
  {
    hide Slot, ResultsOf, Size;
    PopShrinks(st, Missed(NoOption, st.Top()));
    MissAllShrinks(st.Pop(Missed(NoOption, st.Top())));
    var i := Slot(s, st.events, st.args);
    if i < |s.options| {
      SeparatedKeepsArgs(s, st, i);
      PopShrinks(Separated(s, st, i), Given(i, st.Top()));
    }
  }

  lemma SeparatedKeepsArgs(s: Settings, st: State, i: nat)
    requires i < |s.options|
    ensures Separated(s, st, i).args == st.args
  {
    hide ResultsOf;
  }

  /** The whole run: it ends with no arguments left or with an error. */
  function Run(s: Settings, st: State, positionalOnly: bool): (r: Outcome<State>)
    ensures r.Ok? ==> r.value.args == []
    decreases Size(st.args)
  {
    if st.args == [] then Ok(st)
    else
      SingleShrinks(s, st, positionalOnly);
      var next :- ParseSingle(s, st, positionalOnly);
      Run(s, next.0, next.1)
  }
}
