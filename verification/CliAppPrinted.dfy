/** Command lines that are written for an App: every option gets the value that was written for it. */
module CliAppPrinted {
  import opened Text
  import opened Results
  import opened CliConfigValue
  import opened CliAppSpec
  import opened CliAppRuns
  import opened CliAppForms
  import opened CliAppBlocks

  // ---- settings ----

  /** A value with its name in one argument, or in the next one. */
  datatype Form = Joined | Apart

  datatype Setting = Setting(form: Form, kind: Classifier, option: nat, name: string, value: string) {
    function Mark(): string { if kind == Short then "-" else if kind == Long then "--" else "/" }

    function Between(): string { if kind == Short then "" else if kind == Long then "=" else ":" }

    /** The arguments, in their order. */
    function Words(): (r: seq<string>)
      ensures r != []
    {
      match form
      case Joined => [Mark() + name + Between() + value]
      case Apart => [Mark() + name, value]
    }

    /** What they do. */
    function Events(): seq<Event> {
      [Named(Words()[0]), if form == Joined then Supplied(option, value) else Given(option, value)]
    }

    function Parts(): Split {
      if form == Apart then Split(name, "", "") else if kind == Short then Split(name, "", value)
      else Split(name, value, "")
    }
  }

  /** An option of one value that keeps its text, and a name that may be written: a long one without '=', one letter,
      or one without ':' in Windows style. */
  ghost predicate IsWritten(s: Settings, w: Setting) {
    && IsFirst(s, w.option, w.kind, w.name)
    && w.name != "" && ValidFirstChar(w.name[0])
    && (match w.kind
        case Long => '=' !in w.name
        case Short => |w.name| == 1
        case WindowsStyle => ':' !in w.name && s.allowWindowsStyle
        case _ => false)
    && (w.form == Joined ==> w.value != "")
    && var o := s.options[w.option];
    && MinNum(o) == MaxNum(o) == o.typeSizeMax == 1 && !o.allowExtraArgs && !o.injectSeparator
    && KeepsText(o, w.value)
  }

  function AllWords(ws: seq<Setting>): seq<string> {
    if ws == [] then [] else ws[0].Words() + AllWords(ws[1..])
  }

  function AllEvents(ws: seq<Setting>): seq<Event> {
    if ws == [] then [] else ws[0].Events() + AllEvents(ws[1..])
  }

  /** What stands behind the mark. */
  function Body(w: Setting): string { w.name + if w.form == Joined then w.Between() + w.value else "" }

  lemma WordStarts(w: Setting)
    requires w.name != "" && ValidFirstChar(w.name[0])
    ensures var token := w.Words()[0];
      token == w.Mark() + Body(w) && StartsForm(token, w.Mark()) && token[|w.Mark()|..] == Body(w)
        && Body(w)[0] == w.name[0]
  {
    var token := w.Words()[0];
    assert token == w.Mark() + Body(w);
    assert token[|w.Mark()|] == Body(w)[0];
  }

  lemma BodyIsPair(w: Setting, separator: char)
    requires separator !in w.name && (w.form == Joined ==> w.Between() == [separator])
    ensures IsPair(Body(w), separator, w.name, if w.form == Joined then w.value else "")
  {
    if w.form == Joined {
      assert Body(w) == w.name + [separator] + w.value;
      assert Body(w)[|w.name|] == separator;
    }
  }

  lemma WrittenForm(s: Settings, w: Setting)
    requires IsWritten(s, w)
    ensures Recognize(s, w.Words()[0]) == w.kind
    ensures Names(s, w.Words()[0], w.option, w.Parts())
  {
    hide MinNum, MaxNum, KeepsText, Recognize, StartsForm, IsPair, Setting.Words, Body;
    var token := w.Words()[0];
    WordStarts(w);
    ClassesOf(s, token);
    match w.kind {
      case Long => BodyIsPair(w, '=');
      case WindowsStyle => BodyIsPair(w, ':');
      case _ => ShortWord(s, w);
    }
  }

  lemma ShortWord(s: Settings, w: Setting)
    requires |w.name| == 1 && w.kind == Short && IsFirst(s, w.option, Short, w.name) && ValidFirstChar(w.name[0])
    ensures IsShortName(s, w.Words()[0]) && IsShortForm(w.Words()[0], w.Parts())
  {
    hide IsFirst;
    var token := w.Words()[0];
    WordStarts(w);
    assert w.Mark() == "-" && |token| == 1 + |Body(w)| && token[1..] == Body(w);
    assert token[1] == Body(w)[0] && [token[1]] == w.name;
    assert SomeAnswers(s, Short, w.name) by { FirstAnswers(s, w.option, w.name); }
    assert Body(w) == w.name + w.Parts().rest;
  }

  lemma FirstAnswers(s: Settings, i: nat, name: string)
    requires IsFirst(s, i, Short, name)
    ensures SomeAnswers(s, Short, name)
  {
  }

  /** Behind the name: the value is taken and nothing else. */
  lemma WrittenRest(s: Settings, w: Setting, rest: seq<string>, events: seq<Event>)
    requires IsWritten(s, w)
    ensures var named := State(rest + (if w.form == Joined then [] else [w.value]), events);
      var done := Gathered(State(rest, events + [w.Events()[1]]), 1);
      var attached := Attached(s, Separated(s, named, w.option), w.option, w.Parts());
      && attached.Ok? && GatherMin(s, attached.value, w.option) == done
      && Optional(s, done, w.option, w.name) == Ok(done) && Completed(s, done, w.option) == Ok(done.st)
  {
    hide KeepsText, MinNum, MaxNum, AddedResults, Recognize, ResultsOf;
    KeptText(s.options[w.option], w.value);
    if w.form == Joined {
      assert rest + [] == rest;
    } else {
      assert (rest + [w.value])[..|rest|] == rest;
    }
  }

  /** One written option is read, whatever follows. */
  lemma {:induction false} WrittenTaken(s: Settings, w: Setting, rest: seq<string>, events: seq<Event>)
    requires IsWritten(s, w)
    ensures ParseSingle(s, State(rest + Stacked(w.Words()), events), false) ==
      Ok((State(rest, events + w.Events()), false))
  {
    hide Recognize, Names, KeepsText, MinNum, MaxNum, AddedResults, TrySplit, Addressed, IsFirst, Attached, GatherMin;
    hide Optional, Completed, Separated;
    var st := State(rest + Stacked(w.Words()), events);
    var token := w.Words()[0];
    WrittenForm(s, w);
    assert st.Top() == token;
    AddressedNames(s, token, w.option, w.Parts());
    WrittenRest(s, w, rest, events + [Named(token)]);
    assert st.args[..|st.args| - 1] == rest + if w.form == Joined then [] else [w.value];
    assert events + [Named(token)] + [w.Events()[1]] == events + w.Events();
  }

  lemma StackedWords(w: Setting, words: seq<string>)
    ensures Stacked(w.Words() + words) == Stacked(words) + Stacked(w.Words()) != []
  {
    StackedBoth([], w.Words(), words);
    Regroup([], Stacked(words), Stacked(w.Words()));
  }

  /** A command line of written options, in any of the forms and in any order, is read as just these: every option gets
      its value, in order, and nothing is missing. */
  lemma {:induction false} WrittenOptionsParse(s: Settings, ws: seq<Setting>, events: seq<Event>)
    requires forall k | 0 <= k < |ws| :: IsWritten(s, ws[k])
    ensures Run(s, State(Stacked(AllWords(ws)), events), false) == Ok(State([], events + AllEvents(ws)))
    decreases |ws|
  {
    hide ParseSingle, IsWritten, Stacked, Setting.Words, Setting.Events, Size;
    if ws == [] {
      assert events + [] == events;
    } else {
      var w, rest := ws[0], ws[1..];
      WrittenTaken(s, w, Stacked(AllWords(rest)), events);
      StackedWords(w, AllWords(rest));
      var st := State(Stacked(AllWords(ws)), events);
      SingleShrinks(s, st, false);
      WrittenOptionsParse(s, rest, events + w.Events());
      Regroup(events, w.Events(), AllEvents(rest));
    }
  }
}
