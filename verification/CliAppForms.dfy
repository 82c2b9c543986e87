/** The forms in which an option is written on the command line of an App: how they come apart, what they are
    recognised as, and which option they name. */
module CliAppForms {
  import opened Text
  import opened CliAppSpec

  // ---- the forms ----

  predicate StartsForm(token: string, mark: string) {
    |token| > |mark| && token[..|mark|] == mark && ValidFirstChar(token[|mark|])
  }

  /** A name, or a name, a separator and a value; the first separator ends the name. */
  predicate IsPair(text: string, separator: char, name: string, value: string) {
    && separator !in name
    && if separator in text then text == name + [separator] + value else text == name && value == ""
  }

  predicate IsForm(token: string, mark: string, separator: char, split: Split) {
    && StartsForm(token, mark)
    && IsPair(token[|mark|..], separator, split.name, split.value)
    && split.rest == ""
  }

  /** A letter behind a dash, and what follows it. */
  predicate IsShortForm(token: string, split: Split) {
    && StartsForm(token, "-")
    && token[1..] == split.name + split.rest && |split.name| == 1 && split.value == ""
  }

  /** A text comes apart in one way. */
  lemma PairEnds(text: string, separator: char, name: string, value: string)
    ensures var n := IndexOf(text, separator);
      IsPair(text, separator, name, value) <==> name == text[..n] && value == if n < |text| then text[n + 1..] else ""
  {
    hide IndexOf;
    var n := IndexOf(text, separator);
    assert separator in text <==> n < |text| by {
      if separator in text { var i :| 0 <= i < |text| && text[i] == separator; }
    }
    if n < |text| {
      assert text == text[..n] + [separator] + text[n + 1..];
      if separator !in name && text == name + [separator] + value { SeparatorEnds(text, separator, name, value); }
    }
  }

  lemma SeparatorEnds(text: string, separator: char, name: string, value: string)
    requires separator !in name && text == name + [separator] + value
    ensures IndexOf(text, separator) == |name|
  {
    hide IndexOf;
    assert text[|name|] == separator && forall i | 0 <= i < |name| :: text[i] == name[i];
  }

  lemma SplitAtIs(token: string, mark: string, separator: char, split: Split)
    requires StartsForm(token, mark) && separator !in mark
    ensures separator !in token[..|mark|]
    ensures SplitAt(token, |mark|, separator) == split <==> IsForm(token, mark, separator, split)
  {
    hide IndexOf, IsPair;
    var text := token[|mark|..];
    var n, m := IndexOf(token, separator), IndexOf(text, separator);
    PairEnds(text, separator, split.name, split.value);
    assert forall i | 0 <= i < |mark| :: token[i] == mark[i] && mark[i] in mark;
    assert forall i | 0 <= i < |text| :: text[i] == token[|mark| + i];
    assert n == |mark| + m;
    assert token[|mark|..n] == text[..m];
    if n < |token| { assert token[n + 1..] == text[m + 1..]; }
  }

  /** split_long, split_short and split_windows_style take exactly these forms, and take them apart. */
  lemma {:induction false} FormsComeApart(token: string, split: Split)
    ensures SplitLong(token) == Some(split) <==> IsForm(token, "--", '=', split)
    ensures SplitShort(token) == Some(split) <==> IsShortForm(token, split)
    ensures SplitWindows(token) == Some(split) <==> IsForm(token, "/", ':', split)
  {
    hide SplitAt, IsPair;
    assert |token| > 1 ==> token[..1] == [token[0]];
    if StartsForm(token, "--") { SplitAtIs(token, "--", '=', split); }
    if StartsForm(token, "/") { SplitAtIs(token, "/", ':', split); }
    if StartsForm(token, "-") {
      var text := token[1..];
      assert text == [token[1]] + token[2..] && text[..1] == [token[1]] && text[1..] == token[2..];
      if IsShortForm(token, split) { assert text[..1] == split.name && text[1..] == split.rest; }
    }
  }

  /** In particular a name and its value are read from what is printed of them, exactly when the name holds no '='
      and may start a name. */
  lemma {:induction false} PrintedComesApart(name: string, value: string)
    ensures SplitLong("--" + name + "=" + value) == Some(Split(name, value, "")) <==>
      '=' !in name && ValidFirstChar((name + "=")[0])
    ensures SplitLong("--" + name) == Some(Split(name, "", "")) <==>
      '=' !in name && name != "" && ValidFirstChar(name[0])
  {
    hide SplitLong;
    var token, plain := "--" + name + "=" + value, "--" + name;
    FormsComeApart(token, Split(name, value, ""));
    FormsComeApart(plain, Split(name, "", ""));
    assert token[2..] == name + "=" + value && plain[2..] == name && token[..2] == "--" == plain[..2];
    assert token[2] == (name + "=")[0] && (name + "=" + value)[|name|] == '=';
  }

  // ---- what they are recognised as ----

  predicate SomeAnswers(s: Settings, kind: Classifier, name: string) {
    exists i | 0 <= i < |s.options| :: Answers(s.options[i], kind, name)
  }

  /** A digit behind a dash starts a name exactly when some option has that name. */
  predicate IsShortName(s: Settings, token: string) {
    StartsForm(token, "-") && (IsDigit(token[1]) ==> SomeAnswers(s, Short, [token[1]]))
  }

  /** The five classes. */
  lemma {:induction false} ClassesOf(s: Settings, token: string)
    ensures Recognize(s, token) == PositionalMark <==> token == "--"
    ensures Recognize(s, token) == Long <==> StartsForm(token, "--")
    ensures Recognize(s, token) == Short <==> IsShortName(s, token)
    ensures Recognize(s, token) == WindowsStyle <==> s.allowWindowsStyle && StartsForm(token, "/")
  {
    hide FindName, SplitAt;
    assert |token| > 1 ==> token[..1] == [token[0]];
    assert |token| > 2 ==> token[..2] == [token[0], token[1]];
    if StartsForm(token, "-") {
      var i := FindName(s, Short, [token[1]], 0);
      if i < |s.options| { assert Answers(s.options[i], Short, [token[1]]); }
    }
  }

  // ---- the option that is named ----

  predicate IsFirst(s: Settings, i: nat, kind: Classifier, name: string) {
    && i < |s.options| && Answers(s.options[i], kind, name)
    && forall k | 0 <= k < i :: !Answers(s.options[k], kind, name)
  }

  /** The forms that name an option: a long name, a short one, one in Windows style, or a long name behind one dash
      when no option has its first letter as a short name. */
  ghost predicate Names(s: Settings, token: string, i: nat, split: Split) {
    || (IsForm(token, "--", '=', split) && IsFirst(s, i, Long, split.name))
    || (IsShortName(s, token) && IsShortForm(token, split) && IsFirst(s, i, Short, split.name))
    || (s.allowWindowsStyle && IsForm(token, "/", ':', split) && IsFirst(s, i, WindowsStyle, split.name))
    || (s.allowNonStandard && IsShortName(s, token) && |token| > 2 && !SomeAnswers(s, Short, [token[1]])
        && IsForm(token, "-", '=', split) && IsFirst(s, i, Short, split.name))
  }

  lemma FindIsFirst(s: Settings, kind: Classifier, name: string)
    ensures var i := FindName(s, kind, name, 0);
      (i < |s.options| <==> SomeAnswers(s, kind, name)) && (i < |s.options| ==> IsFirst(s, i, kind, name))
  {
    hide FindName;
    var i := FindName(s, kind, name, 0);
    if i < |s.options| { assert Answers(s.options[i], kind, name); }
  }

  lemma OneForm(s: Settings, token: string, i: nat, split: Split)
    ensures StartsForm(token, "--") ==>
      (Names(s, token, i, split) <==> IsForm(token, "--", '=', split) && IsFirst(s, i, Long, split.name))
    ensures StartsForm(token, "/") && s.allowWindowsStyle ==>
      (Names(s, token, i, split) <==> IsForm(token, "/", ':', split) && IsFirst(s, i, WindowsStyle, split.name))
    ensures StartsForm(token, "-") ==>
      (Names(s, token, i, split) <==>
        && IsShortName(s, token)
        && if SomeAnswers(s, Short, [token[1]]) then IsShortForm(token, split) && IsFirst(s, i, Short, split.name)
           else s.allowNonStandard && |token| > 2 && IsForm(token, "-", '=', split) && IsFirst(s, i, Short, split.name))
  {
    assert |token| > 1 ==> token[..1] == [token[0]];
    assert |token| > 2 ==> token[..2] == [token[0], token[1]];
    if IsShortForm(token, split) {
      assert split.name == [token[1]];
      if IsFirst(s, i, Short, split.name) { assert SomeAnswers(s, Short, [token[1]]); }
    }
  }

  /** One more dash makes a long name of it. */
  lemma OneDash(token: string, split: Split)
    requires StartsForm(token, "-")
    ensures SplitLong("-" + token) == Some(split) <==> IsForm(token, "-", '=', split)
    ensures SplitLong("-" + token).Some?
  {
    hide SplitAt;
    var long := "-" + token;
    assert token == "-" + token[1..] && long == "--" + token[1..] && long[2..] == token[1..];
    FormsComeApart(long, split);
  }

  /** The option that an argument is taken to name, and the way it comes apart, are the only ones that its form
      allows. */
  lemma {:induction false} AddressedNames(s: Settings, token: string, k: nat, p: Split)
    requires Recognize(s, token) !in {PositionalMark, NoOption}
    ensures TrySplit(Recognize(s, token), token).Some?
    ensures var r := Addressed(s, Recognize(s, token), token);
      Names(s, token, k, p) <==> r == (k, p) && k < |s.options|
  {
    hide FindName, Recognize, IsForm, Names, IsShortForm, IsFirst, SomeAnswers, SplitLong, SplitWindows;
    RecognizedSplits(s, token);
    ClassesOf(s, token);
    var kind := Recognize(s, token);
    var split := TrySplit(kind, token).value;
    FormsComeApart(token, split);
    FormsComeApart(token, p);
    FindIsFirst(s, kind, split.name);
    OneForm(s, token, k, p);
    FirstIsOne(s, kind, split.name, k);
    if kind == Short {
      OneDash(token, p);
      var long := SplitLong("-" + token).value;
      FindIsFirst(s, Short, long.name);
      FirstIsOne(s, Short, long.name, k);
    }
  }

  lemma FirstIsOne(s: Settings, kind: Classifier, name: string, k: nat)
    ensures IsFirst(s, k, kind, name) <==> k == FindName(s, kind, name, 0) && k < |s.options|
  {
    hide FindName;
  }
}
