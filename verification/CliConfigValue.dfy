/** Config values: how a list of strings is printed into a config file
    (convert_arg_for_ini, ini_join) and how it is read again (the value part of
    from_config, split_up, process_quoted_string, _add_result), with the
    default array characters and quotes. Whether a string converts to a double
    is any predicate. */
module CliConfigValue {
  import opened Text
  import opened Results
  import opened CliEscape
  import opened CliBinary
  import opened CliBrackets

  type Number = string -> bool

  // ---- printing ----

  predicate IsPrintable(s: string) {
    forall i | 0 <= i < |s| :: IsPrint(s[i]) || s[i] == '\n' || s[i] == '\t'
  }

  predicate HasEscapable(s: string) { exists i | 0 <= i < |s| :: IsEscapable(s[i]) }

  predicate IsDecimalChar(c: char) { '0' <= c <= '9' || c == '.' || c == '-' || c == '+' || c == 'e' || c == 'E' }

  predicate IsDecimal(s: string) { forall i | 0 <= i < |s| :: IsDecimalChar(s[i]) }

  predicate IsOctal(s: string) { forall i | 0 <= i < |s| :: '0' <= s[i] <= '7' }

  predicate IsBinary(s: string) { forall i | 0 <= i < |s| :: s[i] == '0' || s[i] == '1' }

  /** Arguments that are printed without quotes. */
  predicate IsPlain(arg: string, isNumber: Number) {
    || arg == "true" || arg == "false" || arg == "nan" || arg == "inf"
    || (arg != "" && !("0x" <= arg) && !("0X" <= arg) && isNumber(arg) && IsDecimal(arg))
    || (|arg| > 1 && arg[0] == '0' && (
         || (arg[1] == 'x' && AllHex(arg[2..]))
         || (arg[1] == 'o' && IsOctal(arg[2..]))
         || (arg[1] == 'b' && IsBinary(arg[2..]))))
  }

  /** Long strings with characters to escape are printed between triple quotes when they stand alone. */
  predicate NeedsMultiLine(arg: string, isNumber: Number) {
    |arg| > 100 && !IsPlain(arg, isNumber) && IsPrintable(arg) && HasEscapable(arg)
  }

  function ConvertArg(arg: string, disableMultiLine: bool, isNumber: Number): string {
    if arg == "" then "\"\""
    else if IsPlain(arg, isNumber) then arg
    else if |arg| == 1 then
      if !IsPrint(arg[0]) then BinaryEscape(arg)
      else if arg == "'" then "\"'\""
      else "'" + arg + "'"
    else if !IsPrintable(arg) then BinaryEscape(arg)
    else if HasEscapable(arg) then
      if |arg| > 100 && !disableMultiLine then "'''" + arg + "'''" else "\"" + AddEscaped(arg) + "\""
    else "\"" + arg + "\""
  }

  function JoinTokens(tokens: seq<string>): string {
    if tokens == [] then "" else if |tokens| == 1 then tokens[0] else tokens[0] + ", " + JoinTokens(tokens[1..])
  }

  function Converted(args: seq<string>, disableMultiLine: bool, isNumber: Number): (r: seq<string>)
    ensures |r| == |args|
    ensures forall i | 0 <= i < |r| :: r[i] == ConvertArg(args[i], disableMultiLine, isNumber)
  {
    seq(|args|, i requires 0 <= i < |args| => ConvertArg(args[i], disableMultiLine, isNumber))
  }

  function Joined(args: seq<string>, isNumber: Number): string {
    if |args| > 1 then "[" + JoinTokens(Converted(args, true, isNumber)) + "]"
    else JoinTokens(Converted(args, false, isNumber))
  }

  lemma {:induction false} JoinStep(done: seq<string>, next: string)
    ensures JoinTokens(done + [next]) == if done == [] then next else JoinTokens(done) + ", " + next
  {
    if |done| == 1 {
      assert (done + [next])[1..] == [next];
    } else if done != [] {
      assert (done + [next])[1..] == done[1..] + [next];
      JoinStep(done[1..], next);
    }
  }

  lemma NothingJoined()
    ensures JoinTokens([]) == ""
  {
  }

  method IniJoin(args: seq<string>, isNumber: Number) returns (joined: string)
    ensures joined == Joined(args, isNumber)
  {
    hide ConvertArg, JoinTokens;
    NothingJoined();
    var disable_multi_line := false;
    joined := "";
    if |args| > 1 {
      joined := joined + ['['];
      disable_multi_line := true;
    }
    ghost var front, all := joined, Converted(args, disable_multi_line, isNumber);
    var start := 0;
    while start < |args|
      invariant 0 <= start <= |args|
      invariant joined == front + JoinTokens(all[..start])
    {
      JoinStep(all[..start], all[start]);
      assert all[..start + 1] == all[..start] + [all[start]];
      if start > 0 {
        joined := joined + [','];
        joined := joined + [' '];
      }
      joined := joined + ConvertArg(args[start], disable_multi_line, isNumber);
      start := start + 1;
    }
    assert all[..|args|] == all;
    if |args| > 1 {
      joined := joined + [']'];
    }
  }

  // ---- reading ----

  /** Every character twice. */
  function Doubled(s: string): string {
    if s == "" then "" else [s[0], s[0]] + Doubled(s[1..])
  }

  predicate LooksLikeArray(s: string) { |s| >= 2 && s[0] == '[' && s[|s| - 1] == ']' }

  function SecondaryArray(s: string): string {
    if LooksLikeArray(s) then "[[" + Doubled(s[1..]) else s
  }

  method HandleSecondaryArray(str: string) returns (r: string)
    ensures r == SecondaryArray(str)
  {
    r := str;
    if |str| >= 2 && str[0] == '[' && str[|str| - 1] == ']' {
      var tstr := "[[";
      for ii := 1 to |str|
        invariant tstr + Doubled(str[ii..]) == "[[" + Doubled(str[1..])
      {
        assert str[ii..][1..] == str[ii + 1..];
        tstr := tstr + [str[ii]];
        tstr := tstr + [str[ii]];
      }
      r := tstr;
    }
  }

  predicate IsWrapped(s: string, c: char) { |s| > 1 && s[0] == c && s[|s| - 1] == c }

  function ProcessQuoted(str: string): Attempt<string> {
    if |str| <= 1 then Ok(str)
    else if IsBinaryEscaped(str) then Ok(SecondaryArray(Extract(str)))
    else
      var inner := str[1..|str| - 1];
      if IsWrapped(str, '\"') then
        var text :- if '\\' in inner then RemoveEscaped(inner) else Ok(inner);
        Ok(SecondaryArray(text))
      else if IsWrapped(str, '\'') || IsWrapped(str, '`') then Ok(SecondaryArray(inner))
      else Ok(str)
  }

  method ProcessQuotedString(text: string) returns (str: Attempt<string>)
    ensures str == ProcessQuoted(text)
  {
    hide Extract, RemoveEscaped, SecondaryArray, IsBinaryEscaped;
    if |text| <= 1 {
      return Ok(text);
    }
    var inner := text[1..|text| - 1];
    if IsBinaryEscaped(text) {
      inner := ExtractBinaryString(text);
    } else if text[0] == '\"' && text[|text| - 1] == '\"' {
      if '\\' in inner {
        inner :- RemoveEscapedCharacters(inner);
      }
    } else if !((text[0] == '\'' || text[0] == '`') && text[|text| - 1] == text[0]) {
      return Ok(text);
    }
    var handled := HandleSecondaryArray(inner);
    return Ok(handled);
  }

  // ---- _add_result ----

  /** What an option does with values: whether it takes several, and its delimiter (NUL for none). */
  datatype Taking = Taking(several: bool, delimiter: char)

  /** The loop over the doubled characters between "[[" and "]]". */
  function Halved(s: string, ii: nat): Option<string>
    requires |s| >= 2
    decreases |s| - ii
  {
    if ii >= |s| - 2 then Some("")
    else if s[ii] != s[ii + 1] then None
    else
      var rest := Halved(s, ii + 2);
      if rest.None? then None else Some([s[ii]] + rest.value)
  }

  /** The one string that a text of doubled characters stands for. */
  function Undoubled(s: string): Option<string> {
    if |s| >= 4 && s[0] == '[' && s[1] == '[' && s[|s| - 1] == ']' && s[|s| - 2] == ']' then
      var h := Halved(s, 2);
      if h.Some? then Some("[" + h.value + "]") else None
    else None
  }

  /** The non-empty fields of a text. */
  function Fields(s: string, delimiter: char): seq<string>
    decreases |s|
  {
    if s == "" then []
    else
      var n := IndexOf(s, delimiter);
      (if n == 0 then [] else [s[..n]]) + (if n < |s| then Fields(s[n + 1..], delimiter) else [])
  }

  function AddedResults(result: string, taking: Taking): seq<string>
    decreases |result|, 1
  {
    var once := Undoubled(result);
    if once.Some? then [once.value]
    else if taking.several && LooksLikeArray(result) then
      SplitUpFits(result[1..|result| - 1], ',');
      AddedOfAll(SplitUp(result[1..|result| - 1], ','), |result| - 1, taking)
    else if taking.delimiter == '\0' || taking.delimiter !in result then [result]
    else Fields(result, taking.delimiter)
  }

  function AddedOfAll(vars: seq<string>, bound: nat, taking: Taking): seq<string>
    requires forall i | 0 <= i < |vars| :: |vars[i]| <= bound
    decreases bound, 2, |vars|
  {
    if vars == [] then []
    else (if vars[0] == "" then [] else AddedResults(vars[0], taking)) + AddedOfAll(vars[1..], bound, taking)
  }

  /** The escape clause for strings that would otherwise be read as arrays. */
  method Unescape(result: string) returns (once: Option<string>)
    ensures once == Undoubled(result)
  {
    once := None;
    if |result| >= 4 && result[0] == '[' && result[1] == '[' && result[|result| - 1] == ']'
      && result[|result| - 2] == ']' {
      var nstrs := "[";
      var duplicated := true;
      var ii := 2;
      assert Halved(result, 2).Some? ==> nstrs + Halved(result, 2).value == "[" + Halved(result, 2).value;
      while ii < |result| - 2
        invariant 2 <= ii
        invariant Undoubled(result) ==
          (if Halved(result, ii).Some? then Some(nstrs + Halved(result, ii).value + "]") else None)
        decreases |result| - ii
      {
        if result[ii] != result[ii + 1] {
          return;
        }
        assert Halved(result, ii + 2).Some? ==>
          nstrs + ([result[ii]] + Halved(result, ii + 2).value) == nstrs + [result[ii]] + Halved(result, ii + 2).value;
        nstrs := nstrs + [result[ii]];
        ii := ii + 2;
      }
      assert nstrs + "" == nstrs;
      once := Some(nstrs + "]");
    }
  }

  method AddFields(result: string, delimiter: char, res: seq<string>) returns (res': seq<string>, result_count: nat)
    ensures res' == res + Fields(result, delimiter) && result_count == |res'| - |res|
  {
    hide Fields, IndexOf;
    res', result_count := res, 0;
    var left := result;
    while left != ""
      invariant res' + Fields(left, delimiter) == res + Fields(result, delimiter)
      invariant |res'| == |res| + result_count
      decreases |left|
    {
      var n := IndexOf(left, delimiter);
      var rest := if n < |left| then left[n + 1..] else "";
      FieldsStep(res', left, delimiter);
      if n > 0 {
        res' := res' + [left[..n]];
        result_count := result_count + 1;
      }
      left := rest;
    }
    NoFields(delimiter);
  }

  lemma NoFields(delimiter: char)
    ensures Fields("", delimiter) == []
  {
  }

  lemma FieldsUnfold(left: string, delimiter: char)
    requires left != ""
    ensures var n := IndexOf(left, delimiter);
      Fields(left, delimiter) ==
      (if n == 0 then [] else [left[..n]]) + Fields(if n < |left| then left[n + 1..] else "", delimiter)
  {
    hide IndexOf;
    NoFields(delimiter);
  }

  lemma FieldsStep(res: seq<string>, left: string, delimiter: char)
    requires left != ""
    ensures var n := IndexOf(left, delimiter);
      res + Fields(left, delimiter) ==
      (if n > 0 then res + [left[..n]] else res) + Fields(if n < |left| then left[n + 1..] else "", delimiter)
  {
    hide IndexOf;
    var n := IndexOf(left, delimiter);
    var field, more := if n == 0 then [] else [left[..n]], Fields(if n < |left| then left[n + 1..] else "", delimiter);
    FieldsUnfold(left, delimiter);
    hide Fields;
    Regroup(res, field, more);
  }

  /** _add_result: the count it returns is the number of results it appends. */
  method AddResult(result: string, taking: Taking, res: seq<string>) returns (res': seq<string>, result_count: nat)
    ensures res' == res + AddedResults(result, taking)
    ensures result_count == |AddedResults(result, taking)|
    decreases |result|, 1
  {
    hide SplitUp, Undoubled;
    var once := Unescape(result);
    if once.Some? {
      return res + [once.value], 1;
    }
    if taking.several && LooksLikeArray(result) {
      var inner := result[1..|result| - 1];
      SplitUpFits(inner, ',');
      var vars := SplitUpText(inner, ',');
      res', result_count := AddAll(vars, |result| - 1, taking, res);
      return;
    }
    if taking.delimiter == '\0' || taking.delimiter !in result {
      return res + [result], 1;
    }
    res', result_count := AddFields(result, taking.delimiter, res);
  }

  method AddAll(vars: seq<string>, bound: nat, taking: Taking, res: seq<string>)
    returns (res': seq<string>, result_count: nat)
    requires forall i | 0 <= i < |vars| :: |vars[i]| <= bound
    ensures res' == res + AddedOfAll(vars, bound, taking)
    ensures result_count == |AddedOfAll(vars, bound, taking)|
    decreases bound, 2
  {
    hide AddedResults;
    res', result_count := res, 0;
    var n := 0;
    while n < |vars|
      invariant 0 <= n <= |vars|
      invariant res' + AddedOfAll(vars[n..], bound, taking) == res + AddedOfAll(vars, bound, taking)
      invariant result_count + |AddedOfAll(vars[n..], bound, taking)| == |AddedOfAll(vars, bound, taking)|
    {
      assert vars[n..][1..] == vars[n + 1..];
      ghost var added, rest := if vars[n] == "" then []
        else AddedResults(vars[n], taking), AddedOfAll(vars[n + 1..], bound, taking);
      assert res' + (added + rest) == res' + added + rest && res' + [] == res';
      if vars[n] != "" {
        var count;
        res', count := AddResult(vars[n], taking, res');
        result_count := result_count + count;
      }
      n := n + 1;
    }
  }

  // ---- one string in, the same string out ----

  lemma {:induction false} DoubledLength(s: string)
    ensures |Doubled(s)| == 2 * |s|
    ensures forall i | 0 <= i < |s| :: Doubled(s)[2 * i] == s[i] && Doubled(s)[2 * i + 1] == s[i]
  {
    if s != "" {
      DoubledLength(s[1..]);
      var d := Doubled(s);
      forall i | 0 <= i < |s| ensures d[2 * i] == s[i] && d[2 * i + 1] == s[i] {
        if 0 < i {
          assert d[2 * i] == Doubled(s[1..])[2 * (i - 1)] && d[2 * i + 1] == Doubled(s[1..])[2 * (i - 1) + 1];
        }
      }
    }
  }

  /** The same characters behind the two brackets. */
  lemma DoubledBehind(s: string)
    ensures |"[[" + Doubled(s)| == 2 + 2 * |s|
    ensures forall i | 0 <= i < |s| :: var d := "[[" + Doubled(s); d[2 + 2 * i] == s[i] && d[2 + 2 * i + 1] == s[i]
  {
    DoubledLength(s);
    hide Doubled;
    var d := "[[" + Doubled(s);
    forall i | 0 <= i < |s| ensures d[2 + 2 * i] == s[i] && d[2 + 2 * i + 1] == s[i] {
      assert d[2 + 2 * i] == Doubled(s)[2 * i] && d[2 + 2 * i + 1] == Doubled(s)[2 * i + 1];
    }
  }

  /** Halving what was doubled: from position 2 + 2i on, the characters from i + 1 on. */
  lemma {:induction false} HalvedOfDoubled(s: string, i: nat)
    requires s != "" && i < |s|
    ensures Halved("[[" + Doubled(s), 2 + 2 * i) == Some(s[i..|s| - 1])
    decreases |s| - i
  {
    hide Doubled;
    DoubledBehind(s);
    if i == |s| - 1 {
      assert s[i..|s| - 1] == "";
    } else {
      HalvedOfDoubled(s, i + 1);
      assert s[i..|s| - 1] == [s[i]] + s[i + 1..|s| - 1];
    }
  }

  lemma {:induction false} UndoubledBack(s: string)
    requires LooksLikeArray(s)
    ensures Undoubled(SecondaryArray(s)) == Some(s)
  {
    hide Halved, Doubled, Undoubled;
    var d, n := SecondaryArray(s), |s| - 2;
    HalvedOfDoubled(s[1..], 0);
    DoubledBehind(s[1..]);
    assert s[1..][n] == ']';
    assert d[2 + 2 * n] == ']' && d[2 + 2 * n + 1] == ']' && |d| == 2 + 2 * n + 2;
    ArrayParts(s);
    UndoubledIs(d, s[1..][0..n]);
  }

  lemma UndoubledIs(d: string, inner: string)
    requires |d| >= 4 && d[0] == '[' && d[1] == '[' && d[|d| - 1] == ']' && d[|d| - 2] == ']'
    requires Halved(d, 2) == Some(inner)
    ensures Undoubled(d) == Some("[" + inner + "]")
  {
  }

  lemma ArrayParts(s: string)
    requires LooksLikeArray(s)
    ensures s == "[" + s[1..][0..|s| - 2] + "]"
  {
    assert s[1..][0..|s| - 2] == s[1..|s| - 1];
  }

  /** A string that the delimiter of an option does not take apart. */
  predicate Undivided(s: string, taking: Taking) {
    LooksLikeArray(s) || taking.delimiter == '\0' || taking.delimiter !in s
  }

  /** The fields of a text fit into it, and the delimiter is in none of them. */
  lemma {:induction false} FieldsFit(s: string, delimiter: char)
    ensures TotalLength(Fields(s, delimiter)) + (if delimiter in s then 1 else 0) <= |s|
    ensures forall r | r in Fields(s, delimiter) :: delimiter !in r && |r| <= |s|
    decreases |s|
  {
    hide IndexOf, Fields, TotalLength;
    if s == "" {
      NoFields(delimiter);
      NoTotal();
    } else {
      FieldsUnfold(s, delimiter);
      var n := IndexOf(s, delimiter);
      var rest := if n < |s| then s[n + 1..] else "";
      var more := Fields(rest, delimiter);
      FieldsFit(rest, delimiter);
      FirstDelimiter(s, delimiter);
      OneFieldFits(s, n, more, delimiter);
    }
  }

  lemma OneFieldFits(s: string, n: nat, more: seq<string>, delimiter: char)
    requires n <= |s| && delimiter !in s[..n] && (n < |s| <==> delimiter in s)
    requires TotalLength(more) <= if n < |s| then |s| - n - 1 else 0
    requires forall r | r in more :: delimiter !in r && |r| <= |s|
    ensures var fields := (if n == 0 then [] else [s[..n]]) + more;
      && TotalLength(fields) + (if delimiter in s then 1 else 0) <= |s|
      && forall r | r in fields :: delimiter !in r && |r| <= |s|
  {
    hide TotalLength;
    TotalStep(s[..n], more);
    Regroup(more, [], []);
  }

  lemma FirstDelimiter(s: string, delimiter: char)
    ensures var n := IndexOf(s, delimiter); (n < |s| <==> delimiter in s) && delimiter !in s[..n]
  {
  }

  /** Whatever the string and whether several values are taken, the escaped form of it adds just
      that string, unless the delimiter takes it apart and is lost. */
  lemma {:induction false} OneResult(s: string, taking: Taking)
    ensures Undivided(s, taking) ==> AddedResults(SecondaryArray(s), taking) == [s]
    ensures !Undivided(s, taking) ==> TotalLength(AddedResults(SecondaryArray(s), taking)) < |s|
  {
    hide SplitUp, AddedOfAll, Fields, Halved, Doubled, TotalLength;
    if LooksLikeArray(s) {
      UndoubledBack(s);
    } else {
      FieldsFit(s, taking.delimiter);
    }
  }
}
