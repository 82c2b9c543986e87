/** Which section headers and entries survive being printed and parsed again. */
module IniEntry {
  import opened Text
  import opened IniParser

  /** A "key=value" or "key = value" line as INIGenerator and INIWriter print it. */
  function EntryLine(key: string, value: string, pretty: bool): string {
    EscapeKey(key) + (if pretty then " = " else "=") + Trim(value)
  }

  function SectionLine(name: string): string { "[" + name + "]" }

  // ---- escaping ----

  /** What one character of a key becomes. */
  function KeyChar(c: char): string { if c == '=' then "\\=" else [c] }

  lemma EscapeStep(key: string)
    requires key != ""
    ensures EscapeKey(key) == KeyChar(key[0]) + EscapeKey(key[1..])
  {
    assert "=" <= key <==> key[0] == '=';
  }

  lemma UnescapeStep(c: char, rest: string)
    requires rest == "" || rest[0] != '='
    ensures UnescapeKey(KeyChar(c) + rest) == [c] + UnescapeKey(rest)
  {
    var s := KeyChar(c) + rest;
    if c == '=' {
      assert s[..2] == "\\=" && s[2..] == rest;
    } else {
      assert !("\\=" <= s) && s[1..] == rest;
    }
  }

  /** What escaping keeps: emptiness, the last character, whitespace at the ends; and it leaves no bare '='. */
  lemma EscapedShape(key: string)
    ensures |EscapeKey(key)| >= |key| && (key == "" ==> EscapeKey(key) == "")
    ensures key != "" ==> EscapeKey(key)[0] == if key[0] == '=' then '\\' else key[0]
    ensures key != "" ==> EscapeKey(key)[|EscapeKey(key)| - 1] == key[|key| - 1]
    ensures forall i: nat | i < |EscapeKey(key)| && EscapeKey(key)[i] == '=' :: EscapedEquals(EscapeKey(key), i)
    ensures forall c | c in EscapeKey(key) && c != '\\' :: c in key
    ensures forall c | c in key :: c in EscapeKey(key)
  {
    if key != "" {
      EscapeStep(key);
      var rest := key[1..];
      EscapedShape(rest);
      var head := if key[0] == '=' then "\\=" else [key[0]];
      var e := head + EscapeKey(rest);
      forall i: nat | i < |e| && e[i] == '=' ensures EscapedEquals(e, i) {
        if |head| <= i {
          assert EscapeKey(rest)[i - |head|] == e[i];
          assert EscapedEquals(EscapeKey(rest), i - |head|);
        }
      }
      assert key == [key[0]] + rest;
    }
  }

  /** Escaping loses nothing, whatever comes after the key: the escaped text is read back up to the next '='. */
  lemma {:induction false} UnescapeAfterEscape(key: string, rest: string)
    requires rest == "" || rest[0] != '='
    ensures UnescapeKey(EscapeKey(key) + rest) == key + UnescapeKey(rest)
  {
    if key == "" {
      assert EscapeKey(key) + rest == rest;
    } else {
      var tail := EscapeKey(key[1..]) + rest;
      EscapeStep(key);
      assert EscapeKey(key) + rest == KeyChar(key[0]) + tail;
      assert tail == "" || tail[0] != '=' by { EscapedShape(key[1..]); }
      UnescapeStep(key[0], tail);
      UnescapeAfterEscape(key[1..], rest);
      assert key + UnescapeKey(rest) == [key[0]] + (key[1..] + UnescapeKey(rest));
    }
  }

  lemma UnescapeEscape(key: string)
    ensures UnescapeKey(EscapeKey(key)) == key
  {
    UnescapeAfterEscape(key, "");
    assert EscapeKey(key) + "" == EscapeKey(key) && UnescapeKey("") == "" && key + "" == key;
  }

  /** Unescaping adds no character and keeps the last one, and the first unless it is the '\' of an escape. */
  lemma UnescapedShape(s: string)
    ensures s != "" ==> UnescapeKey(s) != ""
    ensures s != "" && UnescapeKey(s)[0] != '=' ==> UnescapeKey(s)[0] == s[0]
    ensures UnescapeKey(s) != "" ==> s != "" && UnescapeKey(s)[|UnescapeKey(s)| - 1] == s[|s| - 1]
  {
    if s != "" {
      if "\\=" <= s {
        assert s[1] == '=';
        UnescapedShape(s[2..]);
      } else {
        UnescapedShape(s[1..]);
      }
    }
  }

  lemma UnescapedLacks(s: string, c: char)
    requires c !in s
    ensures c !in UnescapeKey(s)
  {
    if s != "" {
      if "\\=" <= s {
        assert s[1] == '=';
        UnescapedLacks(s[2..], c);
      } else {
        UnescapedLacks(s[1..], c);
      }
    }
  }

  // ---- splitting an entry ----

  /** A line whose first part holds no bare '=' splits at the '=' after it. */
  lemma EntrySplits(pre: string, post: string)
    requires forall i: nat | i < |pre| && pre[i] == '=' :: EscapedEquals(pre, i)
    requires pre == "" || pre[|pre| - 1] != '\\'
    ensures Separator(pre + "=" + post) == |pre|
    ensures ParseEntry(pre + "=" + post) == KeyValue(UnescapeKey(Trim(pre)), Trim(post))
  {
    var line := pre + "=" + post;
    SeparatorIs(line);
    assert forall i: nat | i < |pre| :: line[i] == pre[i];
    forall i: nat | i < |pre| && line[i] == '=' ensures EscapedEquals(line, i) {
      assert EscapedEquals(pre, i);
    }
    assert IsSeparator(line, |pre|);
    assert line[..|pre|] == pre && line[|pre| + 1..] == post;
  }

  /** The printed entry, trimmed: the text before the separator and after it. */
  function EntryHead(key: string, pretty: bool): string {
    if pretty && key != "" then EscapeKey(key) + " " else EscapeKey(key)
  }

  function EntryTail(value: string, pretty: bool): string {
    if pretty && Trim(value) != "" then " " + Trim(value) else Trim(value)
  }

  lemma EntryTrimmed(key: string, value: string, pretty: bool)
    requires IsTrimmed(key)
    ensures Trim(EntryLine(key, value, pretty)) == EntryHead(key, pretty) + "=" + EntryTail(value, pretty)
  {
    hide Trim, EscapeKey;
    EscapedShape(key);
    var before, after := if pretty && key == "" then " " else "", if pretty && Trim(value) == "" then " " else "";
    var t := EntryHead(key, pretty) + "=" + EntryTail(value, pretty);
    assert EntryLine(key, value, pretty) == before + t + after;
    TrimUnique(before, t, after);
  }

  lemma TrimOneSpace(s: string)
    requires IsTrimmed(s)
    ensures Trim(s + " ") == s && Trim(" " + s) == s && Trim(s) == s
  {
    TrimUnique("", s, " ");
    assert "" + s + " " == s + " ";
    TrimUnique(" ", s, "");
    assert " " + s + "" == " " + s;
    TrimOfTrimmed(s);
  }

  lemma EntryPartsTrimmed(key: string, value: string, pretty: bool)
    requires IsTrimmed(key)
    ensures Trim(EntryHead(key, pretty)) == EscapeKey(key)
    ensures Trim(EntryTail(value, pretty)) == Trim(value)
  {
    EscapedShape(key);
    TrimOneSpace(EscapeKey(key));
    TrimOneSpace(Trim(value));
  }

  // ---- exactly which entries survive ----

  /** Whether some line can denote an entry at all. */
  predicate Readable(key: string, value: string) {
    key != "" ==>
      && key[0] != ';'
      && (key[0] == '[' ==> ';' !in key && ']' !in key && ';' !in value && ']' !in value)
  }

  predicate EntryOk(key: string, value: string, pretty: bool) {
    && Readable(key, Trim(value))
    && (pretty || key == "" || key[|key| - 1] != '\\')
  }

  /** Whatever the line, the entry or section name read from it is readable. */
  lemma ParsedIsReadable(raw: string)
    ensures ParseLine(raw).Section? ==> ';' !in ParseLine(raw).name && IsTrimmed(ParseLine(raw).name)
    ensures ParseLine(raw).KeyValue? ==> Readable(ParseLine(raw).key, ParseLine(raw).value)
    ensures ParseLine(raw).KeyValue? ==> IsTrimmed(ParseLine(raw).key) && IsTrimmed(ParseLine(raw).value)
  {
    var line := Trim(raw);
    if line != "" && line[0] != ';' {
      if line[0] == '[' {
        var cut := line[..IndexOf(line, ';')];
        var closing := LastIndexOf(cut, ']');
        if 0 <= closing { TrimLacks(cut[1..closing], ';'); } else { EntryIsReadable(cut); }
      } else {
        EntryIsReadable(line);
      }
    }
  }

  lemma TrimLacks(s: string, c: char)
    requires c !in s
    ensures c !in Trim(s)
  {
  }

  lemma EntryLacks(cut: string, c: char)
    requires c !in cut
    ensures ParseEntry(cut).KeyValue? ==> c !in ParseEntry(cut).key && c !in ParseEntry(cut).value
  {
    BlankedAt(cut);
    var at := Separator(cut);
    if at < |cut| {
      TrimLacks(cut[..at], c);
      UnescapedLacks(Trim(cut[..at]), c);
      TrimLacks(cut[at + 1..], c);
    }
  }

  lemma EntryIsReadable(cut: string)
    requires cut != "" && cut[0] != ';' && !IsSpace(cut[0])
    requires cut[0] == '[' ==> ';' !in cut && ']' !in cut
    ensures ParseEntry(cut).KeyValue? ==> Readable(ParseEntry(cut).key, ParseEntry(cut).value)
    ensures ParseEntry(cut).KeyValue? ==> IsTrimmed(ParseEntry(cut).key) && IsTrimmed(ParseEntry(cut).value)
  {
    if ParseEntry(cut).KeyValue? {
      var at := Separator(cut);
      BlankedAt(cut);
      var pre := cut[..at];
      if cut[0] == '[' { EntryLacks(cut, ';'); EntryLacks(cut, ']'); }
      UnescapedShape(Trim(pre));
      if pre != "" {
        assert FirstInk(pre[..EndOfInk(pre)]) == 0 by { assert pre[0] == cut[0]; }
        assert Trim(pre) != "" && Trim(pre)[0] == cut[0];
      }
    }
  }

  /** A character that is not on the line is in nothing read from it. */
  lemma ParsedLacks(raw: string, c: char)
    requires c !in raw
    ensures ParseLine(raw).Section? ==> c !in ParseLine(raw).name
    ensures ParseLine(raw).KeyValue? ==> c !in ParseLine(raw).key && c !in ParseLine(raw).value
  {
    TrimLacks(raw, c);
    var line := Trim(raw);
    if line != "" && line[0] != ';' {
      var cut := line[..IndexOf(line, ';')];
      var closing := LastIndexOf(cut, ']');
      if line[0] == '[' && 0 <= closing { TrimLacks(cut[1..closing], c); } else {
        EntryLacks(cut, c); EntryLacks(line, c);
      }
    }
  }

  /** The separator of a printed entry is the '=' after the escaped key, unless a final '\' of the key escapes it. */
  lemma PrintedEntrySplits(key: string, value: string, pretty: bool)
    requires IsTrimmed(key)
    requires pretty || key == "" || key[|key| - 1] != '\\'
    ensures ParseEntry(Trim(EntryLine(key, value, pretty))) == KeyValue(key, Trim(value))
  {
    var pre := EntryHead(key, pretty);
    EntryTrimmed(key, value, pretty);
    EntryPartsTrimmed(key, value, pretty);
    EscapedShape(key);
    forall i: nat | i < |pre| && pre[i] == '=' ensures EscapedEquals(pre, i) {
      assert EscapedEquals(EscapeKey(key), i);
    }
    EntrySplits(pre, EntryTail(value, pretty));
    UnescapeEscape(key);
  }

  /** Printing an entry and parsing the line gives the entry back exactly when EntryOk holds of it. */
  lemma EntryRoundTrip(key: string, value: string, pretty: bool)
    requires IsTrimmed(key)
    ensures ParseLine(EntryLine(key, value, pretty)) == KeyValue(key, Trim(value)) <==> EntryOk(key, value, pretty)
  {
    var raw := EntryLine(key, value, pretty);
    if !Readable(key, Trim(value)) {
      ParsedIsReadable(raw);
    } else if !pretty && key != "" && key[|key| - 1] == '\\' {
      SwallowedSeparator(key, value);
    } else {
      PrintedEntrySplits(key, value, pretty);
      PrintedLineShape(key, value, pretty);
    }
  }

  /** A line that starts like no comment and, after a bracket, holds nothing that ends a header is an entry. */
  lemma LineIsEntry(raw: string)
    requires Trim(raw) != "" && Trim(raw)[0] != ';'
    requires Trim(raw)[0] == '[' ==> ';' !in Trim(raw) && ']' !in Trim(raw)
    ensures ParseLine(raw) == ParseEntry(Trim(raw))
  {
    hide Trim, ParseEntry;
    var line := Trim(raw);
    if line[0] == '[' { assert line[..IndexOf(line, ';')] == line; }
  }

  /** The trimmed line of a readable entry starts like its key and is not cut by a ';'. */
  lemma PrintedLineShape(key: string, value: string, pretty: bool)
    requires IsTrimmed(key) && Readable(key, Trim(value))
    ensures ParseLine(EntryLine(key, value, pretty)) == ParseEntry(Trim(EntryLine(key, value, pretty)))
  {
    hide EscapeKey, Trim, ParseEntry, ParseLine, EntryLine, EntryHead, EntryTail;
    EntryTrimmed(key, value, pretty);
    PrintedStart(key, value, pretty);
    LineIsEntry(EntryLine(key, value, pretty));
  }

  lemma PrintedStart(key: string, value: string, pretty: bool)
    requires IsTrimmed(key) && Readable(key, Trim(value))
    ensures var line := EntryHead(key, pretty) + "=" + EntryTail(value, pretty);
      line[0] != ';' && (line[0] == '[' ==> ';' !in line && ']' !in line)
  {
    hide EscapeKey, Trim;
    EscapedShape(key);
    var line := EntryHead(key, pretty) + "=" + EntryTail(value, pretty);
    assert line[0] == (if key == "" then '=' else EscapeKey(key)[0]);
    if line[0] == '[' { assert ';' !in EscapeKey(key) && ']' !in EscapeKey(key); }
  }

  /** A key that ends in '\', printed without spaces, runs into its value: what is read is
      a key that has '=' where this one has its '\', and that is at least as long. */
  lemma SwallowedSeparator(key: string, value: string)
    requires IsTrimmed(key) && Readable(key, Trim(value))
    requires key != "" && key[|key| - 1] == '\\'
    ensures var p := ParseLine(EntryLine(key, value, false));
      p.KeyValue? ==> |p.key| >= |key| && p.key[|key| - 1] == '='
  {
    var raw := EntryLine(key, value, false);
    PrintedLineShape(key, value, false);
    EntryTrimmed(key, value, false);
    var e, v := EscapeKey(key), Trim(value);
    var line := e + "=" + v;
    assert Trim(raw) == line;
    EscapedShape(key);
    SeparatorIs(line);
    var at := Separator(line);
    if at < |line| {
      SeparatorBeyond(e, v, at);
      var w := line[|e| + 1..at];
      assert line[..at] == e + "=" + w;
      var short := key[..|key| - 1];
      EscapeLast(key);
      UnescapeAroundBackslash(short, w[..EndOfInk(w)]);
      TrimTail(e + "=", w);
    }
  }

  lemma SeparatorBeyond(e: string, v: string, at: nat)
    requires e != "" && e[|e| - 1] == '\\'
    requires forall i: nat | i < |e| && e[i] == '=' :: EscapedEquals(e, i)
    requires IsSeparator(e + "=" + v, at)
    ensures |e| < at
  {
    var line := e + "=" + v;
    assert EscapedEquals(line, |e|);
    if at < |e| { assert EscapedEquals(e, at); assert EscapedEquals(line, at); }
  }

  lemma {:induction false} EscapeLast(key: string)
    requires key != "" && key[|key| - 1] != '='
    ensures EscapeKey(key) == EscapeKey(key[..|key| - 1]) + [key[|key| - 1]]
  {
    EscapeStep(key);
    var short := key[..|key| - 1];
    if |key| > 1 {
      EscapeLast(key[1..]);
      EscapeStep(short);
      assert key[1..][..|key| - 2] == short[1..];
    } else {
      assert key[1..] == "" && short == "" && EscapeKey("") == "";
    }
  }

  lemma UnescapeAroundBackslash(short: string, w: string)
    ensures UnescapeKey(EscapeKey(short) + "\\" + "=" + w) == short + "=" + UnescapeKey(w)
  {
    UnescapeAfterEscape(short, "\\=" + w);
    UnescapeEquals(w);
    assert EscapeKey(short) + "\\" + "=" + w == EscapeKey(short) + ("\\=" + w);
  }

  lemma UnescapeEquals(rest: string)
    ensures UnescapeKey("\\=" + rest) == "=" + UnescapeKey(rest)
  {
    var s := "\\=" + rest;
    assert s[..2] == "\\=" && s[2..] == rest;
  }

  lemma TrimTail(s: string, w: string)
    requires s != "" && IsTrimmed(s)
    ensures Trim(s + w) == s + w[..EndOfInk(w)]
  {
    var n := EndOfInk(w);
    var t, after := s + w[..n], w[n..];
    assert IsTrimmed(t) by {
      assert t[0] == s[0];
      assert t[|t| - 1] == if n == 0 then s[|s| - 1] else w[n - 1];
    }
    assert s + w == "" + t + after;
    TrimUnique("", t, after);
  }

  /** A printed section header reads back as its name exactly when the name holds no ';'. */
  lemma SectionRoundTrip(name: string)
    requires IsTrimmed(name)
    ensures ParseLine(SectionLine(name)) == Section(name) <==> ';' !in name
  {
    var raw := SectionLine(name);
    ParsedIsReadable(raw);
    if ';' !in name {
      TrimOfTrimmed(raw);
      assert raw[..IndexOf(raw, ';')] == raw;
      assert raw[|raw| - 1] == ']' && raw[1..|raw| - 1] == name;
      TrimOfTrimmed(name);
    }
  }

  /** For example the key a\ with the value b, printed without spaces, is not read back. */
  lemma BackslashKeyIsLost()
    ensures ParseLine(EntryLine("a\\", "b", false)) != KeyValue("a\\", "b")
  {
    EntryRoundTrip("a\\", "b", false);
    TrimOfTrimmed("b");
  }
}
