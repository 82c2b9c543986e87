/** INIStringUtil::replace and INIParser::parseLine: what one line of an INI
    file means, and which lines the library itself can write. */
module IniParser {
  import opened Text

  /** Replaces the occurrences of a in s, found from left to right, by b. */
  function Replaced(s: string, a: string, b: string): string {
    if a == "" || s == "" then s
    else if a <= s then b + Replaced(s[|a|..], a, b)
    else [s[0]] + Replaced(s[1..], a, b)
  }

  /** std::string::find(a, from): the first occurrence of a at or after from. */
  function FindFrom(s: string, a: string, from: nat): (r: Option<nat>)
    requires from <= |s|
    ensures r.Some? ==> from <= r.value <= |s| && a <= s[r.value..]
    ensures forall p | from <= p < (if r.Some? then r.value else |s| + 1) && p <= |s| :: !(a <= s[p..])
    decreases |s| - from
  {
    if a <= s[from..] then Some(from)
    else if from == |s| then None
    else FindFrom(s, a, from + 1)
  }

  /** Nothing changes before the first occurrence of a. */
  lemma ReplacedSkips(s: string, p: nat, a: string, b: string)
    requires p <= |s| && a != ""
    requires forall q | 0 <= q < p :: !(a <= s[q..])
    ensures Replaced(s, a, b) == s[..p] + Replaced(s[p..], a, b)
  {
    assert s[0..] == s;
    if 0 < p {
      forall q | 0 <= q < p - 1 ensures !(a <= s[1..][q..]) {
        assert s[1..][q..] == s[q + 1..];
      }
      ReplacedSkips(s[1..], p - 1, a, b);
      assert s[1..][p - 1..] == s[p..];
      assert s[..p] == [s[0]] + s[1..][..p - 1];
    }
  }

  /** The same for a search that starts at from and stops at p. */
  lemma ReplacedFrom(s: string, from: nat, p: nat, a: string, b: string)
    requires from <= p <= |s| && a != ""
    requires forall q | from <= q < p :: !(a <= s[q..])
    ensures s[..from] + Replaced(s[from..], a, b) == s[..p] + Replaced(s[p..], a, b)
  {
    var tail := s[from..];
    forall q | 0 <= q < p - from ensures !(a <= tail[q..]) {
      assert tail[q..] == s[from + q..];
    }
    ReplacedSkips(tail, p - from, a, b);
    assert tail[p - from..] == s[p..];
    assert s[..p] == s[..from] + tail[..p - from];
  }

  /** One replacement of the loop: str.replace(p, |a|, b) and pos = p + |b|. */
  lemma ReplacedOnce(s: string, p: nat, a: string, b: string)
    requires p <= |s| && a != "" && a <= s[p..]
    ensures p + |a| <= |s|
    ensures var next := s[..p] + b + s[p + |a|..];
      s[..p] + Replaced(s[p..], a, b) == next[..p + |b|] + Replaced(next[p + |b|..], a, b)
  {
    var next := s[..p] + b + s[p + |a|..];
    assert s[p..][|a|..] == s[p + |a|..];
    assert next[..p + |b|] == s[..p] + b && next[p + |b|..] == s[p + |a|..];
  }

  /** The search-and-replace loop computes Replaced. */
  method Replace(str: string, a: string, b: string) returns (r: string)
    ensures r == Replaced(str, a, b)
  {
    r := str;
    if a != "" {
      var pos: nat := 0;
      assert r[0..] == str;
      var at := FindFrom(r, a, pos);
      while at.Some?
        invariant pos <= |r| && at == FindFrom(r, a, pos)
        invariant r[..pos] + Replaced(r[pos..], a, b) == Replaced(str, a, b)
        decreases |r| - pos
      {
        var p := at.value;
        ReplacedFrom(r, pos, p, a, b);
        ReplacedOnce(r, p, a, b);
        r, pos := r[..p] + b + r[p + |a|..], p + |b|;
        at := FindFrom(r, a, pos);
      }
      ReplacedFrom(r, pos, |r|, a, b);
      assert r[..|r|] == r && r[|r|..] == "";
    }
  }

  /** Escapes every '=' of a key, as the writers do. */
  function EscapeKey(key: string): string { Replaced(key, "=", "\\=") }

  function UnescapeKey(key: string): string { Replaced(key, "\\=", "=") }

  /** Blanks every escaped '=' so that the first '=' left is the separator. */
  function Blanked(line: string): string { Replaced(line, "\\=", "  ") }

  /** Where a line splits into key and value: its first '=' that no '\' precedes, or its length. */
  function Separator(line: string): nat { IndexOf(Blanked(line), '=') }

  datatype Parsed = Nothing | Comment | Section(name: string) | KeyValue(key: string, value: string) | Unknown

  function ParseLine(raw: string): Parsed {
    var line := Trim(raw);
    if line == "" then Nothing
    else if line[0] == ';' then Comment
    else if line[0] == '[' then
      var cut := line[..IndexOf(line, ';')];
      var closing := LastIndexOf(cut, ']');
      if 0 <= closing then Section(Trim(cut[1..closing])) else ParseEntry(cut)
    else ParseEntry(line)
  }

  function ParseEntry(line: string): Parsed {
    BlankedAt(line);
    var at := Separator(line);
    if at < |line| then KeyValue(UnescapeKey(Trim(line[..at])), Trim(line[at + 1..])) else Unknown
  }

  /** An '=' with a '\' before it is part of the text, not a separator. */
  predicate EscapedEquals(s: string, i: nat)
    requires i < |s|
  {
    s[i] == '=' && 0 < i && s[i - 1] == '\\'
  }

  function BlankedChar(s: string, i: nat): char
    requires i < |s|
  {
    if EscapedEquals(s, i) || (i + 1 < |s| && EscapedEquals(s, i + 1)) then ' ' else s[i]
  }

  lemma BlankedAt(s: string)
    ensures |Blanked(s)| == |s|
    ensures forall i: nat | i < |s| :: Blanked(s)[i] == BlankedChar(s, i)
  {
    if s == "" {
    } else {
      var n := if |s| > 1 && s[0] == '\\' && s[1] == '=' then 2 else 1;
      var r := s[n..];
      BlankedAt(r);
      if n == 2 { assert s[..2] == "\\="; } else { assert !("\\=" <= s); }
      forall i: nat | i < |s| ensures Blanked(s)[i] == BlankedChar(s, i) {
        if n <= i {
          assert r[i - n] == s[i] && Blanked(s)[i] == Blanked(r)[i - n];
        }
      }
    }
  }

  predicate IsSeparator(line: string, at: nat) {
    && at < |line| && line[at] == '=' && !EscapedEquals(line, at)
    && forall i: nat | i < at && line[i] == '=' :: EscapedEquals(line, i)
  }

  lemma SeparatorIs(line: string)
    ensures Separator(line) <= |line|
    ensures Separator(line) < |line| ==> IsSeparator(line, Separator(line))
    ensures Separator(line) == |line| ==> forall i: nat | i < |line| && line[i] == '=' :: EscapedEquals(line, i)
    ensures forall at: nat | IsSeparator(line, at) :: Separator(line) == at
  {
    BlankedAt(line);
    var b := Blanked(line);
    forall i: nat | i < |line| ensures b[i] == '=' <==> line[i] == '=' && !EscapedEquals(line, i) {
      assert b[i] == BlankedChar(line, i);
    }
  }
}
