/** Character and string primitives shared by the three libraries: the six
    whitespace characters, trimming, ASCII case folding and character search. */
module Text {

  datatype Option<+T> = None | Some(value: T)

  /** ' ', \t, \n, \v, \f and \r. */
  predicate IsSpace(c: char) {
    c == ' ' || 9 <= c as int <= 13
  }

  predicate AllSpace(s: string) {
    forall i | 0 <= i < |s| :: IsSpace(s[i])
  }

  predicate IsTrimmed(s: string) {
    s == "" || (!IsSpace(s[0]) && !IsSpace(s[|s| - 1]))
  }

  /** The first position that holds no whitespace, or |s|. */
  function FirstInk(s: string): (r: nat)
    ensures r <= |s|
    ensures forall i | 0 <= i < r :: IsSpace(s[i])
    ensures r < |s| ==> !IsSpace(s[r])
  {
    if s == "" || !IsSpace(s[0]) then 0 else 1 + FirstInk(s[1..])
  }

  /** One past the last position that holds no whitespace, or 0. */
  function EndOfInk(s: string): (r: nat)
    ensures r <= |s|
    ensures forall i | r <= i < |s| :: IsSpace(s[i])
    ensures 0 < r ==> !IsSpace(s[r - 1])
  {
    if s == "" then 0
    else if !IsSpace(s[|s| - 1]) then |s|
    else EndOfInk(s[..|s| - 1])
  }

  /** Erases trailing whitespace, then leading whitespace. */
  function Trim(s: string): (t: string)
    ensures IsTrimmed(t)
    ensures |t| <= |s|
  {
    var kept := s[..EndOfInk(s)];
    kept[FirstInk(kept)..]
  }

  /** Trimming splits a string into whitespace, the trimmed text and whitespace. */
  lemma TrimParts(s: string) returns (before: string, after: string)
    ensures AllSpace(before) && AllSpace(after)
    ensures s == before + Trim(s) + after
  {
    var e := EndOfInk(s);
    var kept := s[..e];
    before, after := kept[..FirstInk(kept)], s[e..];
  }

  /** The split of TrimParts is the only one whose middle part is trimmed. */
  lemma TrimUnique(before: string, t: string, after: string)
    requires AllSpace(before) && AllSpace(after) && IsTrimmed(t)
    ensures Trim(before + t + after) == t
  {
    var s := before + t + after;
    if t == "" {
      assert EndOfInk(s) == 0;
    } else {
      var e := |before| + |t|;
      assert s[e - 1] == t[|t| - 1] && s[|before|] == t[0];
      assert forall i | e <= i < |s| :: s[i] == after[i - e];
      assert EndOfInk(s) == e;
      var kept := s[..e];
      assert kept == before + t;
      assert FirstInk(kept) == |before|;
    }
  }

  lemma TrimOfTrimmed(s: string)
    requires IsTrimmed(s)
    ensures Trim(s) == s
  {
    TrimUnique("", s, "");
    assert "" + s + "" == s;
  }

  /** Whitespace around a text does not change what trimming leaves of it. */
  lemma TrimPadded(before: string, s: string, after: string)
    requires AllSpace(before) && AllSpace(after)
    ensures Trim(before + s + after) == Trim(s)
  {
    var b, a := TrimParts(s);
    assert before + s + after == (before + b) + Trim(s) + (a + after);
    TrimUnique(before + b, Trim(s), a + after);
  }

  /** std::tolower in the "C" locale. */
  function LowerChar(c: char): char {
    if 'A' <= c <= 'Z' then (c as int + 32) as char else c
  }

  function Lower(s: string): (r: string)
    ensures |r| == |s|
    ensures forall i | 0 <= i < |s| :: r[i] == LowerChar(s[i])
  {
    seq(|s|, i requires 0 <= i < |s| => LowerChar(s[i]))
  }

  /** The first position of c in s, or |s|. */
  function IndexOf(s: string, c: char): (r: nat)
    ensures r <= |s|
    ensures forall i | 0 <= i < r :: s[i] != c
    ensures r < |s| ==> s[r] == c
  {
    if s == "" || s[0] == c then 0 else 1 + IndexOf(s[1..], c)
  }

  /** The last position of c in s, or -1. */
  function LastIndexOf(s: string, c: char): (r: int)
    ensures -1 <= r < |s|
    ensures forall i | r < i < |s| :: s[i] != c
    ensures 0 <= r ==> s[r] == c
  {
    if s == "" then -1
    else if s[|s| - 1] == c then |s| - 1
    else LastIndexOf(s[..|s| - 1], c)
  }

  /** part stands in str at loc. */
  predicate IsAt(str: string, loc: nat, part: string) {
    loc + |part| <= |str| && str[loc..loc + |part|] == part
  }

  lemma IsAtSplit(str: string, loc: nat, a: string, b: string)
    ensures IsAt(str, loc, a + b) <==> IsAt(str, loc, a) && IsAt(str, loc + |a|, b)
  {
    if IsAt(str, loc, a + b) {
      assert str[loc..loc + |a|] == (a + b)[..|a|] && str[loc + |a|..loc + |a| + |b|] == (a + b)[|a|..];
    }
  }

  lemma IsAtOne(str: string, loc: nat, c: char)
    requires IsAt(str, loc, [c])
    ensures loc < |str| && str[loc] == c
  {
    assert str[loc..loc + 1][0] == str[loc];
  }

  /** Concatenation may be regrouped, and nothing added. */
  lemma Regroup<T>(a: seq<T>, b: seq<T>, c: seq<T>)
    ensures a + (b + c) == a + b + c
    ensures a + [] == [] + a == a
  {
  }

  predicate IsAlnum(c: char) { '0' <= c <= '9' || 'a' <= c <= 'z' || 'A' <= c <= 'Z' }
}
