/** How the writers lay a file out: the spacing of entries, the lines between sections, and what stays of a line whose
    value is replaced. */
module IniLayout {
  import opened Text
  import opened IniParser
  import opened IniEntry
  import opened IniReader
  import opened IniGenerator
  import opened IniWriter
  import opened IniRewrite

  /** A key without '=' is written as it is; pretty printing puts one blank on either side of the '='. */
  lemma EntryLayout(key: string, value: string)
    requires '=' !in key && IsTrimmed(value)
    ensures EntryLine(key, value, false) == key + "=" + value && EntryLine(key, value, true) == key + " = " + value
  {
    hide Trim;
    TrimOfTrimmed(value);
    NothingReplaced(key);
  }

  lemma {:induction false} NothingReplaced(key: string)
    requires '=' !in key
    ensures EscapeKey(key) == key
  {
    if key != "" {
      assert "=" <= key <==> key[0] == '=';
      NothingReplaced(key[1..]);
      assert key == [key[0]] + key[1..];
    }
  }

  /** Every '=' in a key gets a backslash. */
  lemma {:induction false} EscapedLayout(front: string, rest: string)
    requires '=' !in front
    ensures EscapeKey(front + "=" + rest) == front + "\\=" + EscapeKey(rest)
    decreases |front|
  {
    var key := front + "=" + rest;
    if front == "" {
      assert key == "=" + rest && "=" <= key && key[1..] == rest;
      assert "" + "\\=" == "\\=";
    } else {
      assert key[0] == front[0] && key[1..] == front[1..] + "=" + rest;
      assert "=" <= key <==> key[0] == '=';
      EscapedLayout(front[1..], rest);
      assert front == [front[0]] + front[1..];
    }
  }

  /** One section is its header and a line for each entry, in order. */
  lemma {:induction false} BlockLayout(name: string, entries: Entries, pretty: bool)
    ensures var b := Block(name, entries, pretty);
      && |b| == |entries| + 1 && b[0] == "[" + name + "]"
      && forall j | 0 <= j < |entries| :: b[j + 1] == EntryLine(entries[j].0, entries[j].1, pretty)
  {
    hide EntryLine;
    EntriesLayout(entries, pretty);
  }

  lemma {:induction false} EntriesLayout(entries: Entries, pretty: bool)
    ensures |EntryLines(entries, pretty)| == |entries|
    ensures forall j | 0 <= j < |entries| ::
      EntryLines(entries, pretty)[j] == EntryLine(entries[j].0, entries[j].1, pretty)
  {
    hide EntryLine;
    if entries != [] { EntriesLayout(entries[1..], pretty); }
  }

  /** Sections follow each other, and pretty printing puts one blank line between two of them and none anywhere else. */
  lemma {:induction false} SectionsLayout(front: Structure, back: Structure, pretty: bool)
    requires front != [] && back != []
    ensures GeneratedLines(front + back, pretty) ==
      GeneratedLines(front, pretty) + (if pretty then [""] else []) + GeneratedLines(back, pretty)
    ensures GeneratedLines([front[0]], pretty) == Block(front[0].0, front[0].1, pretty)
    decreases |front|
  {
    hide Block;
    var all, gap, block := front + back, if pretty then [""] else [], Block(front[0].0, front[0].1, pretty);
    assert all[0] == front[0] && all[1..] == front[1..] + back;
    Regroup(block, [], []);
    if |front| > 1 {
      SectionsLayout(front[1..], back, pretty);
      FourPieces(block, gap, GeneratedLines(front[1..], pretty), GeneratedLines(back, pretty));
    } else {
      assert front[1..] + back == back;
      Regroup(block, gap, GeneratedLines(back, pretty));
    }
  }

  lemma FourPieces(block: seq<string>, gap: seq<string>, front: seq<string>, back: seq<string>)
    ensures block + (gap + (front + gap + back)) == block + (gap + front) + gap + back
  {
  }

  /** A line whose value is replaced stays as it is up to the old value, blanks included; when it is to be pretty,
      and no blank stands behind its '=', one is put there. */
  lemma RewriteLayout(line: string, value: string, pretty: bool)
    requires ParseLine(line).KeyValue? && !("\\=" <= ParseLine(line).value) && IsTrimmed(value)
    ensures var at := Separator(line);
      && at < |line| && line[at] == '='
      && var gap := FirstInk(line[at + 1..]);
         RewriteLine(line, value, pretty) ==
           line[..at + 1 + gap] + (if pretty && gap == 0 && at + 1 < |line| then " " else "") + value
  {
    hide ParseLine, Trim, FirstInk;
    SkipsEscape(line);
    TrimOfTrimmed(value);
    BlankedAt(line);
  }
}
