/** The entries of a configuration file and their inputs: every entry line that is kept goes to one entry with its
    parents and name, in the order of the file, and lists of several are kept apart. */
module CliInputs {
  import opened Text
  import opened CliSections

  /** An entry line that is kept, and how many headers with section events stand before it. */
  datatype Listed = Listed(section: nat, parents: Path, name: string, inputs: seq<string>)

  predicate SameEntry(a: Listed, b: Listed) { a.section == b.section && a.parents == b.parents && a.name == b.name }

  /** The section that a line leaves: a header names it, and a [default] header ends it. */
  function SectionAfter(current: Path, line: Line): Path {
    match line
    case Header(path) => path
    case DefaultHeader => []
    case Item(_, _, _) => current
  }

  /** Every header makes events, but for a [default] header outside of sections. */
  function HeadersAfter(section: nat, current: Path, line: Line): nat {
    if line.Header? || (line.DefaultHeader? && current != []) then section + 1 else section
  }

  /** The entry lines that are not too deep, in the order of the file. */
  function KeptItems(section: nat, current: Path, lines: seq<Line>, layers: nat): seq<Listed>
    decreases lines
  {
    if lines == [] then []
    else
      (if lines[0].Item? && |current + lines[0].extra| <= layers then
         [Listed(section, current + lines[0].extra, lines[0].name, lines[0].inputs)] else [])
      + KeptItems(HeadersAfter(section, current, lines[0]), SectionAfter(current, lines[0]), lines[1..], layers)
  }

  function EntriesIn(output: seq<ConfigItem>): seq<ConfigItem> {
    if output == [] then [] else (if output[0].Entry? then [output[0]] else []) + EntriesIn(output[1..])
  }

  // ---- the inputs of one entry ----

  /** Lists one behind the other, with a separator in front of those that are marked. */
  function Strung(lists: seq<seq<string>>, marks: seq<bool>): seq<string>
    requires |lists| == |marks|
  {
    if lists == [] then []
    else
      var n := |lists| - 1;
      Strung(lists[..n], marks[..n]) + (if marks[n] then ["%%"] else []) + lists[n]
  }

  /** A separator stands between two lists of several, unless there is an empty text or a separator where they meet. */
  predicate KeptApart(before: seq<string>, list: seq<string>) {
    && |before| > 1 && |list| > 1
    && before[|before| - 1] != "" && before[|before| - 1] != "%%" && list[0] != "" && list[0] != "%%"
  }

  ghost predicate Marked(lists: seq<seq<string>>, marks: seq<bool>) {
    && |lists| == |marks|
    && forall k | 0 <= k < |lists| :: marks[k] <==> (k > 0 && KeptApart(Strung(lists[..k], marks[..k]), lists[k]))
  }

  function InputsOf(items: seq<Listed>): (r: seq<seq<string>>)
    ensures |r| == |items| && forall i | 0 <= i < |r| :: r[i] == items[i].inputs
  {
    seq(|items|, i requires 0 <= i < |items| => items[i].inputs)
  }

  /** One entry holds just the inputs of some lines with its parents and name. */
  ghost predicate IsEntryOf(e: ConfigItem, items: seq<Listed>) {
    && e.Entry? && items != []
    && (forall i | 0 <= i < |items| :: items[i].parents == e.parents && items[i].name == e.name)
    && (forall i | 0 <= i < |items| :: SameEntry(items[i], items[0]))
    && exists marks :: Marked(InputsOf(items), marks) && e.inputs == Strung(InputsOf(items), marks)
  }

  // ---- the entries of a file ----

  function Concat<T>(groups: seq<seq<T>>): seq<T> {
    if groups == [] then [] else Concat(groups[..|groups| - 1]) + groups[|groups| - 1]
  }

  /** The lines in groups, one for each entry: neighbours in a group belong together, and neighbouring groups do not. */
  ghost predicate Grouped(groups: seq<seq<Listed>>, items: seq<Listed>, entries: seq<ConfigItem>) {
    && Concat(groups) == items && |groups| == |entries|
    && (forall g | 0 <= g < |groups| :: IsEntryOf(entries[g], groups[g]))
    && forall g | 0 < g < |groups| && groups[g - 1] != [] && groups[g] != [] ::
      !SameEntry(groups[g - 1][0], groups[g][0])
  }

  /** Behind an entry the last group is of the section at hand, and otherwise of one before it. */
  ghost predicate LastGroup(output: seq<ConfigItem>, section: nat, groups: seq<seq<Listed>>) {
    groups != [] ==>
      var last := groups[|groups| - 1];
      && last != []
      && if output != [] && output[|output| - 1].Entry? then last[0].section == section else last[0].section < section
  }

  ghost predicate Follows(c: Config, section: nat, groups: seq<seq<Listed>>, items: seq<Listed>) {
    Grouped(groups, items, EntriesIn(c.output)) && LastGroup(c.output, section, groups)
  }

  lemma {:induction false} EntriesSplit(a: seq<ConfigItem>, b: seq<ConfigItem>)
    ensures EntriesIn(a + b) == EntriesIn(a) + EntriesIn(b)
    decreases |a|
  {
    if a == [] {
      assert a + b == b;
    } else {
      assert (a + b)[1..] == a[1..] + b;
      EntriesSplit(a[1..], b);
      Regroup(if a[0].Entry? then [a[0]] else [], EntriesIn(a[1..]), EntriesIn(b));
    }
  }

  lemma EntryAlone(e: ConfigItem)
    ensures EntriesIn([e]) == if e.Entry? then [e] else []
  {
    assert [e][1..] == [];
  }

  lemma {:induction false} NoEntries(events: seq<ConfigItem>)
    requires forall i | 0 <= i < |events| :: !events[i].Entry?
    ensures EntriesIn(events) == []
  {
    if events != [] { NoEntries(events[1..]); }
  }

  // ---- one line ----

  lemma OneMoreGroup<T>(groups: seq<seq<T>>, last: seq<T>)
    ensures Concat(groups + [last]) == Concat(groups) + last
  {
    assert (groups + [last])[..|groups|] == groups;
  }

  /** An entry of one line has its inputs. */
  lemma FirstOfEntry(item: Listed)
    ensures IsEntryOf(Entry(item.parents, item.name, item.inputs), [item])
  {
    var lists, marks := InputsOf([item]), [false];
    assert lists == [item.inputs] && lists[..0] == [] && marks[..0] == [];
    assert Strung(lists[..0], marks[..0]) == [];
    assert Strung(lists, marks) == [] + [] + item.inputs == item.inputs;
    assert Marked(lists, marks);
  }

  lemma StrungMore(lists: seq<seq<string>>, marks: seq<bool>, list: seq<string>, mark: bool)
    requires |lists| == |marks|
    ensures Strung(lists + [list], marks + [mark]) == Strung(lists, marks) + (if mark then ["%%"] else []) + list
  {
    assert (lists + [list])[..|lists|] == lists && (marks + [mark])[..|marks|] == marks;
  }

  lemma MarkedMore(lists: seq<seq<string>>, marks: seq<bool>, list: seq<string>)
    requires Marked(lists, marks) && lists != []
    ensures Marked(lists + [list], marks + [KeptApart(Strung(lists, marks), list)])
  {
    hide Strung, KeptApart;
    var mark := KeptApart(Strung(lists, marks), list);
    var more, all := lists + [list], marks + [mark];
    forall k | 0 <= k < |more| ensures all[k] <==> (k > 0 && KeptApart(Strung(more[..k], all[..k]), more[k])) {
      assert more[..k] == lists[..k] && all[..k] == marks[..k];
      if k == |lists| { assert lists[..k] == lists && marks[..k] == marks; }
    }
  }

  /** One more line of an entry adds its inputs behind the others. */
  lemma {:induction false} MoreOfEntry(e: ConfigItem, items: seq<Listed>, item: Listed)
    requires IsEntryOf(e, items) && SameEntry(item, items[0])
    ensures IsEntryOf(Entry(e.parents, e.name, MoreInputs(e.inputs, item.inputs)), items + [item])
  {
    hide Strung;
    var lists := InputsOf(items);
    var marks :| Marked(lists, marks) && e.inputs == Strung(lists, marks);
    hide Marked;
    assert InputsOf(items + [item]) == lists + [item.inputs];
    var mark := KeptApart(e.inputs, item.inputs);
    MarkedMore(lists, marks, item.inputs);
    StrungMore(lists, marks, item.inputs, mark);
    Regroup(e.inputs, [], item.inputs);
    assert MoreInputs(e.inputs, item.inputs) == Strung(lists + [item.inputs], marks + [mark]);
    assert (items + [item])[0] == items[0];
  }

  lemma {:induction false} NewEntry(output: seq<ConfigItem>, section: nat, groups: seq<seq<Listed>>, items: seq<Listed>,
    item: Listed)
    requires Grouped(groups, items, EntriesIn(output)) && LastGroup(output, section, groups)
    requires item.section == section
    requires output != [] && output[|output| - 1].Entry? ==>
      output[|output| - 1].parents != item.parents || output[|output| - 1].name != item.name
    ensures var next := output + [Entry(item.parents, item.name, item.inputs)];
      Grouped(groups + [[item]], items + [item], EntriesIn(next)) && LastGroup(next, section, groups + [[item]])
  {
    hide Concat, IsEntryOf;
    var e := Entry(item.parents, item.name, item.inputs);
    EntriesSplit(output, [e]);
    EntryAlone(e);
    OneMoreGroup(groups, [item]);
    FirstOfEntry(item);
    var more := groups + [[item]];
    if groups != [] {
      var last := groups[|groups| - 1];
      if output != [] && output[|output| - 1].Entry? {
        LastEntry(output);
        EntryNamesGroup(output[|output| - 1], last);
      }
      assert !SameEntry(last[0], item);
    }
    forall g | 0 < g < |more| && more[g - 1] != [] && more[g] != [] ensures !SameEntry(more[g - 1][0], more[g][0]) {
      assert more[g - 1] == groups[g - 1];
      if g < |groups| { assert more[g] == groups[g]; }
    }
  }

  lemma LastEntry(output: seq<ConfigItem>)
    requires output != [] && output[|output| - 1].Entry?
    ensures var entries := EntriesIn(output);
      entries == EntriesIn(output[..|output| - 1]) + [output[|output| - 1]]
  {
    var n := |output| - 1;
    assert output == output[..n] + [output[n]];
    EntriesSplit(output[..n], [output[n]]);
    EntryAlone(output[n]);
  }

  lemma EntryNamesGroup(e: ConfigItem, items: seq<Listed>)
    requires IsEntryOf(e, items)
    ensures e.Entry? && items != [] && items[0].parents == e.parents && items[0].name == e.name
  {
  }

  lemma {:induction false} SameEntryAgain(output: seq<ConfigItem>, section: nat, groups: seq<seq<Listed>>,
    items: seq<Listed>, item: Listed)
    requires Grouped(groups, items, EntriesIn(output)) && LastGroup(output, section, groups)
    requires item.section == section && output != [] && output[|output| - 1].Entry?
    requires output[|output| - 1].parents == item.parents && output[|output| - 1].name == item.name
    ensures groups != []
    ensures var n, m := |output| - 1, |groups| - 1;
      var next := output[..n] + [Entry(item.parents, item.name, MoreInputs(output[n].inputs, item.inputs))];
      var more := groups[..m] + [groups[m] + [item]];
      Grouped(more, items + [item], EntriesIn(next)) && LastGroup(next, section, more)
  {
    hide Concat, IsEntryOf, MoreInputs, EntriesIn;
    LastEntry(output);
    var n, m := |output| - 1, |groups| - 1;
    var front, last := groups[..m], groups[m];
    var e := Entry(item.parents, item.name, MoreInputs(output[n].inputs, item.inputs));
    var next := output[..n] + [e];
    assert next[..n] == output[..n];
    LastEntry(next);
    assert groups == front + [last];
    OneMoreGroup(front, last);
    OneMoreGroup(front, last + [item]);
    Regroup(Concat(front), last, [item]);
    EntryNamesGroup(output[n], last);
    MoreOfEntry(output[n], last, item);
    var more := front + [last + [item]];
    forall g | 0 <= g < |more| ensures IsEntryOf(EntriesIn(next)[g], more[g]) {
      if g < m { assert more[g] == groups[g] && EntriesIn(next)[g] == EntriesIn(output)[g]; }
    }
    forall g | 0 < g < |more| && more[g - 1] != [] && more[g] != [] ensures !SameEntry(more[g - 1][0], more[g][0]) {
      assert more[g - 1] == groups[g - 1] && more[g][0] == groups[g][0];
    }
  }

  /** Section events in front of what comes next leave the entries as they are. */
  lemma {:induction false} SectionEvents(output: seq<ConfigItem>, section: nat, groups: seq<seq<Listed>>,
    items: seq<Listed>, next: seq<ConfigItem>)
    requires Grouped(groups, items, EntriesIn(output)) && LastGroup(output, section, groups)
    requires EntriesIn(next) == EntriesIn(output) && (next == [] || !next[|next| - 1].Entry?)
    ensures Grouped(groups, items, EntriesIn(next)) && LastGroup(next, section + 1, groups)
  {
    hide Grouped, EntriesIn;
  }

  lemma {:induction false} HeaderEvents(c: Config, path: Path)
    requires path != []
    ensures var output := Found(c).0 + Change(Found(c).1, path);
      EntriesIn(output) == EntriesIn(c.output) && output != [] && !output[|output| - 1].Entry?
  {
    hide Change;
    var (base, old_) := Found(c);
    var change := Change(old_, path);
    ChangeHasNoEntries(old_, path);
    ChangeEnds(old_, path);
    EntriesSplit(base, change);
    NoEntries(change);
    if base != c.output {
      var n := |c.output| - 1;
      assert c.output == base + [c.output[n]];
      EntriesSplit(base, [c.output[n]]);
      EntryAlone(c.output[n]);
    }
    Regroup(EntriesIn(base), [], []);
  }

  lemma ChangeHasNoEntries(old_: Option<Path>, path: Path)
    requires path != []
    ensures forall i | 0 <= i < |Change(old_, path)| :: !Change(old_, path)[i].Entry?
  {
    hide CliSections.Kept;
    if old_.None? {
      OpeningOnly(path, 0);
    } else {
      ClosingOnly(old_.value, CliSections.Kept(old_.value, path));
      OpeningOnly(path, CliSections.Kept(old_.value, path));
    }
  }

  lemma {:induction false} OpeningOnly(p: Path, from: nat)
    requires from <= |p|
    ensures forall i | 0 <= i < |Opening(p, from)| :: Opening(p, from)[i].Opens?
    decreases |p| - from
  {
    if from < |p| { OpeningOnly(p, from + 1); }
  }

  lemma {:induction false} ClosingOnly(p: Path, down: nat)
    requires down <= |p|
    ensures forall i | 0 <= i < |Closing(p, down)| :: Closing(p, down)[i].Closes?
    decreases |p|
  {
    if down < |p| { ClosingOnly(p[..|p| - 1], down); }
  }

  /** One line adds itself to the groups when it is kept. */
  lemma {:induction false} FeedGroups(c: Config, section: nat, groups: seq<seq<Listed>>, items: seq<Listed>, line: Line,
    layers: nat) returns (more: seq<seq<Listed>>)
    requires Sane(c) && LineOk(line) && Follows(c, section, groups, items)
    ensures var current := OpenPath(c.current);
      Follows(Feed(c, line, layers), HeadersAfter(section, current, line), more,
              items + KeptItems(section, current, [line], layers))
  {
    hide Grouped, LastGroup, Change, MoreInputs, EntriesIn;
    more := groups;
    var next := Feed(c, line, layers);
    assert [line][1..] == [];
    Regroup(items, [], []);
    match line
    case Header(path) =>
      HeaderEvents(c, path);
      SectionEvents(c.output, section, groups, items, next.output);
    case DefaultHeader =>
      if c.current.Some? {
        EntriesSplit(c.output, [Closes(c.current.value)]);
        EntryAlone(Closes(c.current.value));
        Regroup(EntriesIn(c.output), [], []);
        SectionEvents(c.output, section, groups, items, next.output);
      }
    case Item(extra, name, inputs) =>
      var parents, n := OpenPath(c.current) + extra, |c.output|;
      if |parents| <= layers {
        var item := Listed(section, parents, name, inputs);
        assert KeptItems(section, OpenPath(c.current), [line], layers) == [item];
        if n > 0 && c.output[n - 1].Entry? && c.output[n - 1].parents == parents && c.output[n - 1].name == name {
          SameEntryAgain(c.output, section, groups, items, item);
          var m := |groups| - 1;
          more := groups[..m] + [groups[m] + [item]];
        } else {
          NewEntry(c.output, section, groups, items, item);
          more := groups + [[item]];
        }
      }
  }

  lemma SectionKept(c: Config, line: Line, layers: nat)
    requires Sane(c) && LineOk(line)
    ensures OpenPath(Feed(c, line, layers).current) == SectionAfter(OpenPath(c.current), line)
  {
    hide Change, MoreInputs;
  }

  lemma {:induction false} FeedAllGroups(c: Config, section: nat, groups: seq<seq<Listed>>, items: seq<Listed>,
    lines: seq<Line>, layers: nat) returns (all: seq<seq<Listed>>)
    requires Sane(c) && HeadersOk(lines) && Follows(c, section, groups, items)
    ensures Grouped(all, items + KeptItems(section, OpenPath(c.current), lines, layers),
                    EntriesIn(FeedAll(c, lines, layers).output))
    decreases |lines|
  {
    hide Grouped, LastGroup, Feed, Sane, EntriesIn, LineOk;
    if lines == [] {
      all := groups;
      Regroup(items, [], []);
    } else {
      var line, current := lines[0], OpenPath(c.current);
      FeedSane(c, line, layers);
      SectionKept(c, line, layers);
      var more := FeedGroups(c, section, groups, items, line, layers);
      all := FeedAllGroups(Feed(c, line, layers), HeadersAfter(section, current, line), more,
                           items + KeptItems(section, current, [line], layers), lines[1..], layers);
      FirstListed(section, current, lines, layers);
      Regroup(items, KeptItems(section, current, [line], layers),
        KeptItems(HeadersAfter(section, current, line), SectionAfter(current, line), lines[1..], layers));
    }
  }

  lemma FirstListed(section: nat, current: Path, lines: seq<Line>, layers: nat)
    requires lines != []
    ensures KeptItems(section, current, lines, layers) == KeptItems(section, current, [lines[0]], layers)
      + KeptItems(HeadersAfter(section, current, lines[0]), SectionAfter(current, lines[0]), lines[1..], layers)
  {
    assert [lines[0]][1..] == [];
  }

  /** The entries of a file are those of its kept entry lines, in order: the lines fall into the runs that no
      section event and no other name interrupts, and each run is one entry with the inputs of its lines in order.
      */
  lemma {:induction false} InputsOfFile(lines: seq<Line>, layers: nat)
    requires HeadersOk(lines)
    ensures exists groups :: Grouped(groups, KeptItems(0, [], lines, layers), EntriesIn(Events(lines, layers)))
  {
    hide Grouped, FeedAll, EntriesIn;
    NothingGrouped();
    var groups := FeedAllGroups(START_CONFIG, 0, [], [], lines, layers);
    var c := FeedAll(START_CONFIG, lines, layers);
    var end := Closing(OpenPath(c.current), 0);
    ClosingOnly(OpenPath(c.current), 0);
    EntriesSplit(c.output, end);
    NoEntries(end);
    Regroup(EntriesIn(c.output), [], []);
    Regroup(KeptItems(0, [], lines, layers), [], []);
    assert Grouped(groups, KeptItems(0, [], lines, layers), EntriesIn(Events(lines, layers)));
  }

  lemma NothingGrouped()
    ensures Follows(START_CONFIG, 0, [], [])
  {
  }

  // ---- the separators ----

  function WithoutMarks(inputs: seq<string>): seq<string> {
    if inputs == [] then []
    else WithoutMarks(inputs[..|inputs| - 1]) + if inputs[|inputs| - 1] == "%%" then [] else [inputs[|inputs| - 1]]
  }

  lemma {:induction false} WithoutMarksSplit(a: seq<string>, b: seq<string>)
    ensures WithoutMarks(a + b) == WithoutMarks(a) + WithoutMarks(b)
    decreases |b|
  {
    if b == [] {
      assert a + b == a;
    } else {
      var n := |b| - 1;
      assert (a + b)[..|a| + n] == a + b[..n];
      WithoutMarksSplit(a, b[..n]);
    }
  }

  lemma {:induction false} NoMarks(list: seq<string>)
    requires "%%" !in list
    ensures WithoutMarks(list) == list
    decreases |list|
  {
    if list != [] {
      var n := |list| - 1;
      NoMarks(list[..n]);
      assert list == list[..n] + [list[n]];
    }
  }

  /** Without the separators the inputs of an entry are those of its lines, one list behind the other. */
  lemma {:induction false} OnlyMarksAdded(lists: seq<seq<string>>, marks: seq<bool>)
    requires |lists| == |marks| && forall i | 0 <= i < |lists| :: "%%" !in lists[i]
    ensures WithoutMarks(Strung(lists, marks)) == Concat(lists)
    decreases |lists|
  {
    hide WithoutMarks;
    if lists == [] {
      NoMarks([]);
    } else {
      var n := |lists| - 1;
      OnlyMarksAdded(lists[..n], marks[..n]);
      NoMarks(lists[n]);
      OneMarkAdded(Strung(lists[..n], marks[..n]), marks[n], lists[n]);
    }
  }

  lemma OneMarkAdded(before: seq<string>, mark: bool, list: seq<string>)
    ensures WithoutMarks(before + (if mark then ["%%"] else []) + list) == WithoutMarks(before) + WithoutMarks(list)
  {
    hide WithoutMarks;
    WithoutMarksSplit(before + (if mark then ["%%"] else []), list);
    WithoutMarksSplit(before, ["%%"]);
    OnlyAMark();
    Regroup(before, [], []);
    Regroup(WithoutMarks(before), [], []);
  }

  lemma OnlyAMark()
    ensures WithoutMarks(["%%"]) == []
  {
    assert ["%%"][..0] == [];
  }
}
