/** The section events of from_config: checkParentSegments and the section
    ends, as a machine that opens and closes one path segment at a time. */
module CliSections {
  import opened Text
  import opened Results
  import opened CliEscape
  import opened CliBrackets

  /** The segments of a section name. */
  type Path = seq<string>

  /** "++" opens a path, "--" closes it, anything else is an entry of the section it names. */
  datatype ConfigItem =
    | Opens(parents: Path)
    | Closes(parents: Path)
    | Entry(parents: Path, name: string, inputs: seq<string>)

  // ---- what the events mean ----

  /** The open path after an event: it grows by one segment, it loses its last segment, or an
      entry below it appears (a dotted name adds segments of its own). Any other event
      is out of place. */
  function Replay1(open: Option<Path>, e: ConfigItem): Option<Path> {
    if open.None? then None
    else
      match e
      case Opens(p) => if p != [] && p[..|p| - 1] == open.value then Some(p) else None
      case Closes(p) => if p != [] && p == open.value then Some(p[..|p| - 1]) else None
      case Entry(p, _, _) => if open.value <= p then open else None
  }

  function Replay(open: Option<Path>, events: seq<ConfigItem>): Option<Path>
    decreases events
  {
    if events == [] then open else Replay(Replay1(open, events[0]), events[1..])
  }

  lemma {:induction false} ReplaySplit(open: Option<Path>, a: seq<ConfigItem>, b: seq<ConfigItem>)
    ensures Replay(open, a + b) == Replay(Replay(open, a), b)
    decreases |a|
  {
    if a == [] {
      assert a + b == b;
    } else {
      assert (a + b)[1..] == a[1..] + b;
      ReplaySplit(Replay1(open, a[0]), a[1..], b);
    }
  }

  // ---- which events are needed ----

  /** How many segments two paths share at the front. */
  function Common(a: Path, b: Path): (n: nat)
    ensures n <= |a| && n <= |b| && a[..n] == b[..n]
    ensures n < |a| && n < |b| ==> a[n] != b[n]
  {
    if a == [] || b == [] || a[0] != b[0] then 0
    else
      var n := 1 + Common(a[1..], b[1..]);
      assert a[..n] == [a[0]] + a[1..][..n - 1] && b[..n] == [b[0]] + b[1..][..n - 1];
      n
  }

  /** How much of the old path stays open for the new one: the common part, but not all of the
      new path, which is always opened anew. */
  function Kept(old_: Path, new_: Path): (n: nat)
    requires new_ != []
    ensures n <= |old_| && n < |new_| && old_[..n] == new_[..n]
  {
    var n := Common(old_, new_);
    if n < |new_| then n
    else
      assert old_[..n][..|new_| - 1] == old_[..|new_| - 1];
      |new_| - 1
  }

  /** Closing a path down to a length. */
  function Closing(p: Path, down: nat): seq<ConfigItem>
    requires down <= |p|
    decreases |p|
  {
    if |p| == down then [] else [Closes(p)] + Closing(p[..|p| - 1], down)
  }

  /** Opening a path from a length on. */
  function Opening(p: Path, from: nat): seq<ConfigItem>
    requires from <= |p|
    decreases |p| - from
  {
    if from == |p| then [] else [Opens(p[..from + 1])] + Opening(p, from + 1)
  }

  lemma {:induction false} ReplayClosing(p: Path, down: nat)
    requires down <= |p|
    ensures Replay(Some(p), Closing(p, down)) == Some(p[..down])
    decreases |p|
  {
    if down < |p| {
      ReplayClosing(p[..|p| - 1], down);
      assert p[..|p| - 1][..down] == p[..down];
    } else {
      assert p[..down] == p;
    }
  }

  lemma {:induction false} ReplayOpening(p: Path, from: nat)
    requires from <= |p|
    ensures Replay(Some(p[..from]), Opening(p, from)) == Some(p)
    decreases |p| - from
  {
    if from < |p| {
      assert p[..from + 1][..from] == p[..from];
      ReplayOpening(p, from + 1);
    } else {
      assert p[..from] == p;
    }
  }

  // ---- checkParentSegments ----

  lemma {:induction false} ClosingStep(p: Path, n: nat)
    requires 0 < n <= |p|
    ensures Closing(p, n - 1) == Closing(p, n) + [Closes(p[..n])]
    decreases |p|
  {
    if |p| == n {
      assert p[..n] == p && Closing(p[..n - 1], n - 1) == [];
    } else {
      assert p[..|p| - 1][..n] == p[..n];
      ClosingStep(p[..|p| - 1], n);
    }
  }

  lemma {:induction false} OpeningStep(p: Path, from: nat, n: nat)
    requires from <= n < |p|
    ensures Opening(p[..n + 1], from) == Opening(p[..n], from) + [Opens(p[..n + 1])]
    decreases n - from
  {
    if from < n {
      assert p[..n][..from + 1] == p[..from + 1] == p[..n + 1][..from + 1];
      OpeningStep(p, from + 1, n);
    } else {
      assert p[..n + 1][..n + 1] == p[..n + 1];
      assert Opening(p[..n + 1], n + 1) == [] && Opening(p[..n], n) == [];
    }
  }

  lemma CommonIs(a: Path, b: Path, n: nat)
    requires n <= |a| && n <= |b| && a[..n] == b[..n]
    requires n < |a| && n < |b| ==> a[n] != b[n]
    ensures Common(a, b) == n
  {
    var c := Common(a, b);
    assert forall i | 0 <= i < n :: a[..n][i] == b[..n][i];
    assert forall i | 0 <= i < c :: a[..c][i] == b[..c][i];
  }

  /** One more copy of the last event, with one segment less. */
  method PushShorter(output: seq<ConfigItem>) returns (out: seq<ConfigItem>)
    requires output != [] && output[|output| - 1].Closes? && output[|output| - 1].parents != []
    ensures var p := output[|output| - 1].parents; out == output + [Closes(p[..|p| - 1])]
  {
    var p := output[|output| - 1].parents;
    out := output + [Closes(p[..|p| - 1])];
  }

  /** Closes sections from the back until the last closed path is at most this long. */
  method CloseDownTo(output: seq<ConfigItem>, size: nat, ghost base: seq<ConfigItem>, ghost old_: Path, ghost n: nat)
    returns (out: seq<ConfigItem>)
    requires size > 0 && n < |old_| && output == base + Closing(old_, n)
    ensures out == base + Closing(old_, if n + 1 <= size then n else size - 1)
  {
    out := output;
    ghost var m := n;
    LastClosed(base, old_, m);
    while |out[|out| - 1].parents| > size
      invariant m <= n && (m == n || size <= m + 1) && out == base + Closing(old_, m)
      invariant out != [] && out[|out| - 1] == Closes(old_[..m + 1])
      decreases m
    {
      out := PushShorter(out);
      ClosingStep(old_, m);
      assert old_[..m + 1][..m] == old_[..m];
      assert base + Closing(old_, m) + [Closes(old_[..m])] == base + Closing(old_, m - 1);
      m := m - 1;
    }
  }

  lemma {:induction false} LastClosed(base: seq<ConfigItem>, p: Path, n: nat)
    requires n < |p|
    ensures var out := base + Closing(p, n); out != [] && out[|out| - 1] == Closes(p[..n + 1])
  {
    ClosingStep(p, n + 1);
  }

  /** What the section change appends to the events before it. */
  function Change(old_: Option<Path>, new_: Path): seq<ConfigItem>
    requires new_ != []
  {
    if old_.None? then Opening(new_, 0)
    else Closing(old_.value, Kept(old_.value, new_)) + Opening(new_, Kept(old_.value, new_))
  }

  /** The "++" events of the segments from a length on, then of the whole path. */
  method OpenFrom(output: seq<ConfigItem>, parents: Path, from: nat) returns (out: seq<ConfigItem>)
    requires from < |parents|
    ensures out == output + Opening(parents, from)
  {
    out := output;
    assert Opening(parents[..from], from) == [];
    for ii := from to |parents| - 1
      invariant out == output + Opening(parents[..ii], from)
    {
      OpeningStep(parents, from, ii);
      out := out + [Opens(parents[..ii + 1])];
    }
    OpeningStep(parents, from, |parents| - 1);
    assert parents[..|parents|] == parents;
    out := out + [Opens(parents)];
  }

  /** How far the path that was closed last agrees with the new one, up to a length. */
  method CommonUpTo(a: Path, b: Path, mpair: nat) returns (common: nat)
    requires mpair <= |a| && mpair <= |b|
    ensures common <= mpair && a[..common] == b[..common] && (common < mpair ==> a[common] != b[common])
  {
    common := 0;
    for ii := 0 to mpair
      invariant common == ii && a[..common] == b[..common]
    {
      if a[ii] != b[ii] {
        break;
      }
      assert a[..ii + 1] == a[..ii] + [a[ii]] && b[..ii + 1] == b[..ii] + [b[ii]];
      common := common + 1;
    }
  }

  /** checkParentSegments: after the closing of the old section at its full length, just as many
      segments are closed as the new path does not share, and then the others are opened. */
  method CheckParentSegments(output: seq<ConfigItem>, parents: Path, ghost base: seq<ConfigItem>,
    ghost old_: Option<Path>)
    returns (out: seq<ConfigItem>)
    requires parents != []
    requires old_.None? ==> output == base && (base == [] || !base[|base| - 1].Closes?)
    requires old_.Some? ==> old_.value != [] && output == base + [Closes(old_.value)]
    ensures out == base + Change(old_, parents)
  {
    hide Common, Kept;
    if output != [] && output[|output| - 1].Closes? {
      ghost var q := old_.value;
      OneClosed(q);
      var msize := if |parents| > 1 then |parents| else 2;
      out := CloseDownTo(output, msize - 1, base, q, |q| - 1);
      ghost var n := if |q| <= msize - 1 then |q| - 1 else msize - 2;
      if |parents| > 1 {
        var common;
        out, common := CloseToCommon(out, parents, base, q, n);
        out := OpenFrom(out, parents, common);
      } else {
        KeptOfOne(q, parents);
        OneOpened(parents);
        out := out + [Opens(parents)];
      }
    } else {
      out := OpenFrom(output, parents, 0);
    }
  }

  lemma OneClosed(q: Path)
    requires q != []
    ensures Closing(q, |q| - 1) == [Closes(q)]
  {
    assert Closing(q[..|q| - 1], |q| - 1) == [];
  }

  lemma OneOpened(p: Path)
    requires |p| == 1
    ensures Opening(p, 0) == [Opens(p)]
  {
    assert p[..1] == p && Opening(p, 1) == [];
  }

  lemma KeptOfOne(q: Path, parents: Path)
    requires |parents| == 1
    ensures Kept(q, parents) == 0
  {
  }

  /** From a path closed down to no more than the parents of the new one, to the common part. */
  method CloseToCommon(output: seq<ConfigItem>, parents: Path, ghost base: seq<ConfigItem>, ghost q: Path, ghost n: nat)
    returns (out: seq<ConfigItem>, common: nat)
    requires |parents| > 1 && q != [] && n + 1 == (if |q| < |parents| - 1 then |q| else |parents| - 1)
    requires output == base + Closing(q, n)
    ensures common == Kept(q, parents) && out == base + Closing(q, common)
  {
    hide Common, Kept;
    LastClosed(base, q, n);
    var closed := output[|output| - 1].parents;
    var mpair := if |closed| < |parents| - 1 then |closed| else |parents| - 1;
    common := CommonUpTo(closed, parents, mpair);
    KeptIs(q, parents, n + 1, common);
    ClosingStep(q, n + 1);
    if common == mpair {
      out := output[..|output| - 1];
      assert base + (Closing(q, n + 1) + [Closes(q[..n + 1])]) == base + Closing(q, n + 1) + [Closes(q[..n + 1])];
    } else {
      out := CloseDownTo(output, common + 1, base, q, n);
    }
  }

  lemma KeptIs(q: Path, parents: Path, n: nat, common: nat)
    requires |parents| > 1 && n == (if |q| < |parents| - 1 then |q| else |parents| - 1)
    requires common <= n && q[..n][..common] == parents[..common] && (common < n ==> q[..n][common] != parents[common])
    ensures Kept(q, parents) == common
  {
    assert q[..common] == parents[..common] by { assert q[..n][..common] == q[..common]; }
    var c := Common(q, parents);
    if common < n || n == |q| {
      CommonIs(q, parents, common);
    } else {
      assert forall i | 0 <= i < common :: q[i] == q[..common][i] == parents[..common][i] == parents[i];
    }
  }

  // ---- headers ----

  /** The lines that matter here: a header with its path, a [default] header, or an entry with the
      segments its own name adds and its inputs. */
  datatype Line = Header(path: Path) | DefaultHeader | Item(extra: Path, name: string, inputs: seq<string>)

  function Unquoted1(arg: string): string {
    if |arg| > 1 && IsQuote(arg[0]) && arg[0] == arg[|arg| - 1] then arg[1..|arg| - 1] else arg
  }

  /** A segment without its quotes; escapes count between double quotes only. */
  function Segment(arg: string): Attempt<string> {
    if arg != "" && arg[0] == '\"' && arg[|arg| - 1] == '\"' then RemoveEscaped(Unquoted1(arg)) else Ok(Unquoted1(arg))
  }

  function Segments(args: seq<string>): (r: Attempt<Path>)
    ensures r.Ok? ==> |r.value| == |args|
  {
    if args == [] then Ok([])
    else
      var first :- Segment(args[0]);
      var rest :- Segments(args[1..]);
      Ok([first] + rest)
  }

  predicate IsHeader(line: string) { |line| >= 3 && line[0] == '[' && line[|line| - 1] == ']' }

  /** The name between the brackets, which may be double. */
  function SectionName(line: string): string
    requires IsHeader(line)
  {
    var name := line[1..|line| - 1];
    if |name| > 1 && name[0] == '[' && name[|name| - 1] == ']' then name[1..|name| - 1] else name
  }

  /** A header line: segments at '.', unless the name is "default" in some case. */
  function HeaderLine(line: string): Attempt<Line>
    requires IsHeader(line)
  {
    var name := SectionName(line);
    if Lower(name) == "default" then Ok(DefaultHeader)
    else
      var path :- Segments(if '.' in name then SplitUp(name, '.') else [name]);
      Ok(Header(path))
  }

  /** Whatever header a file has, its path has a segment. */
  lemma HeaderHasPath(line: string)
    requires IsHeader(line)
    ensures HeaderLine(line).Ok? ==> LineOk(HeaderLine(line).value)
  {
    hide Segments, Tokens, Trim;
    var name := SectionName(line);
    if '.' in name {
      var before, after := TrimParts(name);
      assert Trim(name) != "";
      assert SplitUp(name, '.') != [] by { SomeToken(Trim(name)); }
    }
  }

  lemma SomeToken(str: string)
    requires str != ""
    ensures Tokens(str, '.') != []
  {
    hide TokenLength, AfterToken;
  }

  // ---- from_config ----

  predicate LineOk(line: Line) { line.Header? ==> line.path != [] }

  predicate HeadersOk(lines: seq<Line>) { forall i | 0 <= i < |lines| :: LineOk(lines[i]) }

  /** The events so far and the current section, none in the default section. */
  datatype Config = Config(output: seq<ConfigItem>, current: Option<Path>)

  const START_CONFIG: Config := Config([], None)

  function OpenPath(current: Option<Path>): Path { if current.Some? then current.value else [] }

  predicate EndsClosed(output: seq<ConfigItem>) { output != [] && output[|output| - 1].Closes? }

  /** Paths that are current or closed last have a segment. */
  predicate Sane(c: Config) {
    && (c.current.Some? ==> c.current.value != [])
    && (EndsClosed(c.output) ==> c.output[|c.output| - 1].parents != [])
  }

  /** The events that a header finds, and the section it takes to be closed by the last of them: the current
      one, or the one before a [default] header that nothing followed. */
  function Found(c: Config): (seq<ConfigItem>, Option<Path>) {
    if c.current.None? && EndsClosed(c.output) then (c.output[..|c.output| - 1], Some(c.output[|c.output| - 1].parents))
    else (c.output, c.current)
  }

  /** Inputs that are added to those of the same entry: lists of several are kept apart. */
  function MoreInputs(old_: seq<string>, new_: seq<string>): seq<string> {
    if |old_| > 1 && |new_| > 1 && old_[|old_| - 1] != "" && new_[0] != "" && old_[|old_| - 1] != "%%"
      && new_[0] != "%%"
    then old_ + ["%%"] + new_ else old_ + new_
  }

  function Feed(c: Config, line: Line, layers: nat): Config
    requires LineOk(line)
  {
    match line
    case Header(path) => Config(Found(c).0 + Change(Found(c).1, path), Some(path))
    case DefaultHeader => if c.current.Some? then Config(c.output + [Closes(c.current.value)], None) else c
    case Item(extra, name, inputs) =>
      var parents := OpenPath(c.current) + extra;
      if |parents| > layers then c
      else
        var n := |c.output|;
        if n > 0 && c.output[n - 1].Entry? && c.output[n - 1].parents == parents && c.output[n - 1].name == name then
          c.(output := c.output[..n - 1] + [Entry(parents, name, MoreInputs(c.output[n - 1].inputs, inputs))])
        else c.(output := c.output + [Entry(parents, name, inputs)])
  }

  function FeedAll(c: Config, lines: seq<Line>, layers: nat): Config
    requires HeadersOk(lines)
    decreases |lines|
  {
    if lines == [] then c else FeedAll(Feed(c, lines[0], layers), lines[1..], layers)
  }

  function Finished(c: Config): seq<ConfigItem> { c.output + Closing(OpenPath(c.current), 0) }

  /** All events of a file: those of its lines and the closing of the section that is still open. */
  function Events(lines: seq<Line>, layers: nat): seq<ConfigItem>
    requires HeadersOk(lines)
  {
    Finished(FeedAll(START_CONFIG, lines, layers))
  }

  // ---- where the lines of a file are ----

  /** In a section, just behind one that a [default] header left, or in the default section. */
  datatype Place = In(path: Path) | Left(path: Path) | Outside

  predicate IsKept(place: Place, line: Line, layers: nat) {
    line.Item? && |if place.In? then place.path + line.extra else line.extra| <= layers
  }

  function NextPlace(place: Place, line: Line, layers: nat): Place {
    match line
    case Header(path) => In(path)
    case DefaultHeader => if place.In? then Left(place.path) else place
    case Item(_, _, _) => if place.Left? && IsKept(place, line, layers) then Outside else place
  }

  function PlaceAfter(place: Place, lines: seq<Line>, layers: nat): Place
    decreases |lines|
  {
    if lines == [] then place else PlaceAfter(NextPlace(place, lines[0], layers), lines[1..], layers)
  }

  /** Behind a section of several segments, of which a [default] header closes the last one only. */
  predicate IsNestedLeft(place: Place) { place.Left? && |place.path| > 1 }

  /** An entry comes when a [default] header has left a section of several segments and no header came since. */
  predicate Stranded(place: Place, lines: seq<Line>, layers: nat)
    decreases |lines|
  {
    lines != [] &&
    ((IsNestedLeft(place) && IsKept(place, lines[0], layers)) ||
       Stranded(NextPlace(place, lines[0], layers), lines[1..], layers))
  }

  function OpenAt(place: Place): Path
    requires place.Left? ==> place.path != []
  {
    match place
    case In(path) => path
    case Left(path) => path[..|path| - 1]
    case Outside => []
  }

  /** The events are in place and leave open what the place says. */
  predicate WellNested(c: Config, place: Place) {
    && (place.Outside? || place.path != [])
    && Replay(Some([]), c.output) == Some(OpenAt(place))
    && c.current == (if place.In? then Some(place.path) else None)
    && (place.Left? ==> EndsClosed(c.output) && c.output[|c.output| - 1].parents == place.path)
    && (place.Outside? ==> !EndsClosed(c.output))
  }

  /** Something is out of place, or open without being current, for good. */
  predicate Broken(c: Config) {
    if c.current.Some? then Replay(Some([]), c.output) == None
    else if EndsClosed(c.output) then Replay(Some([]), c.output[..|c.output| - 1]) == None
    else Replay(Some([]), c.output) != Some([])
  }

  lemma {:induction false} ReplayChange(old_: Option<Path>, new_: Path)
    requires new_ != [] && (old_.Some? ==> old_.value != [])
    ensures Replay(Some(OpenPath(old_)), Change(old_, new_)) == Some(new_)
  {
    if old_.None? {
      ReplayOpening(new_, 0);
      assert new_[..0] == [];
    } else {
      var n := Kept(old_.value, new_);
      ReplaySplit(Some(old_.value), Closing(old_.value, n), Opening(new_, n));
      ReplayClosing(old_.value, n);
      ReplayOpening(new_, n);
    }
  }

  lemma {:induction false} ReplayMore(output: seq<ConfigItem>, e: ConfigItem)
    ensures Replay(Some([]), output + [e]) == Replay1(Replay(Some([]), output), e)
  {
    ReplaySplit(Some([]), output, [e]);
    assert [e][1..] == [];
  }

  lemma ReplayBeforeLast(output: seq<ConfigItem>)
    requires output != []
    ensures Replay(Some([]), output) == Replay1(Replay(Some([]), output[..|output| - 1]), output[|output| - 1])
  {
    assert output[..|output| - 1] + [output[|output| - 1]] == output;
    ReplayMore(output[..|output| - 1], output[|output| - 1]);
  }

  /** An entry, new or with more inputs, has the effect of its parents on what is open. */
  lemma {:induction false} ReplayItem(c: Config, line: Line, layers: nat)
    requires line.Item? && |OpenPath(c.current) + line.extra| <= layers
    ensures var next := Feed(c, line, layers);
      && Replay(Some([]), next.output) ==
        Replay1(Replay(Some([]), c.output), Entry(OpenPath(c.current) + line.extra, line.name, line.inputs))
      && !EndsClosed(next.output) && next.current == c.current
  {
    hide MoreInputs;
    var e := Entry(OpenPath(c.current) + line.extra, line.name, line.inputs);
    var next := Feed(c, line, layers);
    if next.output == c.output + [e] {
      ReplayMore(c.output, e);
    } else {
      ReplayBeforeLast(c.output);
      ReplayMore(c.output[..|c.output| - 1], next.output[|next.output| - 1]);
      assert forall open :: Replay1(Replay1(open, e), e) == Replay1(open, e);
    }
  }

  /** A line keeps the events well nested, or breaks them when it is a stranded entry. */
  lemma {:induction false} FeedKeeps(c: Config, place: Place, line: Line, layers: nat)
    requires WellNested(c, place) && LineOk(line)
    ensures var next := Feed(c, line, layers);
      if IsNestedLeft(place) && IsKept(place, line, layers) then Broken(next)
      else WellNested(next, NextPlace(place, line, layers))
  {
    hide Change, Replay;
    var next := Feed(c, line, layers);
    match line
    case Header(path) =>
      var (base, old_) := Found(c);
      HeaderOpens(c, place, path);
    case DefaultHeader =>
      if c.current.Some? { ReplayMore(c.output, Closes(c.current.value)); }
    case Item(extra, name, inputs) =>
      if IsKept(place, line, layers) { ReplayItem(c, line, layers); }
  }

  lemma {:induction false} HeaderOpens(c: Config, place: Place, path: Path)
    requires WellNested(c, place) && path != []
    ensures var output := Found(c).0 + Change(Found(c).1, path);
      Replay(Some([]), output) == Some(path) && !EndsClosed(output)
  {
    var (base, old_) := Found(c);
    LeftAtFound(c, place);
    ReplaySplit(Some([]), base, Change(old_, path));
    ReplayChange(old_, path);
    ChangeEnds(old_, path);
  }

  lemma LeftAtFound(c: Config, place: Place)
    requires WellNested(c, place)
    ensures var (base, old_) := Found(c);
      Replay(Some([]), base) == Some(OpenPath(old_)) && (old_.Some? ==> old_.value != [])
  {
    hide Replay;
    if place.Left? { ReplayBeforeLast(c.output); }
  }

  lemma {:induction false} ChangeEnds(old_: Option<Path>, path: Path)
    requires path != []
    ensures var change := Change(old_, path); change != [] && change[|change| - 1] == Opens(path)
  {
    hide Common, Kept;
    var from := if old_.None? then 0 else Kept(old_.value, path);
    OpeningEnds(path, from);
  }

  lemma {:induction false} OpeningEnds(path: Path, from: nat)
    requires from < |path|
    ensures Opening(path, from) != [] && Opening(path, from)[|Opening(path, from)| - 1] == Opens(path)
    decreases |path| - from
  {
    if from + 1 < |path| { OpeningEnds(path, from + 1); } else { assert path[..from + 1] == path; }
  }

  /** What is broken stays broken. */
  lemma {:induction false} BrokenStays(c: Config, line: Line, layers: nat)
    requires Broken(c) && LineOk(line)
    ensures Broken(Feed(c, line, layers))
  {
    hide Change, Replay;
    match line
    case Header(path) => BrokenHeader(c, path);
    case DefaultHeader =>
      if c.current.Some? { assert (c.output + [Closes(c.current.value)])[..|c.output|] == c.output; }
    case Item(extra, name, inputs) =>
      if |OpenPath(c.current) + extra| <= layers {
        if EndsClosed(c.output) { ReplayBeforeLast(c.output); }
        ReplayItem(c, line, layers);
      }
  }

  lemma {:induction false} BrokenHeader(c: Config, path: Path)
    requires Broken(c) && path != []
    ensures Replay(Some([]), Found(c).0 + Change(Found(c).1, path)) == None
  {
    hide Common, Kept;
    var (base, old_) := Found(c);
    ReplaySplit(Some([]), base, Change(old_, path));
    if Replay(Some([]), base) == None {
      ReplayNothing(Change(old_, path));
    } else {
      assert Change(old_, path)[0] == Opens(path[..1]) && path[..1][..0] == [];
      ReplayNothing(Change(old_, path)[1..]);
    }
  }

  lemma {:induction false} LinesKeep(c: Config, place: Place, lines: seq<Line>, layers: nat)
    requires WellNested(c, place) && HeadersOk(lines)
    ensures var last := FeedAll(c, lines, layers);
      if Stranded(place, lines, layers) then Broken(last) else WellNested(last, PlaceAfter(place, lines, layers))
    decreases |lines|
  {
    hide WellNested, Broken, Feed, NextPlace, IsKept;
    if lines != [] {
      var next := Feed(c, lines[0], layers);
      FeedKeeps(c, place, lines[0], layers);
      if IsNestedLeft(place) && IsKept(place, lines[0], layers) {
        BrokenLines(next, lines[1..], layers);
      } else {
        LinesKeep(next, NextPlace(place, lines[0], layers), lines[1..], layers);
      }
    }
  }

  lemma {:induction false} BrokenLines(c: Config, lines: seq<Line>, layers: nat)
    requires Broken(c) && HeadersOk(lines)
    ensures Broken(FeedAll(c, lines, layers))
    decreases |lines|
  {
    hide Broken, Feed;
    if lines != [] {
      BrokenStays(c, lines[0], layers);
      BrokenLines(Feed(c, lines[0], layers), lines[1..], layers);
    }
  }

  /** Every event of a file is in place and nothing is open at the end, exactly when each [default] header behind a
      section of several segments is followed by another header before the next entry and before the end. */
  lemma {:induction false} EventsWellNested(lines: seq<Line>, layers: nat)
    requires HeadersOk(lines)
    ensures Replay(Some([]), Events(lines, layers)) == Some([]) <==>
      !Stranded(Outside, lines, layers) && !IsNestedLeft(PlaceAfter(Outside, lines, layers))
  {
    hide FeedAll, Stranded, PlaceAfter;
    var c := FeedAll(START_CONFIG, lines, layers);
    LinesKeep(START_CONFIG, Outside, lines, layers);
    var p := OpenPath(c.current);
    ReplaySplit(Some([]), c.output, Closing(p, 0));
    assert Closing([], 0) == [] && c.output + [] == c.output;
    if Stranded(Outside, lines, layers) {
      if c.current.Some? { ReplayNothing(Closing(p, 0)); }
      if EndsClosed(c.output) { ReplayBeforeLast(c.output); }
    } else {
      ReplayClosing(p, 0);
      assert p[..0] == [];
    }
  }

  /** In a file without [default] headers that is always so. */
  lemma {:induction false} NoDefaultNoStrand(place: Place, lines: seq<Line>, layers: nat)
    requires !place.Left? && forall i | 0 <= i < |lines| :: !lines[i].DefaultHeader?
    ensures !Stranded(place, lines, layers) && !PlaceAfter(place, lines, layers).Left?
    decreases |lines|
  {
    if lines != [] { NoDefaultNoStrand(NextPlace(place, lines[0], layers), lines[1..], layers); }
  }

  /** For example [a.b] and [default] leave the section a open. */
  lemma DefaultLeavesOpen(layers: nat)
    ensures Replay(Some([]), Events([Header(["a", "b"]), DefaultHeader], layers)) != Some([])
  {
    hide Events;
    var lines := [Header(["a", "b"]), DefaultHeader];
    EventsWellNested(lines, layers);
    assert lines[1..] == [DefaultHeader] && [DefaultHeader][1..] == [];
    assert PlaceAfter(In(["a", "b"]), [DefaultHeader], layers) == Left(["a", "b"]);
  }

  /** After a header exactly the prefixes of its path are open, if and only if no entry was stranded before. */
  lemma {:induction false} OpenAfterHeader(lines: seq<Line>, path: Path, layers: nat)
    requires HeadersOk(lines) && path != []
    ensures var c := Feed(FeedAll(START_CONFIG, lines, layers), Header(path), layers);
      Replay(Some([]), c.output) == Some(path) <==> !Stranded(Outside, lines, layers)
  {
    hide FeedAll, Stranded, PlaceAfter, Change;
    var c := FeedAll(START_CONFIG, lines, layers);
    LinesKeep(START_CONFIG, Outside, lines, layers);
    if Stranded(Outside, lines, layers) {
      BrokenHeader(c, path);
    } else {
      HeaderOpens(c, PlaceAfter(Outside, lines, layers), path);
    }
  }

  // ---- no shorter way ----

  lemma {:induction false} StepsToPath(q: Path, events: seq<ConfigItem>, r: Path)
    requires Replay(Some(q), events) == Some(r)
    ensures |events| >= |q| + |r| - 2 * Common(q, r)
    decreases |events|
  {
    if events == [] {
      CommonIs(q, q, |q|);
    } else {
      var next := Replay1(Some(q), events[0]);
      if next.None? { ReplayNothing(events[1..]); }
      var q1 := next.value;
      StepsToPath(q1, events[1..], r);
      OneStepCommon(q, events[0], q1, r);
    }
  }

  lemma {:induction false} ReplayNothing(events: seq<ConfigItem>)
    ensures Replay(None, events) == None
    decreases |events|
  {
    if events != [] { ReplayNothing(events[1..]); }
  }

  /** One event moves a path by at most one segment towards another. */
  lemma OneStepCommon(q: Path, e: ConfigItem, q1: Path, r: Path)
    requires Replay1(Some(q), e) == Some(q1)
    ensures |q| - 2 * Common(q, r) <= 1 + |q1| - 2 * Common(q1, r)
  {
    hide Common;
    var c1 := Common(q1, r);
    CommonAgrees(q1, r);
    if e.Opens? {
      assert forall i | 0 <= i < |q| :: q[i] == q1[..|q1| - 1][i] == q1[i];
      CommonAtLeast(q, r, if c1 <= |q| then c1 else |q|);
    } else if e.Closes? {
      assert forall i | 0 <= i < |q1| :: q1[i] == q[i];
      CommonAtLeast(q, r, c1);
    }
  }

  lemma CommonAgrees(a: Path, b: Path)
    ensures forall i | 0 <= i < Common(a, b) :: a[i] == b[i]
  {
    var n := Common(a, b);
    assert forall i | 0 <= i < n :: a[i] == a[..n][i] == b[..n][i] == b[i];
  }

  lemma {:induction false} CommonAtLeast(a: Path, b: Path, n: nat)
    requires n <= |a| && n <= |b| && forall i | 0 <= i < n :: a[i] == b[i]
    ensures Common(a, b) >= n
  {
    if n > 0 { CommonAtLeast(a[1..], b[1..], n - 1); }
  }

  /** No shorter list of events leads from the old section to the new one with the new section
      opened last: nothing is closed and opened again without need. */
  lemma {:induction false} ChangeIsShortest(old_: Path, new_: Path, events: seq<ConfigItem>)
    requires old_ != [] && new_ != []
    requires events != [] && events[|events| - 1] == Opens(new_)
    requires Replay(Some(old_), events) == Some(new_)
    ensures |events| >= |Change(Some(old_), new_)|
  {
    hide Common;
    var front := events[..|events| - 1];
    assert events == front + [Opens(new_)];
    ReplaySplit(Some(old_), front, [Opens(new_)]);
    var mid := Replay(Some(old_), front);
    assert [Opens(new_)][1..] == [];
    var r := new_[..|new_| - 1];
    assert mid == Some(r);
    StepsToPath(old_, front, r);
    var k := Kept(old_, new_);
    KeptIsCommon(old_, new_);
    ClosingLength(old_, k);
    OpeningLength(new_, k);
  }

  lemma KeptIsCommon(q: Path, p: Path)
    requires p != []
    ensures Common(q, p[..|p| - 1]) == Kept(q, p)
  {
    hide Common;
    var k := Kept(q, p);
    var r := p[..|p| - 1];
    assert r[..k] == p[..k];
    CommonIs(q, r, k);
  }

  lemma {:induction false} ClosingLength(p: Path, down: nat)
    requires down <= |p|
    ensures |Closing(p, down)| == |p| - down
    decreases |p|
  {
    if down < |p| { ClosingLength(p[..|p| - 1], down); }
  }

  lemma {:induction false} OpeningLength(p: Path, from: nat)
    requires from <= |p|
    ensures |Opening(p, from)| == |p| - from
    decreases |p| - from
  {
    if from < |p| { OpeningLength(p, from + 1); }
  }

  // ---- the loops ----

  lemma {:induction false} FeedSane(c: Config, line: Line, layers: nat)
    requires Sane(c) && LineOk(line)
    ensures Sane(Feed(c, line, layers))
  {
    hide Change, MoreInputs;
    if line.Header? { ChangeEnds(Found(c).1, line.path); }
  }

  method TakeLine(c: Config, line: Line, layers: nat) returns (next: Config)
    requires Sane(c) && LineOk(line)
    ensures next == Feed(c, line, layers) && Sane(next)
  {
    hide Change;
    FeedSane(c, line, layers);
    var output := c.output;
    match line
    case Header(path) =>
      if c.current.Some? {
        output := output + [Closes(c.current.value)];
      }
      ghost var (base, old_) := Found(c);
      output := CheckParentSegments(output, path, base, old_);
      next := Config(output, Some(path));
    case DefaultHeader =>
      if c.current.Some? {
        output := output + [Closes(c.current.value)];
      }
      next := Config(output, None);
    case Item(extra, name, inputs) =>
      var parents := OpenPath(c.current) + extra;
      if |parents| > layers {
        return c;
      }
      var n := |output|;
      if n > 0 && output[n - 1].Entry? && output[n - 1].parents == parents && output[n - 1].name == name {
        var all := output[n - 1].inputs;
        if |all| > 1 && |inputs| > 1 {
          if !(all[|all| - 1] == "" || inputs[0] == "" || all[|all| - 1] == "%%" || inputs[0] == "%%") {
            all := all + ["%%"];
          }
        }
        output := output[n - 1 := Entry(parents, name, all + inputs)];
      } else {
        output := output + [Entry(parents, name, inputs)];
      }
      next := Config(output, c.current);
  }

  /** The whole file. */
  method FromConfig(lines: seq<Line>, layers: nat) returns (output: seq<ConfigItem>)
    requires HeadersOk(lines)
    ensures output == Events(lines, layers)
  {
    hide Feed;
    var c := START_CONFIG;
    for i := 0 to |lines|
      invariant Sane(c) && FeedAll(c, lines[i..], layers) == FeedAll(START_CONFIG, lines, layers)
    {
      assert lines[i..][1..] == lines[i + 1..];
      c := TakeLine(c, lines[i], layers);
    }
    output := c.output;
    if c.current.Some? {
      var p := c.current.value;
      OneClosed(p);
      output := output + [Closes(p)];
      output := CloseDownTo(output, 1, c.output, p, |p| - 1);
    } else {
      assert output + [] == output;
    }
  }
}
