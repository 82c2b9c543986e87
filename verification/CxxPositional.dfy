/** What becomes of the arguments of a command line without options: none is lost, and
    each slot of the positional list gets what it can hold. */
module CxxPositional {
  import opened CxxSpec

  function Values(entries: seq<Entry>): (r: seq<string>)
    ensures |r| == |entries| && forall i | 0 <= i < |r| :: r[i] == entries[i].value
  {
    seq(|entries|, i requires 0 <= i < |entries| => entries[i].value)
  }

  /** The arguments in a log: the values of the options, then those that nobody took. */
  function Arguments(log: Log): seq<string> { Values(log.entries) + log.unmatched }

  /** Where the first "--" is, or the end. */
  function MarkerAt(args: seq<string>): (n: nat)
    ensures n <= |args| && (n < |args| ==> args[n] == "--") && forall i | 0 <= i < n :: args[i] != "--"
  {
    if args == [] || args[0] == "--" then 0 else 1 + MarkerAt(args[1..])
  }

  function WithoutMarker(args: seq<string>): seq<string> {
    var n := MarkerAt(args);
    args[..n] + if n < |args| then args[n + 1..] else []
  }

  /** Nothing that is looked at as an option looks like one. */
  predicate NoOptions(args: seq<string>) {
    var n := MarkerAt(args);
    forall i | 0 <= i < n :: ParseArgument(args[i]).Unmatched?
  }

  ghost predicate IsSlot(t: Table, slot: nat, id: nat) {
    slot < |t.positional| && t.positional[slot] in t.options && t.options[t.positional[slot]] == id
  }

  ghost predicate IsContainer(t: Table, id: nat) { id < |t.details| && t.details[id].isContainer }

  ghost predicate OnceEach(t: Table, entries: seq<Entry>) {
    forall id | 0 <= id < |t.details| && !t.details[id].isContainer :: CountOf(entries, id) <= 1
  }

  /** After a value of a container come only values of that container. */
  ghost predicate ContainersKeepOn(t: Table, entries: seq<Entry>) {
    forall i, j | 0 <= i < j < |entries| && IsContainer(t, entries[i].id) :: entries[j].id == entries[i].id
  }

  /** The first n slots are known single-valued options that have their value. */
  ghost predicate SlotsFull(t: Table, entries: seq<Entry>, n: nat) {
    forall k | 0 <= k < n && k < |t.positional| ::
      && t.positional[k] in t.options
      && !IsContainer(t, t.options[t.positional[k]])
      && CountOf(entries, t.options[t.positional[k]]) == 1
  }

  /** Each value went to the slot listed for it: later values to later slots or to the same container,
      and a slot was only passed over when the values before had filled it. */
  ghost predicate FillsInOrder(t: Table, entries: seq<Entry>, slots: seq<nat>) {
    && |slots| == |entries|
    && (forall i | 0 <= i < |slots| :: IsSlot(t, slots[i], entries[i].id) && SlotsFull(t, entries[..i], slots[i]))
    && forall i, j | 0 <= i < j < |slots| ::
      slots[i] < slots[j] || (slots[i] == slots[j] && IsContainer(t, entries[i].id))
  }

  ghost predicate SlotsUpTo(t: Table, entries: seq<Entry>, slots: seq<nat>, next: nat)
    requires |slots| == |entries|
  {
    forall i | 0 <= i < |slots| :: slots[i] < next || (slots[i] == next && IsContainer(t, entries[i].id))
  }

  ghost predicate FilledUpTo(t: Table, entries: seq<Entry>, next: nat) {
    exists slots :: FillsInOrder(t, entries, slots) && SlotsUpTo(t, entries, slots, next)
  }

  /** How things are between two positional arguments. */
  ghost predicate Tidy(t: Table, log: Log) {
    && (forall e | e in log.entries :: e.id < |t.details|)
    && OnceEach(t, log.entries)
    && ContainersKeepOn(t, log.entries)
    && SlotsFull(t, log.entries, log.next)
    && FilledUpTo(t, log.entries, log.next)
    && (forall e | e in log.entries && IsContainer(t, e.id) :: IsSlot(t, log.next, e.id))
    && (log.unmatched != [] ==> log.next >= |t.positional|)
  }

  lemma {:induction false} OneMoreSlot(t: Table, entries: seq<Entry>, slot: nat, id: nat, a: string)
    requires FilledUpTo(t, entries, slot) && SlotsFull(t, entries, slot) && IsSlot(t, slot, id)
    ensures FilledUpTo(t, entries + [Entry(id, a)], if IsContainer(t, id) then slot else slot + 1)
  {
    var slots :| FillsInOrder(t, entries, slots) && SlotsUpTo(t, entries, slots, slot);
    hide IsSlot, FillsInOrder, SlotsFull, IsContainer, SlotsUpTo;
    SlotAdded(t, entries, slots, slot, id, a);
    OneMoreUpTo(t, entries, slots, slot, id, a);
    assert FillsInOrder(t, entries + [Entry(id, a)], slots + [slot]);
  }

  lemma OneMoreUpTo(t: Table, entries: seq<Entry>, slots: seq<nat>, slot: nat, id: nat, a: string)
    requires |slots| == |entries| && SlotsUpTo(t, entries, slots, slot)
    ensures SlotsUpTo(t, entries + [Entry(id, a)], slots + [slot], if IsContainer(t, id) then slot else slot + 1)
  {
    hide IsContainer;
    var more, next := entries + [Entry(id, a)], slots + [slot];
    forall i | 0 <= i < |slots| ensures more[i] == entries[i] && next[i] == slots[i] { }
  }

  lemma {:induction false} SlotAdded(t: Table, entries: seq<Entry>, slots: seq<nat>, slot: nat, id: nat, a: string)
    requires FillsInOrder(t, entries, slots) && SlotsFull(t, entries, slot) && IsSlot(t, slot, id)
    requires SlotsUpTo(t, entries, slots, slot)
    ensures FillsInOrder(t, entries + [Entry(id, a)], slots + [slot]) && |slots| == |entries|
  {
    hide IsSlot, SlotsFull, IsContainer;
    var more, next := entries + [Entry(id, a)], slots + [slot];
    forall i | 0 <= i < |next| ensures IsSlot(t, next[i], more[i].id) && SlotsFull(t, more[..i], next[i]) {
      if i < |entries| {
        assert more[..i] == entries[..i];
      } else {
        assert more[..i] == entries;
      }
    }
  }

  lemma {:induction false} SlotPassed(t: Table, entries: seq<Entry>, slot: nat, id: nat)
    requires FilledUpTo(t, entries, slot) && IsSlot(t, slot, id) && !IsContainer(t, id)
    ensures FilledUpTo(t, entries, slot + 1)
  {
    hide SlotsFull;
    var slots :| FillsInOrder(t, entries, slots) && SlotsUpTo(t, entries, slots, slot);
    assert SlotsUpTo(t, entries, slots, slot + 1);
  }

  /** A value for the slot at hand. */
  lemma {:induction false} SlotTakes(t: Table, log: Log, id: nat, a: string, next: nat)
    requires TableOk(t) && Tidy(t, log) && IsSlot(t, log.next, id) && id < |t.details|
    requires next == if t.details[id].isContainer then log.next else log.next + 1
    requires !t.details[id].isContainer ==> CountOf(log.entries, id) == 0
    ensures log.unmatched == [] && Tidy(t, Log(log.entries + [Entry(id, a)], [], next))
  {
    hide TableOk, CountOf, FilledUpTo;
    OneMoreSlot(t, log.entries, log.next, id, a);
    var more := log.entries + [Entry(id, a)];
    CountOfMore(log.entries, Entry(id, a));
    forall i, j | 0 <= i < j < |more| && IsContainer(t, more[i].id) ensures more[j].id == more[i].id {
      assert more[i] == log.entries[i] && more[i] in log.entries;
    }
    forall e | e in more && IsContainer(t, e.id) ensures IsSlot(t, next, e.id) {
      assert e in log.entries || e == Entry(id, a);
    }
  }

  /** A slot that has its value is passed over. */
  lemma {:induction false} SlotHasValue(t: Table, log: Log, id: nat)
    requires Tidy(t, log) && IsSlot(t, log.next, id) && id < |t.details| && !t.details[id].isContainer
    requires CountOf(log.entries, id) != 0
    ensures Tidy(t, log.(next := log.next + 1))
  {
    hide FilledUpTo, ContainersKeepOn;
    SlotPassed(t, log.entries, log.next, id);
  }

  lemma {:induction false} PositionalTidy(t: Table, log: Log, a: string)
    requires TableOk(t) && Tidy(t, log)
    ensures var r := TakePositional(t, log, a); r.Ok? ==>
      && Tidy(t, r.value.1)
      && r.value.1.unmatched == log.unmatched
      && (if r.value.0 then log.unmatched == [] && exists id :: r.value.1.entries == log.entries + [Entry(id, a)]
          else r.value.1.entries == log.entries && r.value.1.next >= |t.positional|)
    decreases |t.positional| - log.next
  {
    hide Tidy, CountOf;
    if log.next < |t.positional| && t.positional[log.next] in t.options {
      var id := t.options[t.positional[log.next]];
      assert id < |t.details|;
      if t.details[id].isContainer {
        SlotTakes(t, log, id, a, log.next);
      } else if CountOf(log.entries, id) == 0 {
        SlotTakes(t, log, id, a, log.next + 1);
      } else {
        SlotHasValue(t, log, id);
        PositionalTidy(t, log.(next := log.next + 1), a);
      }
    }
  }

  /** One argument that is taken or left joins the arguments of the log. */
  lemma {:induction false} TakenOrLeft(t: Table, log: Log, a: string)
    requires TableOk(t) && Tidy(t, log)
    ensures var r := TakeOrLeave(t, log, a); r.Ok? ==> Tidy(t, r.value) && Arguments(r.value) == Arguments(log) + [a]
  {
    hide TableOk, TakePositional, OnceEach, ContainersKeepOn, SlotsFull, FilledUpTo;
    PositionalTidy(t, log, a);
    var taken := TakePositional(t, log, a);
    if taken.Ok? && taken.value.0 {
      var id :| taken.value.1.entries == log.entries + [Entry(id, a)];
      assert Values(log.entries + [Entry(id, a)]) == Values(log.entries) + [a];
    }
  }

  lemma {:induction false} AllTidy(t: Table, log: Log, argv: seq<string>, current: nat, marker: nat)
    requires TableOk(t) && Tidy(t, log) && current <= marker <= |argv|
    requires forall i | current <= i < marker :: argv[i] != "--" && ParseArgument(argv[i]).Unmatched?
    requires marker < |argv| ==> argv[marker] == "--"
    ensures var r := TakeAll(t, log, argv, current); r.Ok? ==>
      && Tidy(t, r.value.0)
      && r.value.1 == (if marker < |argv| then marker + 1 else marker)
      && Arguments(r.value.0) == Arguments(log) + argv[current..marker]
    decreases marker - current
  {
    hide TableOk, Tidy, TakeOrLeave, ParseArgument;
    if current < marker {
      TakenOrLeft(t, log, argv[current]);
      var r := TakeOne(t, log, argv, current);
      if r.Ok? {
        AllTidy(t, r.value.0, argv, current + 1, marker);
        assert argv[current..marker] == [argv[current]] + argv[current + 1..marker];
      }
    }
  }

  lemma {:induction false} RestTidy(t: Table, log: Log, rest: seq<string>)
    requires TableOk(t) && Tidy(t, log)
    ensures var r := TakeRest(t, log, rest); r.Ok? ==> Tidy(t, r.value) && Arguments(r.value) == Arguments(log) + rest
    decreases |rest|
  {
    hide TableOk, TakePositional, OnceEach, ContainersKeepOn, SlotsFull, FilledUpTo;
    if rest != [] {
      PositionalTidy(t, log, rest[0]);
      var taken := TakePositional(t, log, rest[0]);
      if taken.Ok? && taken.value.0 {
        var id :| taken.value.1.entries == log.entries + [Entry(id, rest[0])];
        assert Values(log.entries + [Entry(id, rest[0])]) == Values(log.entries) + [rest[0]];
        RestTidy(t, taken.value.1, rest[1..]);
      }
    }
  }

  /** Of a command line without options no argument is lost or moved: the values in the log and then
      the unmatched arguments are the arguments without the first "--". */
  lemma {:induction false} PositionalsConserved(t: Table, argv: seq<string>)
    requires TableOk(t) && |argv| > 0 && NoOptions(argv[1..]) && ParseLog(t, argv).Ok?
    ensures var log := ParseLog(t, argv).value;
      && Arguments(log) == WithoutMarker(argv[1..])
      && FilledUpTo(t, log.entries, log.next)
      && OnceEach(t, log.entries)
      && ContainersKeepOn(t, log.entries)
      && (log.unmatched != [] ==> forall e | e in log.entries :: !IsContainer(t, e.id))
      && (log.unmatched != [] ==> SlotsFull(t, log.entries, |t.positional|))
  {
    hide TableOk, TakeAll, TakeRest, DefaultsOk, ParseArgument, Tidy, Arguments;
    var args := argv[1..];
    var marker := 1 + MarkerAt(args);
    forall i | 1 <= i < marker ensures argv[i] != "--" && ParseArgument(argv[i]).Unmatched? {
      assert argv[i] == args[i - 1];
    }
    NothingTidy(t);
    AllTidy(t, NO_LOG, argv, 1, marker);
    var all := TakeAll(t, NO_LOG, argv, 1).value;
    AllStays(t, NO_LOG, argv, 1);
    RestTidy(t, all.0, argv[all.1..]);
    assert argv[1..marker] == args[..marker - 1];
    assert argv[all.1..] == if marker < |argv| then args[marker..] else [];
    TidyMeans(t, ParseLog(t, argv).value);
  }

  lemma TidyMeans(t: Table, log: Log)
    requires Tidy(t, log)
    ensures FilledUpTo(t, log.entries, log.next) && OnceEach(t, log.entries) && ContainersKeepOn(t, log.entries)
    ensures log.unmatched != [] ==>
      SlotsFull(t, log.entries, |t.positional|) && forall e | e in log.entries :: !IsContainer(t, e.id)
  {
    hide FilledUpTo, OnceEach, ContainersKeepOn, IsContainer;
  }

  lemma NothingTidy(t: Table)
    ensures Tidy(t, NO_LOG) && Arguments(NO_LOG) == []
  {
    assert FillsInOrder(t, [], []);
  }
}
