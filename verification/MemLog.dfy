/** simple-capture/memlog.c: an in-memory event log that wraps, and its dump. */
module MemLog {
  import opened Arith
  import Ring
  import opened TimeTools

  const MEMLOG_MAX := 250000
  const MEMLOG_E_NONE := 0
  const MEMLOG_E_ADATA_24 := 0xf0
  const WORD := 0x1_0000_0000

  datatype Entry = Entry(eventId: nat, time: Stamp)

  const EMPTY := Entry(MEMLOG_E_NONE, Stamp(0, 0))

  // ----- Packing an event and 24 bits of data into one word

  function Id(word: nat): nat {
    word % 256
  }

  function Data24(word: nat): nat {
    word / 256
  }

  function Encode24(event: nat, data: nat): nat {
    (event + data * 256) % WORD
  }

  /** Packing loses nothing exactly when the event fits its byte; the source only checks
      that it is not too small. */
  lemma EncodeRoundTrip(event: nat, data: nat)
    requires data < 0x100_0000
    ensures Id(Encode24(event, data)) == event && Data24(Encode24(event, data)) == data <==> event < 256
  {
    if event < 256 {
      assert event + data * 256 < WORD;
    }
  }

  // ----- The log

  predicate Recorded(e: Entry) {
    Id(e.eventId) > MEMLOG_E_NONE
  }

  /** A log of max slots holding the newest entries of a history, at their position modulo
      max; slots never written are empty. */
  ghost predicate Holds(log: seq<Entry>, history: seq<Entry>) {
    && Ring.Shows(log, history)
    && forall i :: |history| <= i < |log| ==> log[i] == EMPTY
  }

  class Memlog {
    var index: nat
    const log: array<Entry>
    ghost var history: seq<Entry>

    ghost predicate Valid()
      reads this, log
    {
      && log.Length == MEMLOG_MAX
      && index == |history| % MEMLOG_MAX
      && Holds(log[..], history)
    }

    constructor ()
      ensures Valid() && fresh(log) && log.Length == 250_000 && history == []
    {
      index := 0;
      log := new Entry[MEMLOG_MAX](i => EMPTY);
      history := [];
    }

    method Append(e: Entry)
      requires Valid()
      modifies this, log
      ensures Valid() && history == old(history) + [e]
    {
      HoldsStep(log[..], history, e);
      log[index] := e;
      Ring.WrapIndex(|history|, MEMLOG_MAX);
      history := history + [e];
      index := index + 1;
      if index >= MEMLOG_MAX {
        index := 0;
      }
    }

    method Log(event: nat, now: Stamp)
      requires Valid()
      modifies this, log
      ensures Valid() && history == old(history) + [Entry(event, now)]
    {
      Append(Entry(event, now));
    }

    /** The two requires are assertions of the source. */
    method Log24(event: nat, data: nat, now: Stamp)
      requires Valid() && data < 0x100_0000 && event >= MEMLOG_E_ADATA_24
      modifies this, log
      ensures Valid() && history == old(history) + [Entry(Encode24(event, data), now)]
    {
      Append(Entry(Encode24(event, data), now));
    }

    /** One line for each recorded slot, in slot order. */
    method Dump() returns (lines: seq<Line>)
      requires Valid()
      ensures lines == Dumped(log[..], 0, log[0].time)
    {
      lines := [];
      var tPrev := log[0].time;
      for i := 0 to MEMLOG_MAX
        invariant lines + Dumped(log[..], i, tPrev) == Dumped(log[..], 0, log[0].time)
      {
        if Recorded(log[i]) {
          var t := log[i].time;
          var diff := new Timespec(Stamp(0, 0));
          var x := new Timespec(t);
          var y := new Timespec(tPrev);
          var notIncreasing := TimespecSubtract(diff, x, y);
          var event := log[i].eventId;
          var tail := if Id(event) >= MEMLOG_E_ADATA_24 then Data(Data24(event)) else Mark(notIncreasing);
          lines := lines + [Line(i, t, Id(event), diff.Value(), notIncreasing, tail)];
          tPrev := t;
        }
      }
    }
  }

  lemma HoldsStep(log: seq<Entry>, history: seq<Entry>, e: Entry)
    requires Holds(log, history)
    ensures Holds(log[|history| % |log| := e], history + [e])
  {
    Ring.ShowsStep(log, history, e);
    if |history| < |log| {
      DivModUnique(|history|, |log|, 0, |history|);
    }
  }

  // ----- The dump

  /** A line ends with the event's data, or with the order mark for events without any. */
  datatype Tail = Data(data: nat) | Mark(notInOrder: bool)

  datatype Line = Line(slot: nat, time: Stamp, event: nat, diff: Stamp, notIncreasing: bool, tail: Tail)

  function LineOf(slot: nat, e: Entry, tPrev: Stamp): Line {
    var notIncreasing := Negative(e.time, tPrev);
    Line(slot, e.time, Id(e.eventId), Difference(e.time, tPrev), notIncreasing,
         if Id(e.eventId) >= MEMLOG_E_ADATA_24 then Data(Data24(e.eventId)) else Mark(notIncreasing))
  }

  function Dumped(log: seq<Entry>, i: nat, tPrev: Stamp): seq<Line>
    requires i <= |log|
    decreases |log| - i
  {
    if i == |log| then []
    else if Recorded(log[i]) then [LineOf(i, log[i], tPrev)] + Dumped(log, i + 1, log[i].time)
    else Dumped(log, i + 1, tPrev)
  }

  /** What a nondecreasing clock and clock_gettime guarantee about the history. */
  ghost predicate Clocked(history: seq<Entry>) {
    && (forall k :: 0 <= k < |history| ==> Normal(history[k].time))
    && forall j, k :: 0 <= j <= k < |history| ==> TotalNs(history[j].time) <= TotalNs(history[k].time)
  }

  /** The history position a slot shows: the newest lap before the write index, the lap
      before from there on. */
  function Position(n: nat, max: nat, slot: nat): int
    requires max >= 1
  {
    if slot < n % max then n - n % max + slot else n - n % max - max + slot
  }

  lemma SlotPosition(log: seq<Entry>, history: seq<Entry>, slot: nat)
    requires Holds(log, history) && slot < |log|
    ensures var k := Position(|history|, |log|, slot);
            if k >= 0 then k < |history| && log[slot] == history[k] else log[slot] == EMPTY
  {
    var n, max := |history|, |log|;
    var q, r := DivMod(n, max);
    var k := Position(n, max, slot);
    if slot < r {
      assert k == q * max + slot;
      DivModUnique(k, max, q, slot);
    } else {
      assert k == (q - 1) * max + slot;
      if q >= 1 {
        MultiplesOrdered(0, q - 1, max);
        DivModUnique(k, max, q - 1, slot);
      }
    }
  }

  /** Read from the write index round, a wrapped log is the last max events in order. */
  lemma RotationIsHistory(log: seq<Entry>, history: seq<Entry>)
    requires Holds(log, history) && |history| >= |log|
    ensures var i := |history| % |log|;
            log[i..] + log[..i] == history[|history| - |log|..]
  {
    var n, max := |history|, |log|;
    var i := n % max;
    forall j | 0 <= j < max ensures (log[i..] + log[..i])[j] == history[n - max..][j] {
      SlotPosition(log, history, if j < max - i then i + j else i + j - max);
    }
  }

  /** Slots on one side of the write index show the history in slot order. */
  lemma SideInOrder(log: seq<Entry>, history: seq<Entry>, p: nat, i: nat)
    requires Holds(log, history) && Clocked(history)
    requires p <= i < |log| && (i < |history| % |log| || |history| % |log| <= p)
    requires |history| >= 1 && log[i] != EMPTY
    requires p == 0 || log[p] != EMPTY
    ensures !Negative(log[i].time, log[p].time)
  {
    var k, l := SidePositions(log, history, p, i);
    assert TotalNs(history[k].time) <= TotalNs(history[l].time);
    NormalSubtract(log[i].time, log[p].time);
  }

  lemma SideArithmetic(n: nat, max: nat, p: nat, i: nat)
    requires max >= 1 && p <= i < max && (i < n % max || n % max <= p)
    ensures Position(n, max, p) <= Position(n, max, i)
    ensures n >= 1 ==> Position(n, max, 0) >= 0
  {
    var q, r := DivMod(n, max);
    if r == 0 && n >= 1 {
      MultiplesOrdered(q, 0, max);
      MultiplesOrdered(1, q, max);
    }
    MultiplesOrdered(0, q, max);
  }

  lemma SidePositions(log: seq<Entry>, history: seq<Entry>, p: nat, i: nat) returns (k: nat, l: nat)
    requires Holds(log, history) && |history| >= 1
    requires p <= i < |log| && (i < |history| % |log| || |history| % |log| <= p)
    requires log[i] != EMPTY && (p == 0 || log[p] != EMPTY)
    ensures k <= l < |history| && log[p] == history[k] && log[i] == history[l]
  {
    var n, max := |history|, |log|;
    SideArithmetic(n, max, p, i);
    var pos := Position(n, max, p);
    SlotPosition(log, history, p);
    SlotPosition(log, history, i);
    assert pos >= 0;
    k, l := pos, Position(n, max, i);
  }

  /** The slot a flag may fall on: the first recorded one at or after the write index. */
  ghost predicate FirstOldRecorded(log: seq<Entry>, index: nat, slot: nat) {
    && index <= slot < |log|
    && Recorded(log[slot])
    && forall q :: index <= q < slot ==> !Recorded(log[q])
  }

  /** p is the slot whose time the dump compares slot i with. */
  ghost predicate Precedes(log: seq<Entry>, p: nat, i: nat) {
    && p < |log| && i <= |log|
    && (p == 0 || (p < i && Recorded(log[p])))
    && forall q :: p < q < i ==> !Recorded(log[q])
  }

  /** Each line is a recorded slot compared with the one before it. */
  lemma {:induction false} LineAt(log: seq<Entry>, i: nat, p: nat, k: nat) returns (slot: nat, before: nat)
    requires Precedes(log, p, i) && k < |Dumped(log, i, log[p].time)|
    ensures slot < |log| && Recorded(log[slot]) && Precedes(log, before, slot)
    ensures Dumped(log, i, log[p].time)[k] == LineOf(slot, log[slot], log[before].time)
    decreases |log| - i
  {
    if !Recorded(log[i]) {
      slot, before := LineAt(log, i + 1, p, k);
    } else if k > 0 {
      slot, before := LineAt(log, i + 1, i, k - 1);
    } else {
      slot, before := i, p;
    }
  }

  /** A flagged slot is the first recorded one at or after the write index of a wrapped log. */
  lemma FlagAt(log: seq<Entry>, history: seq<Entry>, p: nat, i: nat)
    requires Holds(log, history) && Clocked(history) && i < |log| && Recorded(log[i])
    requires Precedes(log, p, i) && Negative(log[i].time, log[p].time)
    ensures |history| >= |log| && 0 < |history| % |log|
    ensures FirstOldRecorded(log, |history| % |log|, i)
  {
    SlotPosition(log, history, i);
    if |history| < |log| {
      DivModUnique(|history|, |log|, 0, |history|);
    }
    if i < |history| % |log| || |history| % |log| <= p {
      SideInOrder(log, history, p, i);
    }
  }

  /** A dump of a log kept under a nondecreasing clock flags at most one slot as out of
      order, and only after a wrap: the first recorded slot at or after the write index. */
  lemma DumpFlagsOnlyTheSeam(log: seq<Entry>, history: seq<Entry>, k: nat)
    requires Holds(log, history) && Clocked(history)
    requires var lines := Dumped(log, 0, log[0].time); k < |lines| && lines[k].notIncreasing
    ensures |history| >= |log| && 0 < |history| % |log|
    ensures FirstOldRecorded(log, |history| % |log|, Dumped(log, 0, log[0].time)[k].slot)
    ensures (forall e :: e in history ==> Recorded(e)) ==>
              Dumped(log, 0, log[0].time)[k].slot == |history| % |log|
  {
    var slot, before := LineAt(log, 0, 0, k);
    FlagAt(log, history, before, slot);
    SlotPosition(log, history, |history| % |log|);
  }

  lemma {:induction false} DumpedInSlotOrder(log: seq<Entry>, i: nat, tPrev: Stamp, j: nat, k: nat)
    requires i <= |log| && j < k < |Dumped(log, i, tPrev)|
    ensures i <= Dumped(log, i, tPrev)[j].slot < Dumped(log, i, tPrev)[k].slot
    decreases |log| - i
  {
    if !Recorded(log[i]) {
      DumpedInSlotOrder(log, i + 1, tPrev, j, k);
    } else if j > 0 {
      DumpedInSlotOrder(log, i + 1, log[i].time, j - 1, k - 1);
    } else {
      DumpedFrom(log, i + 1, log[i].time, k - 1);
    }
  }

  lemma {:induction false} DumpedFrom(log: seq<Entry>, i: nat, tPrev: Stamp, k: nat)
    requires i <= |log| && k < |Dumped(log, i, tPrev)|
    ensures i <= Dumped(log, i, tPrev)[k].slot
    decreases |log| - i
  {
    if !Recorded(log[i]) {
      DumpedFrom(log, i + 1, tPrev, k);
    } else if k > 0 {
      DumpedFrom(log, i + 1, log[i].time, k - 1);
    }
  }

  lemma AtMostOneFlag(log: seq<Entry>, history: seq<Entry>, j: nat, k: nat)
    requires Holds(log, history) && Clocked(history)
    requires var lines := Dumped(log, 0, log[0].time);
             j < |lines| && k < |lines| && lines[j].notIncreasing && lines[k].notIncreasing
    ensures j == k
  {
    DumpFlagsOnlyTheSeam(log, history, j);
    DumpFlagsOnlyTheSeam(log, history, k);
    if j < k {
      DumpedInSlotOrder(log, 0, log[0].time, j, k);
    } else if k < j {
      DumpedInSlotOrder(log, 0, log[0].time, k, j);
    }
  }

  lemma {:induction false} NoMoreLines(log: seq<Entry>, i: nat, tPrev: Stamp)
    requires i <= |log| && forall q :: i <= q < |log| ==> !Recorded(log[q])
    ensures Dumped(log, i, tPrev) == []
    decreases |log| - i
  {
    if i == |log| {
    } else {
      NoMoreLines(log, i + 1, tPrev);
    }
  }

  /** With the first n slots recorded, line k is slot k compared with the slot before. */
  lemma {:induction false} PrefixDump(log: seq<Entry>, n: nat, i: nat, tPrev: Stamp, k: nat)
    requires i <= k < n <= |log| && forall q :: 0 <= q < |log| ==> (Recorded(log[q]) <==> q < n)
    ensures var before := if k == i then tPrev else log[k - 1].time;
            && |Dumped(log, i, tPrev)| == n - i
            && Dumped(log, i, tPrev)[k - i] == LineOf(k, log[k], before)
    decreases |log| - i
  {
    if n == i + 1 {
      NoMoreLines(log, n, log[i].time);
    } else {
      PrefixDump(log, n, i + 1, log[i].time, if k == i then i + 1 else k);
    }
  }

  /** With every slot recorded, line k is slot k compared with the slot before. */
  lemma FullDump(log: seq<Entry>, k: nat)
    requires k < |log| && forall q :: 0 <= q < |log| ==> Recorded(log[q])
    ensures |Dumped(log, 0, log[0].time)| == |log|
    ensures Dumped(log, 0, log[0].time)[k] == LineOf(k, log[k], log[if k == 0 then 0 else k - 1].time)
  {
    PrefixDump(log, |log|, 0, log[0].time, k);
  }

  /** The lines from slot i on: the line of slot i, if it has one, and the lines after it. */
  lemma DumpSplits(log: seq<Entry>, i: nat, tPrev: Stamp)
    requires i < |log|
    ensures Dumped(log, i, tPrev)
         == (if log[i].eventId % 256 != 0 then [LineOf(i, log[i], tPrev)] + Dumped(log, i + 1, log[i].time)
             else Dumped(log, i + 1, tPrev))
  {
  }

  predicate HasLine(lines: seq<Line>, slot: nat) {
    exists k :: 0 <= k < |lines| && lines[k].slot == slot
  }

  lemma HasLineAhead(line: Line, rest: seq<Line>, slot: nat)
    ensures HasLine([line] + rest, slot) <==> line.slot == slot || HasLine(rest, slot)
  {
    if k :| 0 <= k < |rest| && rest[k].slot == slot {
      assert ([line] + rest)[k + 1].slot == slot;
    }
    if line.slot == slot {
      assert ([line] + rest)[0].slot == slot;
    }
  }

  /** The dump leaves out exactly the slots whose event is 0. */
  lemma {:induction false} DumpComplete(log: seq<Entry>, i: nat, tPrev: Stamp, slot: nat)
    requires i <= |log|
    ensures HasLine(Dumped(log, i, tPrev), slot) <==> i <= slot < |log| && log[slot].eventId % 256 != 0
    decreases |log| - i
  {
    if i == |log| {
    } else {
      DumpSplits(log, i, tPrev);
      var next := if log[i].eventId % 256 != 0 then log[i].time else tPrev;
      DumpComplete(log, i + 1, next, slot);
      HasLineAhead(LineOf(i, log[i], tPrev), Dumped(log, i + 1, next), slot);
    }
  }

  /** A log that has not wrapped is dumped event by event: line k shows event k, its data or
      no mark, and the time since event k - 1. */
  lemma UnwrappedDump(log: seq<Entry>, history: seq<Entry>, k: nat)
    requires Holds(log, history) && k < |history| <= |log|
    requires forall e :: e in history ==> e.eventId % 256 > 0
    ensures |Dumped(log, 0, log[0].time)| == |history|
    ensures var line := Dumped(log, 0, log[0].time)[k];
            var word := history[k].eventId;
            && line.slot == k && line.time == history[k].time && line.event == word % 256
            && TotalNs(line.diff) == TotalNs(history[k].time) - TotalNs(history[if k == 0 then 0 else k - 1].time)
            && (Clocked(history) ==>
                  && Normal(line.diff) && !line.notIncreasing
                  && line.tail == if word % 256 >= 0xf0 then Data(word / 256) else Mark(false))
  {
    var n := |history|;
    forall q | 0 <= q < |log| ensures if q < n then log[q] == history[q] else log[q] == EMPTY {
      if q < n {
        DivModUnique(q, |log|, 0, q);
      }
    }
    PrefixDump(log, n, 0, log[0].time, k);
    var before := if k == 0 then 0 else k - 1;
    SubtractExact(log[k].time, log[before].time);
    if Clocked(history) {
      NormalSubtract(log[k].time, log[before].time);
    }
  }

  /** In a wrapped log of recorded events line k shows slot k, and the time since the slot
      before it. */
  lemma WrappedDump(log: seq<Entry>, history: seq<Entry>, k: nat)
    requires Holds(log, history) && |history| >= |log| && k < |log|
    requires forall e :: e in history ==> e.eventId % 256 > 0
    ensures |Dumped(log, 0, log[0].time)| == |log|
    ensures var line := Dumped(log, 0, log[0].time)[k];
            var before := log[if k == 0 then 0 else k - 1];
            && line.slot == k && line.time == log[k].time && line.event == log[k].eventId % 256
            && TotalNs(line.diff) == TotalNs(log[k].time) - TotalNs(before.time)
  {
    WrappedIsRecorded(log, history);
    FullDump(log, k);
    SubtractExact(log[k].time, log[if k == 0 then 0 else k - 1].time);
  }

  lemma WrappedIsRecorded(log: seq<Entry>, history: seq<Entry>)
    requires Holds(log, history) && |history| >= |log|
    requires forall e :: e in history ==> Recorded(e)
    ensures forall q :: 0 <= q < |log| ==> Recorded(log[q])
  {
    forall q | 0 <= q < |log| ensures Recorded(log[q]) {
      SlotPosition(log, history, q);
    }
  }

  lemma AdjacentSlots(log: seq<Entry>, history: seq<Entry>, k: nat)
    requires Holds(log, history) && Clocked(history) && |history| >= |log| && 1 <= k < |log|
    requires Recorded(log[k]) && Recorded(log[k - 1])
    ensures Negative(log[k].time, log[k - 1].time) <==>
              k == |history| % |log| && TotalNs(history[|history| - |log|].time) < TotalNs(history[|history| - 1].time)
  {
    if k == |history| % |log| {
      SlotPosition(log, history, k);
      SlotPosition(log, history, k - 1);
      NormalSubtract(log[k].time, log[k - 1].time);
    } else {
      SideInOrder(log, history, k - 1, k);
    }
  }

  /** With every slot recorded, line k is flagged when slot k is earlier than the slot before. */
  lemma LineFlag(log: seq<Entry>, k: nat)
    requires k < |log| && forall q :: 0 <= q < |log| ==> Recorded(log[q])
    ensures |Dumped(log, 0, log[0].time)| == |log|
    ensures Dumped(log, 0, log[0].time)[k].notIncreasing <==> k > 0 && Negative(log[k].time, log[k - 1].time)
  {
    FullDump(log, k);
  }

  /** A wrapped log of recorded events flags slot k exactly when it is the write index, not
      slot 0, and the oldest kept event is strictly older than the newest. */
  lemma SeamFlagExact(log: seq<Entry>, history: seq<Entry>, k: nat)
    requires Holds(log, history) && Clocked(history) && |history| >= |log| && k < |log|
    requires forall e :: e in history ==> Recorded(e)
    ensures |Dumped(log, 0, log[0].time)| == |log|
    ensures Dumped(log, 0, log[0].time)[k].notIncreasing <==>
              k == |history| % |log| && k > 0
              && TotalNs(history[|history| - |log|].time) < TotalNs(history[|history| - 1].time)
  {
    WrappedIsRecorded(log, history);
    LineFlag(log, k);
    if k > 0 {
      AdjacentSlots(log, history, k);
    }
  }

  /** The printed mark needs one thing more than the flag: an event that carries no data. A
      wrap over an event with data goes unmarked. */
  lemma SeamMarkExact(log: seq<Entry>, history: seq<Entry>, k: nat)
    requires Holds(log, history) && Clocked(history) && |history| >= |log| && k < |log|
    requires forall e :: e in history ==> Recorded(e)
    ensures var oldest := history[|history| - |log|];
            |Dumped(log, 0, log[0].time)| == |log| &&
            (Dumped(log, 0, log[0].time)[k].tail == Mark(true) <==>
              && k == |history| % |log| && k > 0 && Id(oldest.eventId) < MEMLOG_E_ADATA_24
              && TotalNs(oldest.time) < TotalNs(history[|history| - 1].time))
  {
    WrappedIsRecorded(log, history);
    FullDump(log, k);
    SeamFlagExact(log, history, k);
    SlotPosition(log, history, k);
  }

  /** What was logged with data is printed with it: dumping undoes the packing of an event
      that fits its byte, for every event still in a wrapped log. */
  lemma DumpShowsData(log: seq<Entry>, history: seq<Entry>, k: nat, event: nat, data: nat, now: Stamp)
    requires Holds(log, history) && |history| >= |log| && k < |log|
    requires forall e :: e in history ==> Recorded(e)
    requires MEMLOG_E_ADATA_24 <= event < 256 && data < 0x100_0000
    requires log[k] == Entry(Encode24(event, data), now)
    ensures |Dumped(log, 0, log[0].time)| == |log|
    ensures var line := Dumped(log, 0, log[0].time)[k];
            line.slot == k && line.event == event && line.tail == Data(data) && line.time == now
  {
    WrappedIsRecorded(log, history);
    FullDump(log, k);
    EncodeRoundTrip(event, data);
  }

  /** One event more than the log holds, each with data and a second after the one before. */
  function DataHistory(): (history: seq<Entry>)
    ensures |history| == MEMLOG_MAX + 1
  {
    seq(MEMLOG_MAX + 1, i => Entry(Encode24(MEMLOG_E_ADATA_24, 0), Stamp(i, 0)))
  }

  /** The log after those events: the newest in slot 0, every other slot in the first lap. */
  function DataLog(): (log: seq<Entry>)
    ensures |log| == MEMLOG_MAX
  {
    seq(MEMLOG_MAX, i => Entry(Encode24(MEMLOG_E_ADATA_24, 0), Stamp(if i == 0 then MEMLOG_MAX else i, 0)))
  }

  lemma DataLogHolds()
    ensures Holds(DataLog(), DataHistory()) && Clocked(DataHistory())
    ensures forall e :: e in DataHistory() ==> Recorded(e)
  {
    var log, history := DataLog(), DataHistory();
    forall k | 1 <= k < |history| ensures log[k % MEMLOG_MAX] == history[k] {
      if k < MEMLOG_MAX {
        DivModUnique(k, MEMLOG_MAX, 0, k);
      } else {
        DivModUnique(k, MEMLOG_MAX, 1, 0);
      }
    }
  }

  /** A wrap that goes unmarked: the dump finds slot 1 out of order and prints its data instead. */
  lemma UnmarkedWrapExample()
    ensures Holds(DataLog(), DataHistory()) && Clocked(DataHistory())
    ensures var lines := Dumped(DataLog(), 0, DataLog()[0].time);
            |lines| == MEMLOG_MAX && lines[1].notIncreasing && lines[1].tail == Data(0)
  {
    var log, history := DataLog(), DataHistory();
    DataLogHolds();
    DivModUnique(|history|, MEMLOG_MAX, 1, 1);
    SeamFlagExact(log, history, 1);
    DumpShowsData(log, history, 1, MEMLOG_E_ADATA_24, 0, Stamp(1, 0));
  }
}
