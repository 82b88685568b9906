/** The 10 Hz build of processing.c: synchronise once, then pick frames from a 25 Hz stream
    by skipping alternately three and two. */
module TenHz {
  import Arith
  import TimeTools

  const SYNC_COUNT := 5
  const SYNC_JITTER_NS := 130_000_000

  /** One dequeued frame: its ring slot, its pixel difference to the frame before, its stamp,
      and the stamp found in the slot of the last sync candidate. */
  datatype Input = Input(index: int, changedPixels: int, stamp: TimeTools.Stamp, syncStamp: TimeTools.Stamp)

  datatype Selector = Selector(
    last: int, zeroPixels: int, isStartup: bool, startupCount: int, lastSync: int,
    framesTillSelection: int, isEven: bool)

  const FRESH := Selector(-1, 0, true, 0, -1, 0, false)

  /** Effect of one frame, leaving the inner loop (which clears the count) included. */
  function Step(s: Selector, frame: Input): (Selector, bool) {
    if s.last == -1 then (s.(last := frame.index, framesTillSelection := 0), false)
    else if s.isStartup then (Startup(s, frame), false)
    else Pick(s.(last := frame.index, framesTillSelection := s.framesTillSelection + 1))
  }

  function Startup(s: Selector, frame: Input): Selector {
    var seen := if frame.changedPixels > 0 then 1 else s.zeroPixels;
    var s := s.(last := frame.index);
    if !(seen == 1 && frame.changedPixels == 0) then s.(zeroPixels := seen, framesTillSelection := 0)
    else
      var diff := TimeTools.Difference(frame.stamp, frame.syncStamp);
      var near := s.lastSync != -1 && !TimeTools.Negative(frame.stamp, frame.syncStamp) && diff.sec == 0;
      var count := if !near then s.startupCount else if diff.nsec < SYNC_JITTER_NS then s.startupCount + 1 else 0;
      if near && diff.nsec < SYNC_JITTER_NS && count == SYNC_COUNT then
        s.(zeroPixels := 0, startupCount := count, isStartup := false)
      else
        s.(zeroPixels := 0, startupCount := count, lastSync := frame.index, framesTillSelection := 0)
  }

  function Pick(s: Selector): (Selector, bool) {
    if s.framesTillSelection == (if s.isEven then 2 else 3)
    then (s.(isEven := !s.isEven, framesTillSelection := 0), true)
    else (s, false)
  }

  class Processor {
    var lastBufferIndex: int
    var zeroPixels: int
    var isStartup: bool
    var startupCount: int
    var lastSyncFrame: int
    var framesTillSelection: int
    var isEven: bool

    function Value(): Selector
      reads this
    {
      Selector(lastBufferIndex, zeroPixels, isStartup, startupCount, lastSyncFrame, framesTillSelection, isEven)
    }

    constructor ()
      ensures Value() == FRESH
    {
      lastBufferIndex, lastSyncFrame := -1, -1;
      zeroPixels, startupCount, framesTillSelection := 0, 0, 0;
      isStartup, isEven := true, false;
    }

    /** The inner loop from one dequeue to the next; true when the frame goes to the writer. */
    method ProcessFrame(frame: Input) returns (selected: bool)
      modifies this
      ensures (Value(), selected) == Step(old(Value()), frame)
    {
      selected := false;
      if lastBufferIndex == -1 {
        lastBufferIndex := frame.index;
        framesTillSelection := 0;
        return;
      }
      if isStartup {
        var synced := StartupFrame(frame);
        lastBufferIndex := frame.index;
        if !synced {
          framesTillSelection := 0;
        }
        return;
      }
      framesTillSelection := framesTillSelection + 1;
      if framesTillSelection > 0 {
        if isEven {
          if framesTillSelection == 2 {
            selected := true;
            isEven := false;
          }
        } else {
          if framesTillSelection == 3 {
            selected := true;
            isEven := true;
          }
        }
      }
      lastBufferIndex := frame.index;
      if selected {
        framesTillSelection := 0;
      }
    }

    method StartupFrame(frame: Input) returns (synced: bool)
      requires isStartup
      modifies `zeroPixels, `startupCount, `isStartup, `lastSyncFrame
      ensures Startup(old(Value()), frame) ==
                Value().(last := frame.index, framesTillSelection := if synced then framesTillSelection else 0)
      ensures synced == !isStartup
    {
      if frame.changedPixels > 0 {
        zeroPixels := 1;
      }
      if zeroPixels == 1 && frame.changedPixels == 0 {
        zeroPixels := 0;
        if lastSyncFrame != -1 {
          var timeDiff := new TimeTools.Timespec(TimeTools.Stamp(0, 0));
          var currentStamp := new TimeTools.Timespec(frame.stamp);
          var lastStamp := new TimeTools.Timespec(frame.syncStamp);
          var negative := TimeTools.TimespecSubtract(timeDiff, currentStamp, lastStamp);
          if !negative && timeDiff.tv_sec == 0 {
            if timeDiff.tv_nsec < SYNC_JITTER_NS {
              startupCount := startupCount + 1;
              if startupCount == SYNC_COUNT {
                isStartup := false;
                return true;
              }
            } else {
              startupCount := 0;
            }
          }
        }
        lastSyncFrame := frame.index;
      }
      synced := false;
    }
  }

  // ----- Whole runs

  /** State, frame on which the startup ended (-1 before that), and the frames picked. */
  datatype Trace = Trace(s: Selector, syncFrame: int, picks: seq<int>)

  function Run(frames: seq<Input>): Trace {
    if |frames| == 0 then Trace(FRESH, -1, [])
    else
      var n := |frames| - 1;
      var t := Run(frames[..n]);
      var (s, selected) := Step(t.s, frames[n]);
      Trace(s,
            if t.s.isStartup && !s.isStartup then n else t.syncFrame,
            if selected then t.picks + [n] else t.picks)
  }

  /** The k-th pick after the sync comes 2.5 k frames later, rounded up. */
  function PickDistance(k: nat): int {
    Arith.CeilDiv(5 * k, 2)
  }

  ghost predicate Paced(t: Trace, n: nat) {
    && (forall k :: 0 <= k < |t.picks| ==> t.picks[k] == t.syncFrame + PickDistance(k + 1))
    && (if t.s.isStartup then t.picks == [] && t.s.framesTillSelection == 0 && !t.s.isEven && t.syncFrame == -1
        else
          var since := n - 1 - t.syncFrame;
          && 0 <= t.syncFrame < n && t.s.last != -1
          && PickDistance(|t.picks|) <= since < PickDistance(|t.picks| + 1)
          && t.s.framesTillSelection == since - PickDistance(|t.picks|)
          && t.s.isEven == (|t.picks| % 2 == 1))
  }

  /** Rate conversion, for every frame sequence: the k-th pick is exactly the ceil(5k/2)-th
      frame after the sync, and no pick is late. Slots are never -1. */
  lemma {:induction false} PicksArePaced(frames: seq<Input>)
    requires forall i :: 0 <= i < |frames| ==> frames[i].index >= 0
    ensures Paced(Run(frames), |frames|)
  {
    if |frames| == 0 {
    } else {
      var n := |frames| - 1;
      PicksArePaced(frames[..n]);
      PaceStep(Run(frames[..n]), frames[n], n);
    }
  }

  lemma PaceStep(t: Trace, frame: Input, n: nat)
    requires Paced(t, n) && frame.index >= 0
    ensures var (s, selected) := Step(t.s, frame);
            Paced(Trace(s, if t.s.isStartup && !s.isStartup then n else t.syncFrame,
                        if selected then t.picks + [n] else t.picks), n + 1)
  {
    PickGap(|t.picks|);
    PickGap(|t.picks| + 1);
  }

  lemma PickDistanceValue(q: nat)
    ensures PickDistance(2 * q) == 5 * q && PickDistance(2 * q + 1) == 5 * q + 3
  {
    Arith.DivModUnique(10 * q + 1, 2, 5 * q, 1);
    Arith.DivModUnique(10 * q + 6, 2, 5 * q + 3, 0);
  }

  /** Gaps alternate between three and two. */
  lemma PickGap(k: nat)
    ensures PickDistance(k + 1) == PickDistance(k) + if k % 2 == 0 then 3 else 2
    ensures PickDistance(0) == 0
  {
    var q, b := Arith.DivMod(k, 2);
    PickDistanceValue(0);
    PickDistanceValue(q);
    PickDistanceValue(q + 1);
  }

  /** No pick drifts more than half a frame from 2.5 frames a pick. */
  lemma PicksDoNotDrift(frames: seq<Input>, k: nat)
    requires forall i :: 0 <= i < |frames| ==> frames[i].index >= 0
    requires k < |Run(frames).picks|
    ensures 0 <= 2 * (Run(frames).picks[k] - Run(frames).syncFrame) - 5 * (k + 1) <= 1
  {
    PicksArePaced(frames);
  }

  // ----- When the startup ends

  /** Two ways of writing a second that the carries leave in the nanoseconds. */
  predicate WholeSecondLeft(x: TimeTools.Stamp, y: TimeTools.Stamp) {
    (y.nsec > x.nsec && (y.nsec - x.nsec) % 1_000_000_000 == 0) || x.nsec - y.nsec == 1_000_000_000
  }

  /** Stamp x is less than 130 ms after y. */
  predicate InTime(x: TimeTools.Stamp, y: TimeTools.Stamp) {
    var apart := TimeTools.TotalNs(x) - TimeTools.TotalNs(y);
    0 <= apart < 130_000_000 && !(apart == 0 && WholeSecondLeft(x, y))
  }

  /** Stamp x is 130 ms to a second after y. */
  predicate TooLate(x: TimeTools.Stamp, y: TimeTools.Stamp) {
    var apart := TimeTools.TotalNs(x) - TimeTools.TotalNs(y);
    130_000_000 <= apart < 1_000_000_000 || (apart == 1_000_000_000 && WholeSecondLeft(x, y))
  }

  lemma SyncTimes(x: TimeTools.Stamp, y: TimeTools.Stamp)
    ensures var diff := TimeTools.Difference(x, y);
            var near := !TimeTools.Negative(x, y) && diff.sec == 0;
            && (near && diff.nsec < SYNC_JITTER_NS <==> InTime(x, y))
            && (near && diff.nsec >= SYNC_JITTER_NS <==> TooLate(x, y))
    ensures TimeTools.Normal(x) && TimeTools.Normal(y) ==>
              (InTime(x, y) <==> 0 <= TimeTools.TotalNs(x) - TimeTools.TotalNs(y) < 130_000_000)
  {
    TimeTools.SubtractExact(x, y);
    TimeTools.NegativeExactly(x, y);
  }

  /** Some frame before n moved, and none since has stood still. */
  ghost predicate Armed(frames: seq<Input>, n: nat)
    requires n <= |frames|
  {
    exists m :: 1 <= m < n && frames[m].changedPixels > 0
                && forall q :: m < q < n ==> frames[q].changedPixels != 0
  }

  /** Frame n stands still after motion: a moment to synchronise on. */
  ghost predicate Candidate(frames: seq<Input>, n: nat)
    requires n < |frames|
  {
    n >= 1 && frames[n].changedPixels == 0 && Armed(frames, n)
  }

  ghost predicate HadCandidate(frames: seq<Input>, n: nat)
    requires n <= |frames|
  {
    exists c :: 0 <= c < n && Candidate(frames, c)
  }

  /** Candidates counted among the first n frames: the first only gives a time to compare
      with, one in time counts, one too late starts over, any other changes nothing. */
  ghost function Count(frames: seq<Input>, n: nat): int
    requires n <= |frames|
  {
    if n == 0 then 0
    else
      var frame := frames[n - 1];
      if !Candidate(frames, n - 1) || !HadCandidate(frames, n - 1) then Count(frames, n - 1)
      else if InTime(frame.stamp, frame.syncStamp) then Count(frames, n - 1) + 1
      else if TooLate(frame.stamp, frame.syncStamp) then 0
      else Count(frames, n - 1)
  }

  /** While the startup lasts the selector's counters are those of the frames; it ends on
      the first frame that makes the count five. */
  ghost predicate StartupTold(t: Trace, frames: seq<Input>, n: nat)
    requires n <= |frames|
  {
    if t.s.isStartup then
      && (t.s.last == -1 <==> n == 0)
      && t.s.zeroPixels == (if Armed(frames, n) then 1 else 0)
      && (t.s.lastSync == -1 <==> !HadCandidate(frames, n))
      && t.s.startupCount == Count(frames, n)
      && forall m :: 0 <= m <= n ==> Count(frames, m) < 5
    else
      && t.s.last != -1
      && 0 <= t.syncFrame < n
      && Count(frames, t.syncFrame + 1) == 5 && forall m :: 0 <= m <= t.syncFrame ==> Count(frames, m) < 5
  }

  /** For every frame sequence, when the 10 Hz selector synchronises. */
  lemma {:induction false} StartupExact(frames: seq<Input>, n: nat)
    requires n <= |frames| && forall i :: 0 <= i < |frames| ==> frames[i].index >= 0
    ensures StartupTold(Run(frames[..n]), frames, n)
  {
    if n == 0 {
    } else {
      StartupExact(frames, n - 1);
      assert frames[..n][..n - 1] == frames[..n - 1];
      StartupToldStep(Run(frames[..n - 1]), frames, n - 1);
    }
  }

  /** Frame n arms the detector by moving and disarms it by standing still. */
  lemma ArmedStep(frames: seq<Input>, n: nat)
    requires n < |frames|
    ensures Armed(frames, n + 1) <==>
              n >= 1 && (frames[n].changedPixels > 0 || (frames[n].changedPixels != 0 && Armed(frames, n)))
    ensures HadCandidate(frames, n + 1) <==> HadCandidate(frames, n) || Candidate(frames, n)
  {
    if n >= 1 && frames[n].changedPixels != 0 && Armed(frames, n) {
      var m :| 1 <= m < n && frames[m].changedPixels > 0
               && forall q :: m < q < n ==> frames[q].changedPixels != 0;
      assert forall q :: m < q < n + 1 ==> frames[q].changedPixels != 0;
    }
  }

  lemma StartupToldStep(t: Trace, frames: seq<Input>, n: nat)
    requires n < |frames| && frames[n].index >= 0 && StartupTold(t, frames, n)
    ensures var (s, selected) := Step(t.s, frames[n]);
            StartupTold(Trace(s, if t.s.isStartup && !s.isStartup then n else t.syncFrame,
                              if selected then t.picks + [n] else t.picks), frames, n + 1)
  {
    ArmedStep(frames, n);
    SyncTimes(frames[n].stamp, frames[n].syncStamp);
  }
}
