/** What a run of the pipeline amounts to, told from the actions alone: the frames captured,
    the pixel differences found, when that synchronises, what is written and who stops. */
module PipelineReport {
  import opened TimeTools
  import opened MotionDetection
  import opened Pipeline
  import opened PipelineSafety

  // ----- What the actions bring in

  /** The frames captured, numbered from 0. */
  function Shots(actions: seq<Action>): seq<Frame> {
    if |actions| == 0 then []
    else
      var before := Shots(actions[..|actions| - 1]);
      match actions[|actions| - 1]
      case CaptureCopy(image, time) => before + [Frame(image, time, |before|)]
      case _ => before
  }

  /** The changed pixels of each frame processed, against the frame before. */
  function Pixels(actions: seq<Action>): seq<int> {
    if |actions| == 0 then []
    else
      var before := Pixels(actions[..|actions| - 1]);
      match actions[|actions| - 1]
      case ProcessingFrame(changedPixels) => before + [changedPixels]
      case _ => before
  }

  /** Comparison k is about frames k and k + 1; the first frame has none before it. */
  function Moved(pixels: seq<int>): (moved: seq<bool>)
    ensures |moved| == if |pixels| == 0 then 0 else |pixels| - 1
    ensures forall k :: 0 <= k < |moved| ==> moved[k] == (pixels[k + 1] > 50)
  {
    seq(if |pixels| == 0 then 0 else |pixels| - 1, k requires 0 <= k < |pixels| - 1 => pixels[k + 1] > 50)
  }

  // ----- When the selection synchronises

  /** Frame stamp x is less than 80 ms after y. Equal times count as well, except for two
      ways of writing a second that come from stamps that are not normalised. */
  predicate InTime(x: Stamp, y: Stamp) {
    && 0 <= TotalNs(x) - TotalNs(y) < 80_000_000
    && (TotalNs(x) == TotalNs(y) ==> y.nsec <= x.nsec && x.nsec - y.nsec != 1_000_000_000)
  }

  lemma InStepExact(current: Frame, last: Frame)
    ensures InStep(current, last) <==> InTime(current.time, last.time)
    ensures Normal(current.time) && Normal(last.time) ==>
              (InStep(current, last) <==> 0 <= TotalNs(current.time) - TotalNs(last.time) < 80_000_000)
  {
    SubtractExact(current.time, last.time);
    NegativeExactly(current.time, last.time);
  }

  /** Detections in a row, up to the last one in the first n comparisons, that came in time. */
  function InARow(moved: seq<bool>, shots: seq<Frame>, n: nat): nat
    requires n <= |moved| && (n == 0 || n < |shots|)
  {
    if n == 0 then 0
    else if !DetectedAt(moved, n - 1) then InARow(moved, shots, n - 1)
    else if InTime(shots[n].time, shots[n - 1].time) then InARow(moved, shots, n - 1) + 1
    else 0
  }

  lemma {:induction false} InARowPast(moved: seq<bool>, shots: seq<Frame>, more: seq<bool>, later: seq<Frame>, n: nat)
    requires n <= |moved| && (n == 0 || n < |shots|) && moved <= more && shots <= later
    ensures InARow(more, later, n) == InARow(moved, shots, n)
  {
    if n == 0 {
    } else {
      InARowPast(moved, shots, more, later, n - 1);
      assert more[..n] == moved[..n];
      DetectedPast(moved, more, n - 1);
    }
  }

  /** The first n comparisons do not make five in a row, or make them at n exactly. */
  ghost predicate Unsynced(moved: seq<bool>, shots: seq<Frame>, n: nat)
    requires n <= |moved| && (n == 0 || n < |shots|)
  {
    forall m :: 0 <= m <= n ==> InARow(moved, shots, m) < 5
  }

  ghost predicate SyncedAt(moved: seq<bool>, shots: seq<Frame>, n: nat)
    requires n <= |moved| && (n == 0 || n < |shots|)
  {
    n >= 1 && Unsynced(moved, shots, n - 1) && InARow(moved, shots, n) == 5
  }

  /** The startup goes on while there are no five in a row; syncFrame is where there are. */
  ghost predicate SyncOk(moved: seq<bool>, shots: seq<Frame>, p: Processing, syncFrame: int) {
    && (|moved| == 0 || |moved| < |shots|)
    && (if p.isStartup then
          p.startupFramesIgnore == InARow(moved, shots, |moved|) && Unsynced(moved, shots, |moved|)
        else |moved| == syncFrame && SyncedAt(moved, shots, |moved|))
  }

  // ----- Who stops

  /** The system runs until it is stopped or has written 1801 frames, and as long as it
      runs no thread has left its loop. */
  ghost predicate RunningOk(st: State, stopped: bool) {
    && (st.running <==> !stopped && |st.output| < 1801)
    && (st.running ==> st.capture.pc != CaptureExit && st.processing.pc != ProcessingExit && st.writer.pc != WriterExit)
  }

  /** State and record agree with the actions done so far. */
  ghost predicate Told(st: State, log: Log, done: seq<Action>) {
    && log.captured == Shots(done)
    && |Pixels(done)| == Processed(st.processing, log.taken)
    && log.changed <= Moved(Pixels(done))
    && SyncOk(log.changed, log.captured, st.processing, log.syncFrame)
    && RunningOk(st, Stop in done)
  }

  lemma ShotsStep(st: State, log: Log, a: Action, done: seq<Action>)
    requires Inv(st, log) && Enabled(st, a) && log.captured == Shots(done)
    ensures Observe(st, log, a, Do(st, a)).captured == Shots(done + [a])
    ensures log.captured <= Shots(done + [a])
  {
    assert (done + [a])[..|done|] == done;
  }

  lemma RunningStep(st: State, log: Log, a: Action, done: seq<Action>)
    requires Inv(st, log) && Enabled(st, a) && RunningOk(st, Stop in done)
    ensures RunningOk(Do(st, a), Stop in done + [a])
  {
    if a.CaptureSend? {
      CaptureSendSucceeds(st, log);
    }
  }

  /** Only a processed frame changes the selection's side of the record. */
  lemma OtherStep(st: State, log: Log, a: Action)
    requires Inv(st, log) && Enabled(st, a) && !a.ProcessingFrame?
    ensures var next := Do(st, a);
            var record := Observe(st, log, a, next);
            && record.changed == log.changed && record.syncFrame == log.syncFrame
            && next.processing.isStartup == st.processing.isStartup
            && next.processing.startupFramesIgnore == st.processing.startupFramesIgnore
            && Processed(next.processing, record.taken) == Processed(st.processing, log.taken)
  {
  }

  lemma SyncGrows(moved: seq<bool>, shots: seq<Frame>, later: seq<Frame>,
                  p: Processing, next: Processing, syncFrame: int)
    requires SyncOk(moved, shots, p, syncFrame) && shots <= later
    requires next.isStartup == p.isStartup && next.startupFramesIgnore == p.startupFramesIgnore
    ensures SyncOk(moved, later, next, syncFrame)
  {
    forall n | 0 <= n <= |moved| ensures InARow(moved, later, n) == InARow(moved, shots, n) {
      InARowPast(moved, shots, moved, later, n);
    }
  }

  // ----- A processed frame

  lemma FrameStep(st: State, log: Log, changedPixels: int, done: seq<Action>)
    requires Inv(st, log) && Enabled(st, ProcessingFrame(changedPixels)) && Told(st, log, done)
    ensures var a := ProcessingFrame(changedPixels);
            var next := Do(st, a);
            var record := Observe(st, log, a, next);
            && |Pixels(done + [a])| == Processed(next.processing, record.taken)
            && record.changed <= Moved(Pixels(done + [a]))
            && SyncOk(record.changed, record.captured, next.processing, record.syncFrame)
  {
    var a := ProcessingFrame(changedPixels);
    assert (done + [a])[..|done|] == done;
    assert Pixels(done + [a]) == Pixels(done) + [changedPixels];
    MovedGrows(Pixels(done), changedPixels);
    var p := st.processing;
    if p.last != -1 && p.isStartup {
      StartupStep(st, log, changedPixels);
      assert log.changed == Moved(Pixels(done));
    } else {
      QuietStep(st, log, changedPixels);
    }
  }

  lemma MovedGrows(pixels: seq<int>, changedPixels: int)
    ensures |pixels| >= 1 ==> Moved(pixels + [changedPixels]) == Moved(pixels) + [changedPixels > 50]
    ensures Moved(pixels) <= Moved(pixels + [changedPixels])
  {
  }

  /** Before the first comparison and after the startup nothing is recorded. */
  lemma QuietStep(st: State, log: Log, changedPixels: int)
    requires Inv(st, log) && Enabled(st, ProcessingFrame(changedPixels))
    requires st.processing.last == -1 || !st.processing.isStartup
    ensures var a := ProcessingFrame(changedPixels);
            var next := Do(st, a);
            var record := Observe(st, log, a, next);
            && record.changed == log.changed && record.syncFrame == log.syncFrame
            && record.captured == log.captured && record.taken == log.taken
            && next.processing.isStartup == st.processing.isStartup
            && next.processing.startupFramesIgnore == st.processing.startupFramesIgnore
            && Processed(next.processing, log.taken) == Processed(st.processing, log.taken) + 1
  {
  }

  /** A comparison during startup: its detection counts, ends the row or changes nothing. */
  lemma StartupStep(st: State, log: Log, changedPixels: int)
    requires Inv(st, log) && Enabled(st, ProcessingFrame(changedPixels))
    requires st.processing.last != -1 && st.processing.isStartup
    requires SyncOk(log.changed, log.captured, st.processing, log.syncFrame)
    ensures var a := ProcessingFrame(changedPixels);
            var next := Do(st, a);
            var record := Observe(st, log, a, next);
            && record.changed == log.changed + [changedPixels > 50]
            && record.captured == log.captured && record.taken == log.taken
            && Processed(next.processing, log.taken) == Processed(st.processing, log.taken) + 1
            && SyncOk(record.changed, record.captured, next.processing, record.syncFrame)
  {
    StartupEffect(st, log, changedPixels);
    HeldFrames(st, log);
    var p := st.processing;
    assert |log.changed| == log.taken - 2;
    RowStep(log.changed, log.captured, p, changedPixels);
  }

  lemma RowStep(moved: seq<bool>, shots: seq<Frame>, p: Processing, changedPixels: int)
    requires p.isStartup && SyncOk(moved, shots, p, NO_SYNC) && |moved| + 1 < |shots|
    requires p.motion == Before(moved, |moved|)
    ensures var n := |moved|;
            var next := Synchronise(p.(framesTillSelection := p.framesTillSelection + 1),
                                    shots[n + 1], shots[n], changedPixels);
            SyncOk(moved + [changedPixels > 50], shots, next, if next.isStartup then NO_SYNC else n + 1)
  {
    var n := |moved|;
    var more := moved + [changedPixels > 50];
    BeforePast(moved, more, n);
    assert DetectedAt(more, n) <==> Next(p.motion, changedPixels > 50).1 == Detected;
    InStepExact(shots[n + 1], shots[n]);
    forall m | 0 <= m <= n ensures InARow(more, shots, m) == InARow(moved, shots, m) {
      InARowPast(moved, shots, more, shots, m);
    }
  }

  // ----- Every step, every run

  lemma ToldStep(st: State, log: Log, a: Action, done: seq<Action>)
    requires Inv(st, log) && Enabled(st, a) && Told(st, log, done)
    ensures Told(Do(st, a), Observe(st, log, a, Do(st, a)), done + [a])
  {
    ShotsStep(st, log, a, done);
    RunningStep(st, log, a, done);
    if a.ProcessingFrame? {
      FrameStep(st, log, a.changedPixels, done);
    } else {
      OtherStep(st, log, a);
      assert (done + [a])[..|done|] == done;
      SyncGrows(log.changed, log.captured, Shots(done + [a]), st.processing, Do(st, a).processing, log.syncFrame);
    }
  }

  lemma SplitActions(done: seq<Action>, actions: seq<Action>)
    requires |actions| >= 1
    ensures done + [actions[0]] + actions[1..] == done + actions
  {
  }

  lemma {:induction false} RunTold(st: State, log: Log, done: seq<Action>, actions: seq<Action>, all: seq<Action>)
      returns (end: State, record: Log)
    requires Inv(st, log) && Told(st, log, done) && Runs(st, actions) && all == done + actions
    ensures (end, record) == After(st, log, actions) && Inv(end, record) && Told(end, record, all)
    decreases |actions|
  {
    if actions == [] {
      end, record := st, log;
      assert all == done;
    } else {
      var next, logged := OneStep(st, log, done, actions);
      SplitActions(done, actions);
      end, record := RunTold(next, logged, done + [actions[0]], actions[1..], all);
    }
  }

  lemma OneStep(st: State, log: Log, done: seq<Action>, actions: seq<Action>) returns (next: State, logged: Log)
    requires Inv(st, log) && Told(st, log, done) && Runs(st, actions) && |actions| >= 1
    ensures Inv(next, logged) && Told(next, logged, done + [actions[0]])
    ensures Runs(next, actions[1..]) && After(st, log, actions) == After(next, logged, actions[1..])
  {
    var a := actions[0];
    next := Do(st, a);
    logged := Observe(st, log, a, next);
    StepKeepsInv(st, log, a);
    ToldStep(st, log, a, done);
  }

  lemma StartTold(st: State, log: Log, done: seq<Action>)
    requires InitialState(st) && log == START_LOG && |done| == 0
    ensures Told(st, log, done)
  {
    var moved := Moved(Pixels(done));
    assert moved == [] && InARow(moved, Shots(done), 0) == 0;
  }

  /** The files hold frames 25, 50, ... after the sync frame, exactly as captured. */
  ghost predicate EverySecondWritten(output: seq<Frame>, captured: seq<Frame>, syncFrame: int) {
    forall k :: 0 <= k < |output| ==>
      var n := syncFrame + 25 * (k + 1);
      0 <= n < |captured| && output[k] == captured[n] && output[k].id == n
  }

  lemma InvEverySecond(st: State, log: Log)
    requires Inv(st, log)
    ensures EverySecondWritten(st.output, log.captured, log.syncFrame)
    ensures |st.output| <= 1801
    ensures |st.output| > 0 ==> log.syncFrame >= 78
  {
    forall k | 0 <= k < |st.output|
      ensures var n := log.syncFrame + 25 * (k + 1);
              0 <= n < |log.captured| && st.output[k] == log.captured[n] && st.output[k].id == n
    {
      assert st.output[k] == log.picked[k];
      assert log.picked[k] == log.captured[log.chosen[k]];
    }
  }

  /** Every frame captured is processed, held or queued, and every frame due is written,
      held, queued or about to be: nothing is lost on the way. */
  ghost predicate NothingLost(st: State, log: Log) {
    var p := st.processing;
    && |log.captured| == log.taken + |st.frameQ.msgs| + (if st.capture.pc == CaptureCopied then 1 else 0)
    && |log.chosen| == |st.output| + HeldWo(st.writer) + |st.writeoutQ.msgs| + (if p.pc == Chosen then 1 else 0)
    && (!p.isStartup && p.pc != Frozen ==>
          |log.chosen| == (Processed(p, log.taken) - 1 - log.syncFrame) / 25)
    && (p.isStartup || p.pc == Frozen ==> |log.chosen| == 0)
  }

  lemma InvNothingLost(st: State, log: Log)
    requires Inv(st, log)
    ensures NothingLost(st, log)
  {
  }

  /** No thread holds a frame and both queues are empty. */
  predicate Drained(st: State) {
    && st.frameQ.msgs == [] && st.writeoutQ.msgs == []
    && st.capture.pc != CaptureCopied && st.processing.pc != Got && st.processing.pc != Chosen
    && st.writer.pc != WriterGot
  }

  /** Once drained, everything that was due is in the files. */
  ghost predicate AllWritten(st: State, log: Log) {
    Drained(st) && !st.processing.isStartup && st.processing.pc != Frozen ==>
      |st.output| == (|log.captured| - 1 - log.syncFrame) / 25
  }

  lemma DrainedWritesAll(st: State, log: Log)
    requires NothingLost(st, log)
    ensures AllWritten(st, log)
  {
  }


  /** The frame that ends the startup, from the actions alone: the first whose comparison
      makes five detections in a row that came in time, each within 80 ms. */
  ghost predicate SyncsAt(actions: seq<Action>, isStartup: bool, syncFrame: int) {
    var moved, shots := Moved(Pixels(actions)), Shots(actions);
    && (|moved| == 0 || |moved| < |shots|)
    && (if isStartup then Unsynced(moved, shots, |moved|)
        else 1 <= syncFrame <= |moved| && SyncedAt(moved, shots, syncFrame))
  }

  lemma ToldSync(st: State, log: Log, actions: seq<Action>)
    requires Inv(st, log) && Told(st, log, actions)
    ensures SyncsAt(actions, st.processing.isStartup, log.syncFrame)
  {
    var moved, shots := Moved(Pixels(actions)), Shots(actions);
    assert |moved| == 0 || |moved| < |shots|;
    forall n | 0 <= n <= |log.changed| ensures InARow(moved, shots, n) == InARow(log.changed, shots, n) {
      InARowPast(log.changed, shots, moved, shots, n);
    }
  }

  lemma NothingAhead(none: seq<Action>, actions: seq<Action>)
    requires |none| == 0
    ensures actions == none + actions
  {
  }

  lemma RunFromStart(st: State, actions: seq<Action>, start: Log, none: seq<Action>) returns (end: State, log: Log)
    requires InitialState(st) && Runs(st, actions) && start == START_LOG && |none| == 0
    ensures (end, log) == After(st, start, actions) && Inv(end, log) && Told(end, log, actions)
  {
    InitialInv(st);
    StartTold(st, start, none);
    NothingAhead(none, actions);
    end, log := RunTold(st, start, none, actions, actions);
  }

  /** End to end, in every interleaving: what is written is, in order and without gap or
      duplicate, every 25th frame after the sync; the sync is the first frame that completes
      five detections in time, and cannot come before frame 78; nothing due is lost, so once
      drained the files are all that was due; and the system runs exactly until it is
      stopped or 1801 frames are written. */
  lemma EndToEnd(st: State, actions: seq<Action>) returns (end: State, log: Log)
    requires InitialState(st) && Runs(st, actions)
    ensures (end, log) == After(st, START_LOG, actions)
    ensures log.captured == Shots(actions)
    ensures EverySecondWritten(end.output, Shots(actions), log.syncFrame)
    ensures SyncsAt(actions, end.processing.isStartup, log.syncFrame)
    ensures |end.output| <= 1801
    ensures |end.output| > 0 ==> log.syncFrame >= 78
    ensures NothingLost(end, log) && AllWritten(end, log)
    ensures RunningOk(end, Stop in actions)
  {
    end, log := RunFromStart(st, actions, START_LOG, []);
    InvEverySecond(end, log);
    InvNothingLost(end, log);
    DrainedWritesAll(end, log);
    ToldSync(end, log, actions);
  }

  // ----- After the stop

  /** Frames the thread may still copy once running is cleared. */
  function CapturesLeft(c: Capture): int {
    if c.pc == CaptureReady then 1 else 0
  }

  function SelectionsLeft(p: Processing): int {
    if p.pc == InnerHead || p.pc == Waiting || p.pc == Got || p.pc == Chosen then 1 else 0
  }

  function WritesLeft(w: Writer): int {
    if w.pc == WriterReady || w.pc == WriterWaiting || w.pc == WriterGot then 1 else 0
  }

  /** Nothing is done in next that st had not left to do. */
  ghost predicate WindsDown(st: State, next: State) {
    && next.capture.frameId + CapturesLeft(next.capture) <= st.capture.frameId + CapturesLeft(st.capture)
    && next.processing.selected + SelectionsLeft(next.processing)
       <= st.processing.selected + SelectionsLeft(st.processing)
    && |next.output| + WritesLeft(next.writer) <= |st.output| + WritesLeft(st.writer)
  }

  lemma StopStep(st: State, a: Action)
    requires Allocated(st) && Enabled(st, a) && !st.running
    ensures !Do(st, a).running && WindsDown(st, Do(st, a))
  {
  }

  /** Once running is cleared it stays cleared, and each thread finishes at most the one
      frame it is busy with: one more capture, one more selection, one more file. */
  lemma {:induction false} StopsSoon(st: State, log: Log, actions: seq<Action>)
    requires Runs(st, actions) && !st.running
    ensures var end := After(st, log, actions).0;
            && !end.running && WindsDown(st, end)
            && end.capture.frameId <= st.capture.frameId + 1
            && end.processing.selected <= st.processing.selected + 1
            && |end.output| <= |st.output| + 1
    decreases |actions|
  {
    if actions == [] {
    } else {
      var next := Do(st, actions[0]);
      StopStep(st, actions[0]);
      StopsSoon(next, Observe(st, log, actions[0], next), actions[1..]);
    }
  }

  /** What a capture without room leads to: with ninety slots queued its send fails, which
      stops the system and loses the frame; with fewer, a slot the processing thread still
      holds is overwritten and the capture thread goes on. */
  lemma OverrunOutcome(st: State, log: Log, image: seq<int>, time: Stamp)
    requires Inv(st, log) && Enabled(st, CaptureCopy(image, time)) && !Room(st, CaptureCopy(image, time))
    ensures var copied := Do(st, CaptureCopy(image, time));
            Enabled(copied, CaptureSend) &&
            var next := Do(copied, CaptureSend);
            if |st.frameQ.msgs| == 90 then
              !next.running && next.capture.pc == CaptureExit && next.frameQ.msgs == st.frameQ.msgs
            else
              && next.running == st.running && next.capture.pc == CaptureHead
              && next.frameQ.msgs == st.frameQ.msgs + [st.capture.scanIndex]
  {
  }

  /** The same for a selection: with a hundred slots queued the frame is lost, and unlike a
      capture it is counted as selected and the system goes on. */
  lemma SelectionOverrunOutcome(st: State, log: Log, changedPixels: int)
    requires Inv(st, log) && Enabled(st, ProcessingFrame(changedPixels)) && Selects(st.processing)
    requires !Room(st, ProcessingFrame(changedPixels))
    ensures var copied := Do(st, ProcessingFrame(changedPixels));
            Enabled(copied, ProcessingSend) &&
            var next := Do(copied, ProcessingSend);
            && next.running == st.running && next.processing.selected == st.processing.selected + 1
            && next.processing.woIndex == (if st.processing.woIndex == 99 then 0 else st.processing.woIndex + 1)
            && next.writeoutQ.msgs == (if |st.writeoutQ.msgs| == 100 then st.writeoutQ.msgs
                                       else st.writeoutQ.msgs + [st.processing.woIndex])
  {
    ChosenEffect(st, log, changedPixels);
  }
}
