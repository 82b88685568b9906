/** What every interleaving of the three threads keeps, from capture to the written files. */
module PipelineSafety {
  import Arith
  import Ring
  import opened TimeTools
  import opened MotionDetection
  import MessageQueue
  import opened Pipeline

  /** An observer's record of a run: what was captured, how far each end of each queue got,
      which comparisons of the startup saw motion and which frame was the last detected,
      which frame synchronised the selection, which frames were chosen, and what was copied. */
  datatype Log = Log(
    captured: seq<Frame>, sent: nat, taken: nat, changed: seq<bool>, lastTick: int,
    syncFrame: int, chosen: seq<int>, picked: seq<Frame>, posted: nat, fetched: nat)

  const NO_SYNC := -1
  const START_LOG := Log([], 0, 0, [], 0, NO_SYNC, [], [], 0, 0)

  function Observe(st: State, log: Log, a: Action, next: State): Log {
    match a
    case CaptureCopy(image, time) => log.(captured := log.captured + [Frame(image, time, st.capture.frameId)])
    case CaptureSend => if next.capture.pc == CaptureHead then log.(sent := log.sent + 1) else log
    case ProcessingReceive => log.(taken := log.taken + 1)
    case ProcessingFrame(changedPixels) =>
      if next.processing.pc == Chosen && Slot(st.processing.woIndex, |next.woBuffers|) then
        log.(chosen := log.chosen + [log.taken - 1], picked := log.picked + [next.woBuffers[st.processing.woIndex]])
      else if st.processing.isStartup && st.processing.last != -1 then
        log.(changed := log.changed + [changedPixels > MOTION_THRESHOLD],
             lastTick := if next.processing.pc == InnerHead then log.lastTick else log.taken - 1,
             syncFrame := if next.processing.isStartup then log.syncFrame else log.taken - 1)
      else log
    case ProcessingSend => log.(posted := log.posted + 1)
    case WriterReceive => log.(fetched := log.fetched + 1)
    case _ => log
  }

  // ----- Occupancy: when a copy into a ring is safe

  /** Scan slots the processing thread still reads: last, and current while it has a frame. */
  function HeldScan(p: Processing): int {
    (if p.last == -1 then 0 else 1) + (if p.pc == Got || p.pc == Chosen then 1 else 0)
  }

  function HeldWo(w: Writer): int {
    if w.pc == WriterGot then 1 else 0
  }

  /** The frame now held is the 25th since the last choice: the one to copy out. */
  predicate Selects(p: Processing) {
    p.last != -1 && !p.isStartup && p.framesTillSelection + 1 == MOTION_FRAMES_SEC
  }

  /** A copy leaves room for every queued and held slot. */
  ghost predicate Room(st: State, a: Action) {
    match a
    case CaptureCopy(_, _) => |st.frameQ.msgs| + HeldScan(st.processing) < SCAN_BUF_SIZE
    case ProcessingFrame(_) => Selects(st.processing) ==> |st.writeoutQ.msgs| + HeldWo(st.writer) < NUM_WO_BUF
    case _ => true
  }

  /** The simple occupancy bounds: at most 87 scanned frames queued at a capture, and 98
      selected ones at a selection. */
  lemma BoundsGiveRoom(st: State, a: Action)
    requires a.CaptureCopy? ==> |st.frameQ.msgs| <= 90 - 3
    requires a.ProcessingFrame? && Selects(st.processing) ==> |st.writeoutQ.msgs| <= 100 - 2
    ensures Room(st, a)
  {
  }

  // ----- The invariant

  /** msgs are the slots of positions first, first + 1, ... of a ring. */
  ghost predicate Consecutive(msgs: seq<int>, first: nat, size: int)
    requires size >= 1
  {
    forall j :: 0 <= j < |msgs| ==> msgs[j] == (first + j) % size
  }

  ghost predicate CaptureOk(scanBuffer: seq<Frame>, c: Capture, captured: seq<Frame>, sent: nat) {
    && |scanBuffer| == SCAN_BUF_SIZE
    && Ring.Shows(scanBuffer, captured)
    && (forall k :: 0 <= k < |captured| ==> captured[k].id == k)
    && c.frameId == |captured|
    && c.scanIndex == sent % SCAN_BUF_SIZE
    && |captured| == sent + (if c.pc == CaptureCopied then 1 else 0)
  }

  /** Queue, counter and ring agree, and no slot still needed has been overwritten. */
  ghost predicate FrameQOk(q: MessageQueue.Queue, p: Processing, captures: nat, sent: nat, taken: nat) {
    && taken + |q.msgs| == sent
    && Consecutive(q.msgs, taken, SCAN_BUF_SIZE)
    && q.count == |q.msgs| - (if p.pc == Waiting then 1 else 0)
    && captures - (taken - HeldScan(p)) <= SCAN_BUF_SIZE
  }

  /** Frames the processing thread is through with. */
  function Processed(p: Processing, taken: nat): int {
    if p.pc == Got then taken - 1 else taken
  }

  /** The slots in current and last are those of the newest frames taken. */
  ghost predicate HoldsOk(p: Processing, taken: nat) {
    var busy := p.pc == Got || p.pc == Chosen;
    var before := if busy then taken - 1 else taken;
    && before >= 0
    && (busy ==> p.current == before % SCAN_BUF_SIZE)
    && p.last == if before == 0 then -1 else (before - 1) % SCAN_BUF_SIZE
  }

  /** Frames compared with the one before. */
  function Compared(p: Processing, taken: nat): int {
    if Processed(p, taken) == 0 then 0 else Processed(p, taken) - 1
  }

  /** The motion machine is where the comparisons so far put it, and the count runs from the
      last detection: frame n is the one that comparison n - 1 is about. */
  ghost predicate HistoryOk(p: Processing, changed: seq<bool>, lastTick: int, syncFrame: int, taken: nat) {
    && LastDetection(changed, lastTick)
    && (if p.isStartup then
          && |changed| == Compared(p, taken)
          && p.motion == Before(changed, |changed|)
          && p.framesTillSelection == |changed| - lastTick
        else |changed| == lastTick == syncFrame)
  }

  /** Nothing is chosen during startup, and each detection took at least 14 comparisons. */
  ghost predicate StartupOk(p: Processing, syncFrame: int, chosen: seq<int>, taken: nat) {
    p.isStartup ==>
      && p.pc != Chosen && p.pc != Frozen
      && syncFrame == NO_SYNC && chosen == []
      && Sane(p.motion) && 0 <= p.startupFramesIgnore < MOTION_SELECTIONS_IGNORE
      && 14 * p.startupFramesIgnore + p.framesTillSelection <= Compared(p, taken)
      && Progress(p.motion) <= p.framesTillSelection
  }

  /** Every 25th frame after the sync is chosen; the count in between is the distance. */
  ghost predicate SelectionOk(p: Processing, syncFrame: int, chosen: seq<int>, taken: nat) {
    && (forall k :: 0 <= k < |chosen| ==> chosen[k] == syncFrame + MOTION_FRAMES_SEC * (k + 1))
    && (!p.isStartup ==>
          && 70 <= syncFrame < taken
          && (p.pc != Frozen ==> 78 <= syncFrame)
          && (if p.pc == Frozen then chosen == []
              else
                var sinceChoice := Processed(p, taken) - 1 - syncFrame - MOTION_FRAMES_SEC * |chosen|;
                if p.pc == Chosen then sinceChoice == 0 && p.framesTillSelection == MOTION_FRAMES_SEC
                else p.framesTillSelection == sinceChoice && 0 <= sinceChoice < MOTION_FRAMES_SEC))
  }

  /** What was copied out is what was captured under the chosen number. */
  ghost predicate PickedOk(captured: seq<Frame>, chosen: seq<int>, picked: seq<Frame>) {
    && |picked| == |chosen|
    && forall k :: 0 <= k < |chosen| ==> 0 <= chosen[k] < |captured| && picked[k] == captured[chosen[k]]
  }

  ghost predicate WoRingOk(woBuffers: seq<Frame>, p: Processing, picked: seq<Frame>, posted: nat) {
    && |woBuffers| == NUM_WO_BUF
    && |picked| == posted + (if p.pc == Chosen then 1 else 0)
    && Ring.Shows(woBuffers, picked)
    && p.woIndex == posted % NUM_WO_BUF
    && p.selected == posted
  }

  ghost predicate WriteoutQOk(q: MessageQueue.Queue, w: Writer, picks: nat, posted: nat, fetched: nat) {
    && fetched + |q.msgs| == posted
    && Consecutive(q.msgs, fetched, NUM_WO_BUF)
    && q.count == |q.msgs| - (if w.pc == WriterWaiting then 1 else 0)
    && picks - (fetched - HeldWo(w)) <= NUM_WO_BUF
  }

  ghost predicate WriterOk(w: Writer, output: seq<Frame>, picked: seq<Frame>, fetched: nat) {
    && |output| == w.written == fetched - HeldWo(w)
    && (w.pc == WriterGot ==> w.woIndex == (fetched - 1) % NUM_WO_BUF)
    && w.written <= |picked|
    && forall k :: 0 <= k < w.written ==> output[k] == picked[k]
  }

  ghost predicate LimitOk(w: Writer, running: bool) {
    && w.written <= WRITEOUT_TOTAL_FRAMES
    && (w.written == WRITEOUT_TOTAL_FRAMES ==> w.pc == WriterExit && !running)
  }

  ghost predicate Inv(st: State, log: Log) {
    && CaptureOk(st.scanBuffer, st.capture, log.captured, log.sent)
    && FrameQOk(st.frameQ, st.processing, |log.captured|, log.sent, log.taken)
    && HoldsOk(st.processing, log.taken)
    && HistoryOk(st.processing, log.changed, log.lastTick, log.syncFrame, log.taken)
    && StartupOk(st.processing, log.syncFrame, log.chosen, log.taken)
    && SelectionOk(st.processing, log.syncFrame, log.chosen, log.taken)
    && PickedOk(log.captured, log.chosen, log.picked)
    && WoRingOk(st.woBuffers, st.processing, log.picked, log.posted)
    && WriteoutQOk(st.writeoutQ, st.writer, |log.picked|, log.posted, log.fetched)
    && WriterOk(st.writer, st.output, log.picked, log.fetched)
    && LimitOk(st.writer, st.running)
  }

  lemma InitialInv(st: State)
    requires InitialState(st)
    ensures Inv(st, START_LOG)
  {
  }

  lemma CaptureCheckStep(st: State, log: Log)
    requires Inv(st, log) && Enabled(st, CaptureCheck)
    ensures Inv(Do(st, CaptureCheck), log)
  {
  }

  lemma CaptureCopyStep(st: State, log: Log, image: seq<int>, time: Stamp)
    requires Inv(st, log) && Enabled(st, CaptureCopy(image, time)) && Room(st, CaptureCopy(image, time))
    ensures var a := CaptureCopy(image, time);
            var next := Do(st, a); Inv(next, Observe(st, log, a, next))
  {
    Ring.ShowsStep(st.scanBuffer, log.captured, Frame(image, time, st.capture.frameId));
  }

  lemma ConsecutiveAppend(msgs: seq<int>, first: nat, size: int, v: int)
    requires size >= 1 && Consecutive(msgs, first, size) && v == (first + |msgs|) % size
    ensures Consecutive(msgs + [v], first, size)
  {
  }

  /** Under the occupancy bound a send never fails. */
  lemma CaptureSendSucceeds(st: State, log: Log)
    requires Inv(st, log) && Enabled(st, CaptureSend)
    ensures var q := MessageQueue.Queue(st.frameQ.count + 1, st.frameQ.msgs + [st.capture.scanIndex]);
            && MessageQueue.Enqueue(st.frameQ, SCAN_BUF_SIZE, st.capture.scanIndex) == (q, true)
            && Consecutive(q.msgs, log.taken, SCAN_BUF_SIZE)
  {
    assert |st.frameQ.msgs| < SCAN_BUF_SIZE && st.frameQ.count < SCAN_BUF_SIZE;
    ConsecutiveAppend(st.frameQ.msgs, log.taken, SCAN_BUF_SIZE, st.capture.scanIndex);
  }

  lemma CaptureSendStep(st: State, log: Log)
    requires Inv(st, log) && Enabled(st, CaptureSend)
    ensures var next := Do(st, CaptureSend);
            next.capture.pc == CaptureHead && Inv(next, Observe(st, log, CaptureSend, next))
  {
    CaptureSendSucceeds(st, log);
    Ring.WrapIndex(log.sent, SCAN_BUF_SIZE);
  }

  lemma WriterControlStep(st: State, log: Log, a: Action)
    requires Inv(st, log) && Enabled(st, a)
    requires a.WriterCheck? || a.WriterEnter? || a.Stop?
    ensures Inv(Do(st, a), log)
  {
  }

  lemma WriterReceiveStep(st: State, log: Log)
    requires Inv(st, log) && Enabled(st, WriterReceive)
    ensures var next := Do(st, WriterReceive); Inv(next, Observe(st, log, WriterReceive, next))
  {
  }

  lemma WriterWriteStep(st: State, log: Log)
    requires Inv(st, log) && Enabled(st, WriterWrite)
    ensures Inv(Do(st, WriterWrite), log)
  {
    assert st.woBuffers[st.writer.woIndex] == log.picked[log.fetched - 1];
  }

  lemma ProcessingControlStep(st: State, log: Log, a: Action)
    requires Inv(st, log) && Enabled(st, a)
    requires a.ProcessingCheck? || a.ProcessingEnter?
    ensures Inv(Do(st, a), log)
  {
  }

  /** A frame received is not processed yet: selection and startup stand as they were. */
  lemma ReceiveKeepsSelection(p: Processing, index: int, log: Log)
    requires p.pc == Waiting
    requires HistoryOk(p, log.changed, log.lastTick, log.syncFrame, log.taken)
    requires StartupOk(p, log.syncFrame, log.chosen, log.taken)
    requires SelectionOk(p, log.syncFrame, log.chosen, log.taken)
    ensures var next := p.(pc := Got, current := index);
            && HistoryOk(next, log.changed, log.lastTick, log.syncFrame, log.taken + 1)
            && StartupOk(next, log.syncFrame, log.chosen, log.taken + 1)
            && SelectionOk(next, log.syncFrame, log.chosen, log.taken + 1)
  {
  }

  lemma ReceiveKeepsQueue(q: MessageQueue.Queue, p: Processing, captures: nat, sent: nat, taken: nat)
    requires p.pc == Waiting && |q.msgs| >= 1 && FrameQOk(q, p, captures, sent, taken) && HoldsOk(p, taken)
    ensures var next := p.(pc := Got, current := q.msgs[0]);
            FrameQOk(MessageQueue.Receive(q).0, next, captures, sent, taken + 1) && HoldsOk(next, taken + 1)
  {
    assert q.msgs[0] == taken % SCAN_BUF_SIZE;
  }

  lemma ProcessingReceiveStep(st: State, log: Log)
    requires Inv(st, log) && Enabled(st, ProcessingReceive)
    ensures var next := Do(st, ProcessingReceive); Inv(next, Observe(st, log, ProcessingReceive, next))
  {
    ReceiveKeepsQueue(st.frameQ, st.processing, |log.captured|, log.sent, log.taken);
    ReceiveKeepsSelection(st.processing, st.frameQ.msgs[0], log);
  }

  /** The slots the processing thread holds still show the frames it took. */
  lemma HeldFrames(st: State, log: Log)
    requires Inv(st, log) && (st.processing.pc == Got || st.processing.pc == Chosen)
    ensures log.taken >= 1 && Slot(st.processing.current, SCAN_BUF_SIZE)
    ensures st.scanBuffer[st.processing.current] == log.captured[log.taken - 1]
    ensures log.taken >= 2 ==>
              Slot(st.processing.last, SCAN_BUF_SIZE)
              && st.scanBuffer[st.processing.last] == log.captured[log.taken - 2]
  {
  }

  /** What a frame that is not chosen leaves alone. */
  ghost predicate OnlyMovesOn(p: Processing, next: Processing) {
    && (next.pc == InnerHead || next.pc == OuterHead || next.pc == Frozen)
    && next.last == p.current && next.woIndex == p.woIndex && next.selected == p.selected
  }

  lemma UnchosenEffect(st: State, changedPixels: int)
    requires Allocated(st) && Enabled(st, ProcessingFrame(changedPixels))
    requires !Selects(st.processing)
    ensures var next := Do(st, ProcessingFrame(changedPixels));
            && next == st.(processing := next.processing, freezeSystem := next.freezeSystem)
            && OnlyMovesOn(st.processing, next.processing)
  {
  }

  /** A frame that does not get chosen, whatever it does to the startup. */
  lemma UnchosenStep(st: State, log: Log, changedPixels: int)
    requires Inv(st, log) && Enabled(st, ProcessingFrame(changedPixels))
    requires !Selects(st.processing)
    ensures var a := ProcessingFrame(changedPixels);
            var next := Do(st, a);
            var record := Observe(st, log, a, next);
            && record == log.(changed := record.changed, lastTick := record.lastTick, syncFrame := record.syncFrame)
            && next == st.(processing := next.processing, freezeSystem := next.freezeSystem)
            && FrameQOk(next.frameQ, next.processing, |log.captured|, log.sent, log.taken)
            && HoldsOk(next.processing, log.taken)
            && PickedOk(log.captured, log.chosen, log.picked)
            && WoRingOk(next.woBuffers, next.processing, log.picked, log.posted)
  {
    UnchosenEffect(st, changedPixels);
  }

  lemma FirstFrameStep(st: State, log: Log, changedPixels: int)
    requires Inv(st, log) && Enabled(st, ProcessingFrame(changedPixels)) && st.processing.last == -1
    ensures var a := ProcessingFrame(changedPixels);
            var next := Do(st, a); Inv(next, Observe(st, log, a, next))
  {
    UnchosenStep(st, log, changedPixels);
  }

  lemma StartupFrameStep(st: State, log: Log, changedPixels: int)
    requires Inv(st, log) && Enabled(st, ProcessingFrame(changedPixels))
    requires st.processing.last != -1 && st.processing.isStartup
    ensures var a := ProcessingFrame(changedPixels);
            var next := Do(st, a); Inv(next, Observe(st, log, a, next))
  {
    var next, record := StartupParts(st, log, changedPixels);
    StartupJoins(st, log, next, record);
  }

  /** What a startup frame leaves alone, and the parts of the invariant it touches. */
  ghost predicate StartupMoves(st: State, log: Log, next: State, record: Log) {
    && next == st.(processing := next.processing, freezeSystem := next.freezeSystem)
    && record == log.(changed := record.changed, lastTick := record.lastTick, syncFrame := record.syncFrame)
    && FrameQOk(next.frameQ, next.processing, |log.captured|, log.sent, log.taken)
    && HoldsOk(next.processing, log.taken)
    && WoRingOk(next.woBuffers, next.processing, log.picked, log.posted)
    && HistoryOk(next.processing, record.changed, record.lastTick, record.syncFrame, log.taken)
    && StartupOk(next.processing, record.syncFrame, log.chosen, log.taken)
    && SelectionOk(next.processing, record.syncFrame, log.chosen, log.taken)
  }

  lemma StartupJoins(st: State, log: Log, next: State, record: Log)
    requires Inv(st, log) && StartupMoves(st, log, next, record)
    ensures Inv(next, record)
  {
  }

  lemma StartupParts(st: State, log: Log, changedPixels: int) returns (next: State, record: Log)
    requires Inv(st, log) && Enabled(st, ProcessingFrame(changedPixels))
    requires st.processing.last != -1 && st.processing.isStartup
    ensures next == Do(st, ProcessingFrame(changedPixels))
    ensures record == Observe(st, log, ProcessingFrame(changedPixels), next)
    ensures StartupMoves(st, log, next, record)
  {
    next := Do(st, ProcessingFrame(changedPixels));
    record := Observe(st, log, ProcessingFrame(changedPixels), next);
    UnchosenStep(st, log, changedPixels);
    StartupSelection(st, log, changedPixels);
  }

  lemma StartupSelection(st: State, log: Log, changedPixels: int)
    requires Allocated(st) && Enabled(st, ProcessingFrame(changedPixels)) && HoldsOk(st.processing, log.taken)
    requires st.processing.last != -1 && st.processing.isStartup
    requires HistoryOk(st.processing, log.changed, log.lastTick, log.syncFrame, log.taken)
    requires StartupOk(st.processing, log.syncFrame, log.chosen, log.taken)
    ensures var a := ProcessingFrame(changedPixels);
            var next := Do(st, a);
            var record := Observe(st, log, a, next);
            && HistoryOk(next.processing, record.changed, record.lastTick, record.syncFrame, log.taken)
            && StartupOk(next.processing, record.syncFrame, log.chosen, log.taken)
            && SelectionOk(next.processing, record.syncFrame, log.chosen, log.taken)
  {
    StartupEffect(st, log, changedPixels);
    var p := st.processing;
    SynchroniseStep(p, log.taken, st.scanBuffer[p.current], st.scanBuffer[p.last], changedPixels);
    HistoryStep(p, log.changed, log.lastTick, log.taken,
                st.scanBuffer[p.current], st.scanBuffer[p.last], changedPixels);
  }

  lemma StartupEffect(st: State, log: Log, changedPixels: int)
    requires Allocated(st) && Enabled(st, ProcessingFrame(changedPixels))
    requires st.processing.last != -1 && st.processing.isStartup
    ensures var p := st.processing;
            var a := ProcessingFrame(changedPixels);
            var next := Do(st, a);
            && next.processing == Synchronise(p.(framesTillSelection := p.framesTillSelection + 1),
                                              st.scanBuffer[p.current], st.scanBuffer[p.last], changedPixels)
            && Observe(st, log, a, next)
               == log.(changed := log.changed + [changedPixels > MOTION_THRESHOLD],
                       lastTick := if next.processing.pc == InnerHead then log.lastTick else log.taken - 1,
                       syncFrame := if next.processing.isStartup then log.syncFrame else log.taken - 1)
  {
  }

  /** A comparison during startup joins the history, and restarts the count if it detects. */
  lemma HistoryStep(p: Processing, changed: seq<bool>, lastTick: int, taken: nat,
                    current: Frame, last: Frame, changedPixels: int)
    requires p.isStartup && p.pc == Got && taken >= 2 && HistoryOk(p, changed, lastTick, NO_SYNC, taken)
    ensures var next := Synchronise(p.(framesTillSelection := p.framesTillSelection + 1), current, last, changedPixels);
            HistoryOk(next, changed + [changedPixels > MOTION_THRESHOLD],
                      if next.pc == InnerHead then lastTick else taken - 1,
                      if next.isStartup then NO_SYNC else taken - 1, taken)
  {
    LastDetectionStep(changed, changedPixels > MOTION_THRESHOLD, lastTick);
  }

  lemma SynchroniseStep(p: Processing, taken: nat, current: Frame, last: Frame, changedPixels: int)
    requires p.isStartup && p.pc == Got && taken >= 2
    requires StartupOk(p, NO_SYNC, [], taken)
    ensures var next := Synchronise(p.(framesTillSelection := p.framesTillSelection + 1), current, last, changedPixels);
            var syncFrame := if next.isStartup then NO_SYNC else taken - 1;
            StartupOk(next, syncFrame, [], taken) && SelectionOk(next, syncFrame, [], taken)
  {
    MotionProgress(p.motion, changedPixels > MOTION_THRESHOLD);
  }

  /** Each frame is at most one step into a tick; a detection is the 14th. */
  lemma MotionProgress(m: Motion, changed: bool)
    requires Sane(m)
    ensures var (next, verdict) := Next(m, changed);
            && Sane(next)
            && (if verdict == Detected then Progress(m) == 13 && Progress(next) == 0
                else Progress(next) <= Progress(m) + 1)
  {
  }

  lemma SkippedFrameStep(st: State, log: Log, changedPixels: int)
    requires Inv(st, log) && Enabled(st, ProcessingFrame(changedPixels))
    requires st.processing.last != -1 && !st.processing.isStartup && !Selects(st.processing)
    ensures var a := ProcessingFrame(changedPixels);
            var next := Do(st, a); Inv(next, Observe(st, log, a, next))
  {
    UnchosenStep(st, log, changedPixels);
  }

  lemma ChosenEffect(st: State, log: Log, changedPixels: int)
    requires Allocated(st) && Enabled(st, ProcessingFrame(changedPixels))
    requires Selects(st.processing)
    ensures var p := st.processing;
            var frame := st.scanBuffer[p.current];
            var next := Do(st, ProcessingFrame(changedPixels));
            && next == st.(processing := p.(pc := Chosen, framesTillSelection := MOTION_FRAMES_SEC),
                           woBuffers := st.woBuffers[p.woIndex := frame])
            && Observe(st, log, ProcessingFrame(changedPixels), next)
               == log.(chosen := log.chosen + [log.taken - 1], picked := log.picked + [frame])
  {
  }

  /** The parts of the invariant that choosing a frame touches. */
  lemma ChosenParts(st: State, log: Log)
    requires Inv(st, log) && st.processing.pc == Got && Selects(st.processing)
    requires |st.writeoutQ.msgs| + HeldWo(st.writer) < NUM_WO_BUF
    ensures Slot(st.processing.current, SCAN_BUF_SIZE) && Slot(st.processing.woIndex, NUM_WO_BUF)
    ensures var p := st.processing.(pc := Chosen, framesTillSelection := MOTION_FRAMES_SEC);
            var frame := st.scanBuffer[p.current];
            && SelectionOk(p, log.syncFrame, log.chosen + [log.taken - 1], log.taken)
            && PickedOk(log.captured, log.chosen + [log.taken - 1], log.picked + [frame])
            && WoRingOk(st.woBuffers[p.woIndex := frame], p, log.picked + [frame], log.posted)
            && WriteoutQOk(st.writeoutQ, st.writer, |log.picked + [frame]|, log.posted, log.fetched)
            && WriterOk(st.writer, st.output, log.picked + [frame], log.fetched)
  {
    HeldFrames(st, log);
    Ring.ShowsStep(st.woBuffers, log.picked, st.scanBuffer[st.processing.current]);
    ChosenSelection(st.processing, log.syncFrame, log.chosen, log.taken);
    PickedAppend(log.captured, log.chosen, log.picked, log.taken - 1);
  }

  lemma ChosenFrameStep(st: State, log: Log, changedPixels: int)
    requires Inv(st, log) && Enabled(st, ProcessingFrame(changedPixels)) && Room(st, ProcessingFrame(changedPixels))
    requires Selects(st.processing)
    ensures var a := ProcessingFrame(changedPixels);
            var next := Do(st, a); Inv(next, Observe(st, log, a, next))
  {
    ChosenParts(st, log);
    ChosenEffect(st, log, changedPixels);
  }

  lemma PickedAppend(captured: seq<Frame>, chosen: seq<int>, picked: seq<Frame>, k: nat)
    requires PickedOk(captured, chosen, picked) && k < |captured|
    ensures PickedOk(captured, chosen + [k], picked + [captured[k]])
  {
  }

  lemma ChosenSelection(p: Processing, syncFrame: int, chosen: seq<int>, taken: nat)
    requires SelectionOk(p, syncFrame, chosen, taken) && !p.isStartup && p.pc == Got
    requires p.framesTillSelection + 1 == MOTION_FRAMES_SEC
    ensures SelectionOk(p.(pc := Chosen, framesTillSelection := MOTION_FRAMES_SEC),
                        syncFrame, chosen + [taken - 1], taken)
  {
  }

  lemma ProcessingSendStep(st: State, log: Log)
    requires Inv(st, log) && Enabled(st, ProcessingSend)
    ensures var next := Do(st, ProcessingSend); Inv(next, Observe(st, log, ProcessingSend, next))
  {
    Ring.WrapIndex(log.posted, NUM_WO_BUF);
  }

  // ----- Every step, every run

  lemma StepKeepsInv(st: State, log: Log, a: Action)
    requires Inv(st, log) && Enabled(st, a) && Room(st, a)
    ensures Inv(Do(st, a), Observe(st, log, a, Do(st, a)))
  {
    match a {
      case CaptureCheck => CaptureCheckStep(st, log);
      case CaptureCopy(image, time) => CaptureCopyStep(st, log, image, time);
      case CaptureSend => CaptureSendStep(st, log);
      case ProcessingCheck => ProcessingControlStep(st, log, a);
      case ProcessingEnter => ProcessingControlStep(st, log, a);
      case ProcessingReceive => ProcessingReceiveStep(st, log);
      case ProcessingFrame(changedPixels) => ProcessingFrameStep(st, log, changedPixels);
      case ProcessingSend => ProcessingSendStep(st, log);
      case WriterCheck => WriterControlStep(st, log, a);
      case WriterEnter => WriterControlStep(st, log, a);
      case WriterReceive => WriterReceiveStep(st, log);
      case WriterWrite => WriterWriteStep(st, log);
      case Stop => WriterControlStep(st, log, a);
    }
  }

  lemma ProcessingFrameStep(st: State, log: Log, changedPixels: int)
    requires Inv(st, log) && Enabled(st, ProcessingFrame(changedPixels)) && Room(st, ProcessingFrame(changedPixels))
    ensures var a := ProcessingFrame(changedPixels);
            Inv(Do(st, a), Observe(st, log, a, Do(st, a)))
  {
    var p := st.processing;
    if p.last == -1 {
      FirstFrameStep(st, log, changedPixels);
    } else if p.isStartup {
      StartupFrameStep(st, log, changedPixels);
    } else if Selects(p) {
      ChosenFrameStep(st, log, changedPixels);
    } else {
      SkippedFrameStep(st, log, changedPixels);
    }
  }

  /** An interleaving the threads can take from st, every copy finding room. */
  ghost predicate Runs(st: State, actions: seq<Action>)
    decreases |actions|
  {
    Allocated(st) &&
    (actions == [] ||
      (Enabled(st, actions[0]) && Room(st, actions[0]) && Runs(Do(st, actions[0]), actions[1..])))
  }

  /** The state and the record after an interleaving. */
  ghost function After(st: State, log: Log, actions: seq<Action>): (State, Log)
    requires Runs(st, actions)
    decreases |actions|
  {
    if actions == [] then (st, log)
    else
      var next := Do(st, actions[0]);
      After(next, Observe(st, log, actions[0], next), actions[1..])
  }

  lemma {:induction false} RunKeepsInv(st: State, log: Log, actions: seq<Action>) returns (end: State, record: Log)
    requires Inv(st, log) && Runs(st, actions)
    ensures (end, record) == After(st, log, actions) && Inv(end, record)
    decreases |actions|
  {
    if actions == [] {
      end, record := st, log;
    } else {
      StepKeepsInv(st, log, actions[0]);
      var next := Do(st, actions[0]);
      end, record := RunKeepsInv(next, Observe(st, log, actions[0], next), actions[1..]);
    }
  }

  // ----- Ring safety, and what the bound is worth

  /** Slot i is queued for the processing thread or held by it. */
  predicate InUse(q: MessageQueue.Queue, p: Processing, i: int) {
    i in q.msgs || (p.last != -1 && i == p.last) || ((p.pc == Got || p.pc == Chosen) && i == p.current)
  }

  /** Every slot in use belongs to one of the newest positions taken or queued. */
  lemma InUsePosition(st: State, log: Log, i: int) returns (n: nat)
    requires Inv(st, log) && InUse(st.frameQ, st.processing, i)
    ensures log.taken - HeldScan(st.processing) <= n < log.sent && i == n % SCAN_BUF_SIZE
  {
    var q, p := st.frameQ, st.processing;
    if i in q.msgs {
      var j :| 0 <= j < |q.msgs| && q.msgs[j] == i;
      n := log.taken + j;
    } else if p.last != -1 && i == p.last {
      n := if p.pc == Got || p.pc == Chosen then log.taken - 2 else log.taken - 1;
    } else {
      n := log.taken - 1;
    }
  }

  /** The oldest position in use does hold its slot. */
  lemma OldestInUse(st: State, log: Log, i: int)
    requires Inv(st, log) && log.taken - HeldScan(st.processing) < log.sent
    requires i == (log.taken - HeldScan(st.processing)) % SCAN_BUF_SIZE
    ensures InUse(st.frameQ, st.processing, i)
  {
    if HeldScan(st.processing) == 0 {
      assert st.frameQ.msgs[0] == log.taken % SCAN_BUF_SIZE;
    }
  }

  /** A lap back is the same slot. */
  lemma LapBack(n: int, size: int)
    requires size >= 1
    ensures (n - size) % size == n % size
  {
    var q, r := Arith.DivMod(n, size);
    assert (q - 1) * size == q * size - size;
    Arith.DivModUnique(n - size, size, q - 1, r);
  }

  lemma NoRoomInUse(st: State, log: Log)
    requires Inv(st, log) && log.sent - (log.taken - HeldScan(st.processing)) == SCAN_BUF_SIZE
    ensures InUse(st.frameQ, st.processing, st.capture.scanIndex)
  {
    LapBack(log.sent, SCAN_BUF_SIZE);
    OldestInUse(st, log, st.capture.scanIndex);
  }

  /** The copy overwrites a slot in use exactly when it finds no room. */
  lemma CopyOverwritesExactly(st: State, log: Log, image: seq<int>, time: Stamp)
    requires Inv(st, log) && Enabled(st, CaptureCopy(image, time))
    ensures InUse(st.frameQ, st.processing, st.capture.scanIndex) == !Room(st, CaptureCopy(image, time))
  {
    var used := InUse(st.frameQ, st.processing, st.capture.scanIndex);
    if used {
      InUseFillsRing(st, log);
    } else if |st.frameQ.msgs| + HeldScan(st.processing) >= SCAN_BUF_SIZE {
      NoRoomInUse(st, log);
    }
    assert Room(st, CaptureCopy(image, time)) == !used;
  }

  lemma InUseFillsRing(st: State, log: Log)
    requires Inv(st, log) && InUse(st.frameQ, st.processing, st.capture.scanIndex)
    ensures log.sent - (log.taken - HeldScan(st.processing)) >= SCAN_BUF_SIZE
  {
    var n := InUsePosition(st, log, st.capture.scanIndex);
    if log.sent - n < SCAN_BUF_SIZE {
      Ring.SlotsDiffer(n, log.sent, SCAN_BUF_SIZE);
    }
  }

  // ----- A run that fills the scan ring

  /** k frames captured and queued, the processing thread still at its first loop test. */
  ghost predicate OnlyCaptured(st: State, pc: CapturePc, k: nat) {
    && Allocated(st) && st.running
    && st.capture.pc == pc && Slot(st.capture.scanIndex, SCAN_BUF_SIZE)
    && st.processing.pc == OuterHead && st.processing.last == -1
    && st.frameQ.count == |st.frameQ.msgs| == k
  }

  /** n captures, and the loop test of one more. */
  function Captures(n: nat): seq<Action> {
    if n == 0 then [CaptureCheck]
    else [CaptureCheck] + ([CaptureCopy([], Stamp(0, 0))] + ([CaptureSend] + Captures(n - 1)))
  }

  lemma RunsCons(st: State, log: Log, a: Action, rest: seq<Action>)
    requires Allocated(st) && Enabled(st, a) && Room(st, a) && Runs(Do(st, a), rest)
    ensures Runs(st, [a] + rest)
    ensures After(st, log, [a] + rest) == After(Do(st, a), Observe(st, log, a, Do(st, a)), rest)
  {
    assert ([a] + rest)[1..] == rest;
  }

  lemma OneCapture(st: State, k: nat)
    requires OnlyCaptured(st, CaptureHead, k) && k < SCAN_BUF_SIZE
    ensures var copy := CaptureCopy([], Stamp(0, 0));
            var ready := Do(st, CaptureCheck);
            Enabled(ready, copy) && Room(ready, copy) && Enabled(Do(ready, copy), CaptureSend)
            && OnlyCaptured(Do(Do(ready, copy), CaptureSend), CaptureHead, k + 1)
  {
  }

  /** One whole capture ahead of a run is a run. */
  lemma CaptureAhead(st: State, log: Log, k: nat, rest: seq<Action>) returns (sent: State, record: Log)
    requires OnlyCaptured(st, CaptureHead, k) && k < SCAN_BUF_SIZE
    ensures OnlyCaptured(sent, CaptureHead, k + 1)
    ensures var all := [CaptureCheck] + ([CaptureCopy([], Stamp(0, 0))] + ([CaptureSend] + rest));
            Runs(sent, rest) ==> Runs(st, all) && After(st, log, all) == After(sent, record, rest)
  {
    OneCapture(st, k);
    var copy := CaptureCopy([], Stamp(0, 0));
    var ready := Do(st, CaptureCheck);
    var copied := Do(ready, copy);
    var logged := Observe(ready, log, copy, copied);
    sent := Do(copied, CaptureSend);
    record := Observe(copied, logged, CaptureSend, sent);
    if Runs(sent, rest) {
      RunsCons(copied, logged, CaptureSend, rest);
      RunsCons(ready, log, copy, [CaptureSend] + rest);
      RunsCons(st, log, CaptureCheck, [copy] + ([CaptureSend] + rest));
    }
  }

  lemma {:induction false} CapturesRun(st: State, log: Log, k: nat, n: nat, total: nat)
    requires OnlyCaptured(st, CaptureHead, k) && k + n == total <= SCAN_BUF_SIZE
    ensures Runs(st, Captures(n)) && OnlyCaptured(After(st, log, Captures(n)).0, CaptureReady, total)
    decreases n
  {
    if n == 0 {
      RunsCons(st, log, CaptureCheck, []);
    } else {
      var sent, record := CaptureAhead(st, log, k, Captures(n - 1));
      CapturesRun(sent, record, k + 1, n - 1, total);
    }
  }

  lemma FullRingInUse(st: State, log: Log)
    requires Inv(st, log) && OnlyCaptured(st, CaptureReady, SCAN_BUF_SIZE)
    ensures |log.captured| == SCAN_BUF_SIZE && st.capture.scanIndex in st.frameQ.msgs
    ensures Enabled(st, CaptureCopy([], Stamp(0, 0))) && !Room(st, CaptureCopy([], Stamp(0, 0)))
  {
    CopyOverwritesExactly(st, log, [], Stamp(0, 0));
  }

  lemma CapturesFromStart(st: State, n: nat) returns (actions: seq<Action>)
    requires InitialState(st) && n <= SCAN_BUF_SIZE
    ensures Runs(st, actions) && OnlyCaptured(After(st, START_LOG, actions).0, CaptureReady, n)
  {
    actions := Captures(n);
    CapturesRun(st, START_LOG, 0, n, n);
  }

  /** The bound is needed: from every start, ninety captures that the processing thread does
      not keep up with lead, each with room, to one that overwrites a queued slot. */
  lemma RingCanFill(st: State) returns (actions: seq<Action>, end: State, log: Log)
    requires InitialState(st)
    ensures Runs(st, actions) && (end, log) == After(st, START_LOG, actions)
    ensures |log.captured| == 90 && end.capture.scanIndex in end.frameQ.msgs
    ensures Enabled(end, CaptureCopy([], Stamp(0, 0))) && !Room(end, CaptureCopy([], Stamp(0, 0)))
  {
    actions := CapturesFromStart(st, SCAN_BUF_SIZE);
    InitialInv(st);
    end, log := RunKeepsInv(st, START_LOG, actions);
    FullRingInUse(end, log);
  }

  /** Slot i is queued for the writer or being written. */
  predicate InUseWo(q: MessageQueue.Queue, w: Writer, i: int) {
    i in q.msgs || (w.pc == WriterGot && w.woIndex == i)
  }

  lemma RoomWoNotInUse(q: MessageQueue.Queue, w: Writer, posted: nat, fetched: nat, i: int)
    requires fetched + |q.msgs| == posted && Consecutive(q.msgs, fetched, NUM_WO_BUF)
    requires w.pc == WriterGot ==> fetched >= 1 && w.woIndex == (fetched - 1) % NUM_WO_BUF
    requires |q.msgs| + HeldWo(w) < NUM_WO_BUF && i == posted % NUM_WO_BUF
    ensures !InUseWo(q, w, i)
  {
    NotQueuedAhead(q.msgs, fetched, NUM_WO_BUF, posted);
    if HeldWo(w) == 1 {
      Ring.SlotsDiffer(fetched - 1, posted, NUM_WO_BUF);
    }
  }

  lemma NoRoomWoInUse(q: MessageQueue.Queue, w: Writer, posted: nat, fetched: nat, i: int)
    requires fetched + |q.msgs| == posted && Consecutive(q.msgs, fetched, NUM_WO_BUF)
    requires w.pc == WriterGot ==> fetched >= 1 && w.woIndex == (fetched - 1) % NUM_WO_BUF
    requires |q.msgs| + HeldWo(w) == NUM_WO_BUF && i == posted % NUM_WO_BUF
    ensures InUseWo(q, w, i)
  {
    LapBack(posted, NUM_WO_BUF);
    if HeldWo(w) == 0 {
      assert q.msgs[0] == i;
    }
  }

  /** The same for the second ring: choosing a frame overwrites a slot that is queued or
      being written exactly when it finds no room. */
  lemma SelectionOverwritesExactly(st: State, log: Log, changedPixels: int)
    requires Inv(st, log) && Enabled(st, ProcessingFrame(changedPixels)) && Selects(st.processing)
    ensures InUseWo(st.writeoutQ, st.writer, st.processing.woIndex) == !Room(st, ProcessingFrame(changedPixels))
  {
    if Room(st, ProcessingFrame(changedPixels)) {
      RoomWoNotInUse(st.writeoutQ, st.writer, log.posted, log.fetched, st.processing.woIndex);
    } else {
      NoRoomWoInUse(st.writeoutQ, st.writer, log.posted, log.fetched, st.processing.woIndex);
    }
    var used := InUseWo(st.writeoutQ, st.writer, st.processing.woIndex);
    assert Room(st, ProcessingFrame(changedPixels)) == !used;
  }

  /** The next position, less than a lap ahead of the queue, is not queued. */
  lemma NotQueuedAhead(msgs: seq<int>, first: nat, size: int, n: nat)
    requires size >= 1 && Consecutive(msgs, first, size) && n == first + |msgs| && |msgs| < size
    ensures n % size !in msgs
  {
    forall j | 0 <= j < |msgs| ensures msgs[j] != n % size {
      Ring.SlotsDiffer(first + j, n, size);
    }
  }

  /** Queue and ring agree in every reachable state: the queued slots are consecutive and
      end just before the producer's index, the counter is the length less the one receiver
      that is inside, and what the consumer holds is not queued any more. */
  lemma QueuesAgree(st: State, log: Log)
    requires Inv(st, log)
    ensures forall j :: 0 <= j < |st.frameQ.msgs| ==>
              && Slot(st.frameQ.msgs[j], 90)
              && (st.frameQ.msgs[j] + (|st.frameQ.msgs| - j)) % 90 == st.capture.scanIndex
    ensures forall j :: 0 <= j < |st.writeoutQ.msgs| ==>
              && Slot(st.writeoutQ.msgs[j], 100)
              && (st.writeoutQ.msgs[j] + (|st.writeoutQ.msgs| - j)) % 100 == st.processing.woIndex
    ensures st.frameQ.count == |st.frameQ.msgs| - (if st.processing.pc == Waiting then 1 else 0)
    ensures st.writeoutQ.count == |st.writeoutQ.msgs| - (if st.writer.pc == WriterWaiting then 1 else 0)
    ensures st.processing.last != -1 ==> st.processing.last !in st.frameQ.msgs
    ensures st.processing.pc == Got || st.processing.pc == Chosen ==> st.processing.current !in st.frameQ.msgs
    ensures st.writer.pc == WriterGot ==> st.writer.woIndex !in st.writeoutQ.msgs
  {
    AgreeWithIndex(st.frameQ.msgs, log.taken, log.sent, SCAN_BUF_SIZE);
    AgreeWithIndex(st.writeoutQ.msgs, log.fetched, log.posted, NUM_WO_BUF);
    var p, w := st.processing, st.writer;
    if p.last != -1 {
      NotQueued(st.frameQ.msgs, log.taken, SCAN_BUF_SIZE, log.taken - HeldScan(p));
    }
    if p.pc == Got || p.pc == Chosen {
      NotQueued(st.frameQ.msgs, log.taken, SCAN_BUF_SIZE, log.taken - 1);
    }
    if w.pc == WriterGot {
      NotQueued(st.writeoutQ.msgs, log.fetched, NUM_WO_BUF, log.fetched - 1);
    }
  }

  lemma AgreeWithIndex(msgs: seq<int>, first: nat, sent: nat, size: int)
    requires size >= 1 && Consecutive(msgs, first, size) && first + |msgs| == sent
    ensures forall j :: 0 <= j < |msgs| ==> (msgs[j] + (|msgs| - j)) % size == sent % size
  {
    forall j | 0 <= j < |msgs| ensures (msgs[j] + (|msgs| - j)) % size == sent % size {
      RestCounts(first + j, sent, size);
    }
  }

  lemma RestCounts(n: nat, sent: nat, size: int)
    requires size >= 1 && n <= sent
    ensures (n % size + (sent - n)) % size == sent % size
  {
    var q, r := Arith.DivMod(n, size);
    var q', r' := Arith.DivMod(sent, size);
    assert (q' - q) * size == q' * size - q * size;
    Arith.DivModUnique(n % size + (sent - n), size, q' - q, r');
  }

  /** A position just before the queue, less than a lap behind its end, is not queued. */
  lemma NotQueued(msgs: seq<int>, first: nat, size: int, n: nat)
    requires size >= 1 && Consecutive(msgs, first, size) && n < first && first + |msgs| - n <= size
    ensures n % size !in msgs
  {
    forall j | 0 <= j < |msgs| ensures msgs[j] != n % size {
      Ring.SlotsDiffer(n, first + j, size);
    }
  }

  /** The drift check can freeze the system only in the very step that ends the startup, and
      does so exactly when the frame that ends it is not 22 .. 28 frames after the detection
      before, read off the frame history. */
  lemma FreezeOnlyAtSync(st: State, log: Log, a: Action)
    requires Inv(st, log) && Enabled(st, a) && !st.freezeSystem
    ensures st.processing.isStartup ==> LastDetection(log.changed, log.lastTick)
    ensures var next := Do(st, a);
            next.freezeSystem <==>
              && a.ProcessingFrame? && st.processing.isStartup && !next.processing.isStartup
              && !(22 <= log.taken - 1 - log.lastTick <= 28)
  {
  }

  /** The frame that ends the startup is a detection of its history, and the record keeps it:
      whatever is written later, it counts from a detected frame. */
  lemma SyncIsDetection(st: State, log: Log)
    requires Inv(st, log) && !st.processing.isStartup
    ensures log.syncFrame == |log.changed| >= 70 && DetectedAt(log.changed, log.syncFrame - 1)
    ensures TickBegins(log.changed, log.syncFrame - 14)
            && Still(log.changed, log.syncFrame - 10, log.syncFrame)
  {
    DetectionExact(log.changed, log.syncFrame - 1);
  }
}
