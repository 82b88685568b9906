/** The capture, processing and writeout threads of simple-capture in the default 1 Hz
    build, as one state and the atomic steps that the threads interleave. */
module Pipeline {
  import TimeTools
  import MotionDetection
  import MessageQueue

  const SCAN_BUF_SIZE := 90
  const NUM_WO_BUF := 100
  const MOTION_FRAMES_SEC := 25
  const MOTION_SELECTIONS_IGNORE := 5
  const MOTION_FRAMES_DRIFT := 3
  const WRITEOUT_TOTAL_FRAMES := 1801
  const SYNC_JITTER_NS := 80_000_000

  datatype Frame = Frame(image: seq<int>, time: TimeTools.Stamp, id: int)

  // ----- Thread-local state

  datatype CapturePc = CaptureHead | CaptureReady | CaptureCopied | CaptureExit
  datatype Capture = Capture(pc: CapturePc, scanIndex: int, frameId: int)

  datatype ProcessingPc =
    | OuterHead   // about to test running
    | InnerHead   // about to call dequeue_P
    | Waiting     // inside dequeue_P
    | Got         // holds current and last
    | Chosen      // copied a frame out, about to enqueue it
    | Frozen      // drift detected, spins forever
    | ProcessingExit

  datatype Processing = Processing(
    pc: ProcessingPc, current: int, last: int, motion: MotionDetection.Motion, isStartup: bool,
    startupFramesIgnore: int, framesTillSelection: int, woIndex: int, selected: int)

  datatype WriterPc = WriterHead | WriterReady | WriterWaiting | WriterGot | WriterExit
  datatype Writer = Writer(pc: WriterPc, woIndex: int, written: int)

  datatype State = State(
    running: bool, freezeSystem: bool,
    scanBuffer: seq<Frame>, frameQ: MessageQueue.Queue, woBuffers: seq<Frame>, writeoutQ: MessageQueue.Queue,
    capture: Capture, processing: Processing, writer: Writer,
    output: seq<Frame>)

  predicate Allocated(st: State) {
    |st.scanBuffer| == SCAN_BUF_SIZE && |st.woBuffers| == NUM_WO_BUF
  }

  ghost predicate InitialState(st: State) {
    && Allocated(st)
    && st.running && !st.freezeSystem && st.frameQ == MessageQueue.EMPTY && st.writeoutQ == MessageQueue.EMPTY
    && st.capture == Capture(CaptureHead, 0, 0)
    && st.processing == Processing(OuterHead, 0, -1, MotionDetection.QUIET, true, 0, 0, 0, 0)
    && st.writer == Writer(WriterHead, 0, 0)
    && st.output == []
  }

  // ----- Steps

  datatype Action =
    | CaptureCheck
    | CaptureCopy(image: seq<int>, time: TimeTools.Stamp)
    | CaptureSend
    | ProcessingCheck
    | ProcessingEnter
    | ProcessingReceive
    | ProcessingFrame(changedPixels: int)
    | ProcessingSend
    | WriterCheck
    | WriterEnter
    | WriterReceive
    | WriterWrite
    | Stop        // another thread or a signal clears running

  predicate Slot(i: int, size: int) {
    0 <= i < size
  }

  predicate Enabled(st: State, a: Action) {
    match a
    case CaptureCheck => st.capture.pc == CaptureHead
    case CaptureCopy(_, _) => st.capture.pc == CaptureReady && Slot(st.capture.scanIndex, SCAN_BUF_SIZE)
    case CaptureSend => st.capture.pc == CaptureCopied
    case ProcessingCheck => st.processing.pc == OuterHead
    case ProcessingEnter => st.processing.pc == InnerHead
    case ProcessingReceive => st.processing.pc == Waiting && |st.frameQ.msgs| >= 1
    case ProcessingFrame(_) =>
      && st.processing.pc == Got
      && Slot(st.processing.current, SCAN_BUF_SIZE)
      && (st.processing.last == -1 || Slot(st.processing.last, SCAN_BUF_SIZE))
      && Slot(st.processing.woIndex, NUM_WO_BUF)
    case ProcessingSend => st.processing.pc == Chosen
    case WriterCheck => st.writer.pc == WriterHead
    case WriterEnter => st.writer.pc == WriterReady
    case WriterReceive => st.writer.pc == WriterWaiting && |st.writeoutQ.msgs| >= 1
    case WriterWrite => st.writer.pc == WriterGot && Slot(st.writer.woIndex, NUM_WO_BUF)
    case Stop => true
  }

  function Advance(i: int, size: int): int {
    if i + 1 == size then 0 else i + 1
  }

  function DoCaptureSend(st: State): State {
    var (q, ok) := MessageQueue.Enqueue(st.frameQ, SCAN_BUF_SIZE, st.capture.scanIndex);
    if ok then
      st.(frameQ := q,
          capture := st.capture.(pc := CaptureHead, scanIndex := Advance(st.capture.scanIndex, SCAN_BUF_SIZE)))
    else
      st.(frameQ := q, capture := st.capture.(pc := CaptureExit), running := false)
  }

  /** After the inner loop: during startup count afresh, otherwise check the drift. */
  function LeaveInner(p: Processing): Processing {
    if p.isStartup then p.(pc := OuterHead, framesTillSelection := 0)
    else if p.framesTillSelection > MOTION_FRAMES_SEC + MOTION_FRAMES_DRIFT
         || p.framesTillSelection < MOTION_FRAMES_SEC - MOTION_FRAMES_DRIFT then p.(pc := Frozen)
    else p.(pc := OuterHead, framesTillSelection := 0)
  }

  /** A detection counts towards the sync only if it came within 80 ms of the frame before. */
  predicate InStep(current: Frame, last: Frame) {
    var diff := TimeTools.Difference(current.time, last.time);
    !TimeTools.Negative(current.time, last.time) && diff.sec == 0 && diff.nsec < SYNC_JITTER_NS
  }

  /** A frame during startup: run the motion machine, count detections towards the sync. */
  function Synchronise(p: Processing, current: Frame, last: Frame, changedPixels: int): Processing {
    var (motion, verdict) := MotionDetection.Next(p.motion, changedPixels > MotionDetection.MOTION_THRESHOLD);
    var p := p.(motion := motion, last := p.current);
    if verdict != MotionDetection.Detected then p.(pc := InnerHead)
    else if InStep(current, last) then
      var count := p.startupFramesIgnore + 1;
      LeaveInner(p.(startupFramesIgnore := count, isStartup := count != MOTION_SELECTIONS_IGNORE))
    else LeaveInner(p.(startupFramesIgnore := 0))
  }

  function DoProcessingFrame(st: State, changedPixels: int): State
    requires Allocated(st) && Enabled(st, ProcessingFrame(changedPixels))
  {
    var p := st.processing;
    if p.last == -1 then
      FinishInner(st, LeaveInner(p.(last := p.current)))
    else
      var p := p.(framesTillSelection := p.framesTillSelection + 1);
      if p.isStartup then
        FinishInner(st, Synchronise(p, st.scanBuffer[p.current], st.scanBuffer[p.last], changedPixels))
      else if p.framesTillSelection == MOTION_FRAMES_SEC then
        st.(processing := p.(pc := Chosen), woBuffers := st.woBuffers[p.woIndex := st.scanBuffer[p.current]])
      else
        st.(processing := p.(pc := InnerHead, last := p.current))
  }

  function FinishInner(st: State, p: Processing): State {
    st.(processing := p, freezeSystem := st.freezeSystem || p.pc == Frozen)
  }

  /** The enqueue's result is ignored here, unlike in the capture thread. */
  function DoProcessingSend(st: State): State {
    var p := st.processing;
    var (q, _) := MessageQueue.Enqueue(st.writeoutQ, NUM_WO_BUF, p.woIndex);
    var p := p.(selected := p.selected + 1, woIndex := Advance(p.woIndex, NUM_WO_BUF), last := p.current);
    FinishInner(st.(writeoutQ := q), LeaveInner(p))
  }

  function DoWriterWrite(st: State): State
    requires Allocated(st) && Enabled(st, WriterWrite)
  {
    var done := st.writer.written + 1 == WRITEOUT_TOTAL_FRAMES;
    st.(output := st.output + [st.woBuffers[st.writer.woIndex]],
        writer := st.writer.(written := st.writer.written + 1, pc := if done then WriterExit else WriterHead),
        running := st.running && !done)
  }

  function Do(st: State, a: Action): (next: State)
    requires Allocated(st) && Enabled(st, a)
    ensures Allocated(next)
  {
    match a
    case CaptureCheck =>
      st.(capture := st.capture.(pc := if st.running then CaptureReady else CaptureExit))
    case CaptureCopy(image, time) =>
      st.(scanBuffer := st.scanBuffer[st.capture.scanIndex := Frame(image, time, st.capture.frameId)],
          capture := st.capture.(pc := CaptureCopied, frameId := st.capture.frameId + 1))
    case CaptureSend => DoCaptureSend(st)
    case ProcessingCheck =>
      st.(processing := st.processing.(pc := if st.running then InnerHead else ProcessingExit))
    case ProcessingEnter =>
      st.(frameQ := MessageQueue.Enter(st.frameQ), processing := st.processing.(pc := Waiting))
    case ProcessingReceive =>
      var (q, i) := MessageQueue.Receive(st.frameQ);
      st.(frameQ := q, processing := st.processing.(pc := Got, current := i))
    case ProcessingFrame(changedPixels) => DoProcessingFrame(st, changedPixels)
    case ProcessingSend => DoProcessingSend(st)
    case WriterCheck =>
      st.(writer := st.writer.(pc := if st.running then WriterReady else WriterExit))
    case WriterEnter =>
      st.(writeoutQ := MessageQueue.Enter(st.writeoutQ), writer := st.writer.(pc := WriterWaiting))
    case WriterReceive =>
      var (q, i) := MessageQueue.Receive(st.writeoutQ);
      st.(writeoutQ := q, writer := st.writer.(pc := WriterGot, woIndex := i))
    case WriterWrite => DoWriterWrite(st)
    case Stop => st.(running := false)
  }
}
