/** The loop bodies of frame.c, processing.c (1 Hz build) and writeout.c over their shared
    buffers, cut into the atomic steps of module Pipeline and proved to perform them. */
module PipelineThreads {
  import opened TimeTools
  import MotionDetection
  import MessageQueue
  import opened Pipeline
  import opened PipelineSafety
  import opened PipelineReport

  class Synchronome {
    const scanBuffer: array<Frame>
    const woBuffers: array<Frame>
    const frameQ: MessageQueue.QueueContainer
    const writeoutQ: MessageQueue.QueueContainer
    const detector: MotionDetection.Detector

    var running: bool
    var freezeSystem: bool
    var output: seq<Frame>

    // frame()
    var capturePc: CapturePc
    var scanBufferIndex: int
    var frameId: int

    // processing()
    var processingPc: ProcessingPc
    var currentIndex: int
    var lastBufferIndex: int
    var isStartup: bool
    var startupFramesIgnore: int
    var framesTillSelection: int
    var woBufferIndex: int
    var totalFramesSelected: int

    // writeout()
    var writerPc: WriterPc
    var woIndex: int
    var totalFramesWritten: int

    ghost predicate Valid() {
      && scanBuffer.Length == SCAN_BUF_SIZE && woBuffers.Length == NUM_WO_BUF
      && scanBuffer != woBuffers && frameQ != writeoutQ
      && frameQ.numElems == SCAN_BUF_SIZE && writeoutQ.numElems == NUM_WO_BUF
    }

    ghost function Model(): State
      reads this, scanBuffer, woBuffers, frameQ, writeoutQ, detector
    {
      State(running, freezeSystem, scanBuffer[..], frameQ.Value(), woBuffers[..], writeoutQ.Value(),
            Capture(capturePc, scanBufferIndex, frameId),
            Processing(processingPc, currentIndex, lastBufferIndex, detector.Value(), isStartup,
                       startupFramesIgnore, framesTillSelection, woBufferIndex, totalFramesSelected),
            Writer(writerPc, woIndex, totalFramesWritten),
            output)
    }

    /** The buffers are allocated with whatever they hold. */
    constructor (scanBuffer: array<Frame>, woBuffers: array<Frame>)
      requires scanBuffer.Length == SCAN_BUF_SIZE && woBuffers.Length == NUM_WO_BUF && scanBuffer != woBuffers
      ensures Valid() && this.scanBuffer == scanBuffer && this.woBuffers == woBuffers
      ensures InitialState(Model())
    {
      this.scanBuffer, this.woBuffers := scanBuffer, woBuffers;
      frameQ := new MessageQueue.QueueContainer(SCAN_BUF_SIZE);
      writeoutQ := new MessageQueue.QueueContainer(NUM_WO_BUF);
      detector := new MotionDetection.Detector();
      running, freezeSystem, output := true, false, [];
      capturePc, scanBufferIndex, frameId := CaptureHead, 0, 0;
      processingPc, currentIndex, lastBufferIndex := OuterHead, 0, -1;
      isStartup, startupFramesIgnore, framesTillSelection := true, 0, 0;
      woBufferIndex, totalFramesSelected := 0, 0;
      writerPc, woIndex, totalFramesWritten := WriterHead, 0, 0;
    }

    // ----- frame()

    method CheckRunningInCapture()
      requires Valid() && Enabled(Model(), CaptureCheck)
      modifies `capturePc
      ensures Model() == Do(old(Model()), CaptureCheck)
    {
      capturePc := if running then CaptureReady else CaptureExit;
    }

    method CopyCaptured(image: seq<int>, time: Stamp)
      requires Valid() && Enabled(Model(), CaptureCopy(image, time))
      modifies `capturePc, `frameId, scanBuffer
      ensures Model() == Do(old(Model()), CaptureCopy(image, time))
    {
      scanBuffer[scanBufferIndex] := Frame(image, time, frameId);
      frameId := frameId + 1;
      capturePc := CaptureCopied;
    }

    method SendCaptured()
      requires Valid() && Enabled(Model(), CaptureSend)
      modifies `capturePc, `scanBufferIndex, `running, frameQ
      ensures Model() == Do(old(Model()), CaptureSend)
    {
      var ret := frameQ.EnqueueP(scanBufferIndex);
      if ret == -1 {
        running := false;
        capturePc := CaptureExit;
      } else {
        scanBufferIndex := scanBufferIndex + 1;
        if scanBufferIndex == SCAN_BUF_SIZE {
          scanBufferIndex := 0;
        }
        capturePc := CaptureHead;
      }
    }

    // ----- processing()

    method CheckRunningInProcessing()
      requires Valid() && Enabled(Model(), ProcessingCheck)
      modifies `processingPc
      ensures Model() == Do(old(Model()), ProcessingCheck)
    {
      processingPc := if running then InnerHead else ProcessingExit;
    }

    method EnterDequeue()
      requires Valid() && Enabled(Model(), ProcessingEnter)
      modifies `processingPc, frameQ
      ensures Model() == Do(old(Model()), ProcessingEnter)
    {
      frameQ.DequeueEnter();
      processingPc := Waiting;
    }

    method ReceiveFrame()
      requires Valid() && Enabled(Model(), ProcessingReceive)
      modifies `processingPc, `currentIndex, frameQ
      ensures Model() == Do(old(Model()), ProcessingReceive)
    {
      currentIndex := frameQ.DequeueReceive();
      processingPc := Got;
    }

    /** After the inner loop. */
    method Leave()
      requires Valid()
      modifies `processingPc, `framesTillSelection, `freezeSystem
      ensures Model() == FinishInner(old(Model()), LeaveInner(old(Model()).processing))
    {
      if isStartup {
        framesTillSelection := 0;
        processingPc := OuterHead;
        return;
      }
      if framesTillSelection > MOTION_FRAMES_SEC + MOTION_FRAMES_DRIFT
        || framesTillSelection < MOTION_FRAMES_SEC - MOTION_FRAMES_DRIFT
      {
        freezeSystem := true;
        processingPc := Frozen;
        return;
      }
      framesTillSelection := 0;
      processingPc := OuterHead;
    }

    method StampsInStep(current: Stamp, last: Stamp) returns (inStep: bool)
      ensures inStep <==> !Negative(current, last) && Difference(current, last).sec == 0
                          && Difference(current, last).nsec < SYNC_JITTER_NS
    {
      var timeDiff := new Timespec(Stamp(0, 0));
      var currentStamp := new Timespec(current);
      var lastStamp := new Timespec(last);
      var negative := TimespecSubtract(timeDiff, currentStamp, lastStamp);
      inStep := !negative && timeDiff.tv_sec == 0 && timeDiff.tv_nsec < SYNC_JITTER_NS;
    }

    /** One more detection in step, the fifth of which ends the startup, or a fresh start. */
    method CountDetection(inStep: bool)
      requires Valid() && isStartup
      modifies `lastBufferIndex, `isStartup, `startupFramesIgnore
      ensures var p := old(Model()).processing;
              var count := if inStep then p.startupFramesIgnore + 1 else 0;
              Model() == old(Model()).(processing :=
                p.(last := p.current, startupFramesIgnore := count, isStartup := count != MOTION_SELECTIONS_IGNORE))
    {
      if inStep {
        startupFramesIgnore := startupFramesIgnore + 1;
        if startupFramesIgnore == MOTION_SELECTIONS_IGNORE {
          isStartup := false;
        }
      } else {
        startupFramesIgnore := 0;
      }
      lastBufferIndex := currentIndex;
    }

    /** A frame before the sync: a detection ends the inner loop, in step or not. */
    method StartupFrame(changedPixels: int)
      requires Valid() && isStartup
      requires Slot(currentIndex, SCAN_BUF_SIZE) && Slot(lastBufferIndex, SCAN_BUF_SIZE)
      modifies `processingPc, `lastBufferIndex, `isStartup, `startupFramesIgnore, `framesTillSelection,
               `freezeSystem, detector
      ensures Model() == FinishInner(old(Model()),
                Synchronise(old(Model()).processing, old(scanBuffer[currentIndex]), old(scanBuffer[lastBufferIndex]),
                            changedPixels))
    {
      var didFrameTick := detector.IsMotion(changedPixels);
      if didFrameTick == MotionDetection.Detected {
        var inStep := StampsInStep(scanBuffer[currentIndex].time, scanBuffer[lastBufferIndex].time);
        CountDetection(inStep);
        Leave();
      } else {
        lastBufferIndex := currentIndex;
        processingPc := InnerHead;
      }
    }

    method ProcessFrame(changedPixels: int)
      requires Valid() && Enabled(Model(), ProcessingFrame(changedPixels))
      modifies `processingPc, `lastBufferIndex, `isStartup, `startupFramesIgnore, `framesTillSelection,
               `freezeSystem, woBuffers, detector
      ensures Model() == Do(old(Model()), ProcessingFrame(changedPixels))
    {
      if lastBufferIndex == -1 {
        lastBufferIndex := currentIndex;
        Leave();
        return;
      }
      framesTillSelection := framesTillSelection + 1;
      if isStartup {
        StartupFrame(changedPixels);
      } else if framesTillSelection == MOTION_FRAMES_SEC {
        woBuffers[woBufferIndex] := scanBuffer[currentIndex];
        processingPc := Chosen;
      } else {
        lastBufferIndex := currentIndex;
        processingPc := InnerHead;
      }
    }

    method SendSelected()
      requires Valid() && Enabled(Model(), ProcessingSend)
      modifies `processingPc, `lastBufferIndex, `framesTillSelection, `woBufferIndex, `totalFramesSelected,
               `freezeSystem, writeoutQ
      ensures Model() == Do(old(Model()), ProcessingSend)
    {
      var _ := writeoutQ.EnqueueP(woBufferIndex);
      totalFramesSelected := totalFramesSelected + 1;
      woBufferIndex := woBufferIndex + 1;
      if woBufferIndex == NUM_WO_BUF {
        woBufferIndex := 0;
      }
      lastBufferIndex := currentIndex;
      Leave();
    }

    // ----- writeout()

    method CheckRunningInWriter()
      requires Valid() && Enabled(Model(), WriterCheck)
      modifies `writerPc
      ensures Model() == Do(old(Model()), WriterCheck)
    {
      writerPc := if running then WriterReady else WriterExit;
    }

    method EnterWriteoutDequeue()
      requires Valid() && Enabled(Model(), WriterEnter)
      modifies `writerPc, writeoutQ
      ensures Model() == Do(old(Model()), WriterEnter)
    {
      writeoutQ.DequeueEnter();
      writerPc := WriterWaiting;
    }

    method ReceiveSelected()
      requires Valid() && Enabled(Model(), WriterReceive)
      modifies `writerPc, `woIndex, writeoutQ
      ensures Model() == Do(old(Model()), WriterReceive)
    {
      woIndex := writeoutQ.DequeueReceive();
      writerPc := WriterGot;
    }

    method WriteFrame()
      requires Valid() && Enabled(Model(), WriterWrite)
      modifies `writerPc, `running, `totalFramesWritten, `output
      ensures Model() == Do(old(Model()), WriterWrite)
    {
      output := output + [woBuffers[woIndex]];
      totalFramesWritten := totalFramesWritten + 1;
      if totalFramesWritten == WRITEOUT_TOTAL_FRAMES {
        running := false;
        writerPc := WriterExit;
      } else {
        writerPc := WriterHead;
      }
    }

    // ----- The threads together

    /** One step of one thread, or a signal from outside. */
    method Perform(a: Action)
      requires Valid() && Enabled(Model(), a)
      modifies this, scanBuffer, woBuffers, frameQ, writeoutQ, detector
      ensures Model() == Do(old(Model()), a)
    {
      match a {
        case CaptureCheck => CheckRunningInCapture();
        case CaptureCopy(image, time) => CopyCaptured(image, time);
        case CaptureSend => SendCaptured();
        case ProcessingCheck => CheckRunningInProcessing();
        case ProcessingEnter => EnterDequeue();
        case ProcessingReceive => ReceiveFrame();
        case ProcessingFrame(changedPixels) => ProcessFrame(changedPixels);
        case ProcessingSend => SendSelected();
        case WriterCheck => CheckRunningInWriter();
        case WriterEnter => EnterWriteoutDequeue();
        case WriterReceive => ReceiveSelected();
        case WriterWrite => WriteFrame();
        case Stop => running := false;
      }
    }

    /** Any interleaving of the three loops from the start, each copy finding room: the
        files are every 25th frame after the sync, as captured, and nothing due is lost. */
    method RunThreads(actions: seq<Action>) returns (ghost log: Log)
      requires Valid() && InitialState(Model()) && Runs(Model(), actions)
      modifies this, scanBuffer, woBuffers, frameQ, writeoutQ, detector
      ensures (Model(), log) == After(old(Model()), START_LOG, actions)
      ensures EverySecondWritten(output, Shots(actions), log.syncFrame)
      ensures SyncsAt(actions, isStartup, log.syncFrame)
      ensures |output| <= 1801 && (|output| > 0 ==> log.syncFrame >= 78)
      ensures NothingLost(Model(), log) && AllWritten(Model(), log)
      ensures running <==> Stop !in actions && |output| < 1801
      ensures running ==> capturePc != CaptureExit && processingPc != ProcessingExit && writerPc != WriterExit
    {
      ghost var start := Model();
      log := START_LOG;
      for i := 0 to |actions|
        invariant Runs(Model(), actions[i..])
        invariant After(Model(), log, actions[i..]) == After(start, START_LOG, actions)
      {
        assert actions[i..][0] == actions[i] && actions[i..][1..] == actions[i + 1..];
        ghost var before := Model();
        Perform(actions[i]);
        log := Observe(before, log, actions[i], Model());
      }
      ghost var end, record := EndToEnd(start, actions);
    }
  }
}
