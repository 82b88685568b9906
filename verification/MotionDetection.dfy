/** simple-capture/motion.c: the tick detector, a three-state machine over frames that did
    or did not change. */
module MotionDetection {

  const MOTION_BOOKEND_FRAMES := 3
  const MOTION_GOOD_FRAMES_THRESHOLD := 9
  const MOTION_THRESHOLD := 50

  datatype MotionState = Searching | Bookend | Counting

  datatype Verdict = None | Detected

  datatype Motion = Motion(state: MotionState, bookendFrames: int, goodFrames: int)

  const QUIET := Motion(Searching, 0, 0)

  /** What one frame does to the machine, and what the machine says. */
  function Next(m: Motion, changed: bool): (Motion, Verdict) {
    match m.state
    case Searching => (if changed then m.(state := Bookend) else m, None)
    case Bookend =>
      if m.bookendFrames + 1 == MOTION_BOOKEND_FRAMES then (m.(state := Counting, bookendFrames := 0), None)
      else (m.(bookendFrames := m.bookendFrames + 1), None)
    case Counting =>
      var good := if changed then 0 else m.goodFrames + 1;
      var state := if changed then Searching else Counting;
      if good > MOTION_GOOD_FRAMES_THRESHOLD then (m.(state := Searching, goodFrames := 0), Detected)
      else (m.(state := state, goodFrames := good), None)
  }

  class Detector {
    var motionState: MotionState
    var bookendFrames: int
    var goodFramesInARow: int

    function Value(): Motion
      reads this
    {
      Motion(motionState, bookendFrames, goodFramesInARow)
    }

    constructor ()
      ensures Value() == QUIET
    {
      motionState, bookendFrames, goodFramesInARow := Searching, 0, 0;
    }

    method NextMotionState(changed: bool) returns (verdict: Verdict)
      modifies this
      ensures (Value(), verdict) == Next(old(Value()), changed)
    {
      match motionState {
        case Searching =>
          if changed {
            motionState := Bookend;
          }
        case Bookend =>
          bookendFrames := bookendFrames + 1;
          if bookendFrames == MOTION_BOOKEND_FRAMES {
            bookendFrames := 0;
            motionState := Counting;
          }
        case Counting =>
          if !changed {
            goodFramesInARow := goodFramesInARow + 1;
          } else {
            motionState := Searching;
            goodFramesInARow := 0;
          }
          if goodFramesInARow > MOTION_GOOD_FRAMES_THRESHOLD {
            motionState := Searching;
            goodFramesInARow := 0;
            return Detected;
          }
      }
      return None;
    }

    method IsMotion(count: int) returns (verdict: Verdict)
      modifies this
      ensures (Value(), verdict) == Next(old(Value()), count > MOTION_THRESHOLD)
    {
      verdict := NextMotionState(count > MOTION_THRESHOLD);
    }
  }

  // ----- The machine over a history of frames

  /** The state before frame n. */
  function Before(changed: seq<bool>, n: nat): Motion
    requires n <= |changed|
  {
    if n == 0 then QUIET else Next(Before(changed, n - 1), changed[n - 1]).0
  }

  predicate DetectedAt(changed: seq<bool>, n: nat)
    requires n < |changed|
  {
    Next(Before(changed, n), changed[n]).1 == Detected
  }

  /** The frames from a up to b did not change. */
  predicate Still(changed: seq<bool>, a: int, b: int)
    requires 0 <= a && b <= |changed|
  {
    forall k :: a <= k < b ==> !changed[k]
  }

  /** Frame a changed while the machine was searching: a tick of the watch begins. */
  predicate TickBegins(changed: seq<bool>, a: int)
    requires 0 <= a < |changed|
  {
    Before(changed, a) == QUIET && changed[a]
  }

  /** How many frames into a tick the machine is. */
  function Progress(m: Motion): int {
    match m.state
    case Searching => 0
    case Bookend => 1 + m.bookendFrames
    case Counting => 1 + MOTION_BOOKEND_FRAMES + m.goodFrames
  }

  ghost predicate Sane(m: Motion) {
    match m.state
    case Searching => m == QUIET
    case Bookend => 0 <= m.bookendFrames < MOTION_BOOKEND_FRAMES && m.goodFrames == 0
    case Counting => m.bookendFrames == 0 && 0 <= m.goodFrames <= MOTION_GOOD_FRAMES_THRESHOLD
  }

  /** The state names its own history: when the tick began and what was still since. */
  lemma {:induction false} StateRemembers(changed: seq<bool>, n: nat)
    requires n <= |changed|
    ensures Sane(Before(changed, n))
    ensures var m := Before(changed, n);
            m.state != Searching ==>
              && n >= Progress(m)
              && TickBegins(changed, n - Progress(m))
              && (m.state == Counting ==> Still(changed, n - m.goodFrames, n))
  {
    if n == 0 {
    } else {
      StateRemembers(changed, n - 1);
    }
  }

  /** From the start of a tick, for as long as the counted frames stay still, the machine
      advances one step a frame. */
  lemma {:induction false} TickAdvances(changed: seq<bool>, a: nat, j: nat)
    requires a < |changed| && TickBegins(changed, a)
    requires 1 <= j <= 13 && a + j <= |changed| && Still(changed, a + 4, a + j)
    ensures var m := Before(changed, a + j);
            Sane(m) && Progress(m) == j && m.state == if j <= 3 then Bookend else Counting
  {
    if j == 1 {
    } else {
      TickAdvances(changed, a, j - 1);
    }
  }

  /** Detection as a property of the frames alone: 13 frames ago a tick began, and the last
      ten frames were still. */
  lemma DetectionExact(changed: seq<bool>, n: nat)
    requires n < |changed|
    ensures DetectedAt(changed, n) <==>
              n >= 13 && TickBegins(changed, n - 13) && Still(changed, n - 9, n + 1)
  {
    StateRemembers(changed, n);
    if n >= 13 && TickBegins(changed, n - 13) && Still(changed, n - 9, n + 1) {
      TickAdvances(changed, n - 13, 13);
    }
  }

  /** When the machine is searching, from the frames alone: it was and nothing moved, or the
      frame before ended a tick, by moving where it had to be still or by being the 14th. */
  lemma SearchingExact(changed: seq<bool>, n: nat)
    requires n < |changed|
    ensures Before(changed, 0) == QUIET
    ensures Before(changed, n + 1) == QUIET <==>
              || (Before(changed, n) == QUIET && !changed[n])
              || exists b :: TickEnds(changed, b, n)
  {
    StateRemembers(changed, n);
    StateRemembers(changed, n + 1);
    var m := Before(changed, n);
    if m.state == Counting && (changed[n] || m.goodFrames == 9) {
      assert TickEnds(changed, n - Progress(m), n);
    }
    if b :| TickEnds(changed, b, n) {
      TickAdvances(changed, b, n - b);
    }
  }

  /** Frame n ends the tick that began at b. */
  ghost predicate TickEnds(changed: seq<bool>, b: int, n: nat)
    requires n < |changed|
  {
    && 0 <= b && b + 4 <= n <= b + 13
    && TickBegins(changed, b) && Still(changed, b + 4, n)
    && (changed[n] || n == b + 13)
  }

  /** Two detections are at least 14 frames apart, and the first needs 14 frames. */
  lemma DetectionsApart(changed: seq<bool>, m: nat, n: nat)
    requires m < n < |changed| && DetectedAt(changed, m) && DetectedAt(changed, n)
    ensures m >= 13 && n - m >= 14
  {
    DetectionExact(changed, m);
    DetectionExact(changed, n);
    StateRemembers(changed, m);
    if n - m <= 12 {
      TickAdvances(changed, n - 13, m - (n - 13));
    }
  }

  // ----- Extending a history

  /** The machine knows only the frames it has seen. */
  lemma {:induction false} BeforePast(a: seq<bool>, b: seq<bool>, n: nat)
    requires n <= |a| && n <= |b| && a[..n] == b[..n]
    ensures Before(a, n) == Before(b, n)
  {
    if n == 0 {
    } else {
      assert a[..n - 1] == a[..n][..n - 1] == b[..n - 1];
      assert a[n - 1] == a[..n][n - 1] == b[n - 1];
      BeforePast(a, b, n - 1);
    }
  }

  lemma DetectedPast(a: seq<bool>, b: seq<bool>, n: nat)
    requires n < |a| && n < |b| && a[..n + 1] == b[..n + 1]
    ensures DetectedAt(a, n) == DetectedAt(b, n)
  {
    assert a[..n] == a[..n + 1][..n] == b[..n];
    assert a[n] == a[..n + 1][n] == b[n];
    BeforePast(a, b, n);
  }

  /** The last detection came after n frames; n == 0 when there was none. */
  ghost predicate LastDetection(changed: seq<bool>, n: int) {
    && 0 <= n <= |changed|
    && (n > 0 ==> DetectedAt(changed, n - 1))
    && forall k :: n <= k < |changed| ==> !DetectedAt(changed, k)
  }

  lemma LastDetectionKept(changed: seq<bool>, c: bool, n: int)
    requires LastDetection(changed, n)
    ensures n > 0 ==> DetectedAt(changed + [c], n - 1)
    ensures forall k :: n <= k < |changed| ==> !DetectedAt(changed + [c], k)
  {
    if n > 0 {
      DetectedPast(changed, changed + [c], n - 1);
    }
    forall k | n <= k < |changed| ensures !DetectedAt(changed + [c], k) {
      DetectedPast(changed, changed + [c], k);
    }
  }

  /** One frame more: the last detection is this frame if the machine says so. */
  lemma LastDetectionStep(changed: seq<bool>, c: bool, n: int)
    requires LastDetection(changed, n)
    ensures var (m, verdict) := Next(Before(changed, |changed|), c);
            && Before(changed + [c], |changed| + 1) == m
            && LastDetection(changed + [c], if verdict == Detected then |changed| + 1 else n)
  {
    BeforePast(changed, changed + [c], |changed|);
    LastDetectionKept(changed, c, n);
  }
}
