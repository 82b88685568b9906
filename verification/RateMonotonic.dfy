/** The fixed-priority analysis predicts the RM simulator: its fixed points bound, and for
    the first job equal, the response times the simulator shows. */
module RateMonotonic {
  import opened Arith
  import opened Schedule
  import opened Runs
  import opened Accounting
  import opened Feasibility

  // ----- What RM runs

  /** A pending service shuts out every service below it. */
  lemma RunsAtOrAbove(r: Run, t: nat, i: nat)
    requires Lawful(r) && Follows(r, RM) && i < |r.services| && Pending(r.services, r.at(t), i)
    ensures 0 <= r.event(t) <= i
  {
    PickIsPick(RM, r.services, r.at(t));
    PickExists(RM, r.services, r.at(t));
    assert Eligible(RM, r.services, r.at(t), i);
    assert Key(RM, r.services, r.at(t), r.event(t)) <= Key(RM, r.services, r.at(t), i);
  }

  /** Ticks before t spent on services 0 .. n-1. */
  ghost function DoneAbove(r: Run, n: nat, t: nat): int
    requires n <= |r.services|
  {
    Sum(DoneBy(r, t)[..n])
  }

  lemma DoneAboveStep(r: Run, n: nat, t: nat)
    requires Lawful(r) && n <= |r.services|
    ensures DoneAbove(r, n, t + 1) == DoneAbove(r, n, t) + if 0 <= r.event(t) < n then 1 else 0
  {
    var hit := if r.event(t) < n then r.event(t) else -1;
    var flags := seq(n, s => if s == hit then 1 else 0);
    SumIndicator(flags, hit);
    var a, b := DoneBy(r, t), DoneBy(r, t + 1);
    forall s | 0 <= s < n ensures b[..n][s] == a[..n][s] + flags[s] {
    }
    SumAdd(a[..n], flags, b[..n]);
  }

  /** If services above n run throughout a window, they use all of it. */
  lemma {:induction false} WindowFilled(r: Run, n: nat, a: nat, b: nat)
    requires Lawful(r) && n <= |r.services| && a <= b
    requires forall t :: a <= t < b ==> 0 <= r.event(t) < n
    ensures DoneAbove(r, n, b) - DoneAbove(r, n, a) == b - a
  {
    if a == b {
    } else {
      WindowFilled(r, n, a, b - 1);
      DoneAboveStep(r, n, b - 1);
    }
  }

  lemma CallsArithmetic(a: int, b: int, d: int, c: int, ra: int, rb: int)
    requires d >= 1 && a <= b && 0 <= rb <= c
    requires b % d == 0 ==> rb == 0
    requires if a % d == 0 then ra == 0 else ra == c
    ensures b / d * c - a / d * c + rb - ra <= CeilDiv(b - a, d) * c
  {
    WindowQuotients(a, b, d);
    CeilDivFloor(b - a, d);
    var jobs := b / d - a / d;
    assert b / d * c - a / d * c == jobs * c;
    if a % d == 0 && b % d != 0 {
      assert (jobs + 1) * c == jobs * c + c;
    } else {
      MulLe(c, jobs, CeilDiv(b - a, d));
    }
  }

  /** A service without unfinished older work at a runs at most the jobs released after it. */
  lemma CallsBound(r: Run, j: nat, a: nat, b: nat)
    requires Lawful(r) && j < |r.services| && a <= b
    requires a % r.services[j].period == 0 || r.at(a).runtime[j] == r.services[j].cost
    ensures Done(r, j, b) - Done(r, j, a) <= CeilDiv(b - a, r.services[j].period) * r.services[j].cost
  {
    DoneAtMost(r, j, a, b);
    Phase(r, j, a);
    Phase(r, j, b);
    CallsArithmetic(a, b, r.services[j].period, r.services[j].cost, r.at(a).runtime[j], r.at(b).runtime[j]);
  }

  /** Ticks of service s in the window [a, b). */
  ghost function Spent(r: Run, s: int, a: nat, b: nat): int {
    Done(r, s, b) - Done(r, s, a)
  }

  lemma SpentSplits(r: Run, s: int, a: nat, m: nat, b: nat)
    requires a <= m <= b
    ensures Spent(r, s, a, b) == Spent(r, s, a, m) + Spent(r, s, m, b)
    ensures Spent(r, s, a, m) >= 0 && Spent(r, s, m, b) >= 0
  {
    DoneMonotone(r, s, a, m);
    DoneMonotone(r, s, m, b);
  }

  // ----- Soundness: the busy window

  /** None of the services 0 .. n-1 carries unfinished work over into tick t. */
  ghost predicate FreshAbove(r: Run, n: nat, t: nat)
    requires Lawful(r) && n <= |r.services|
  {
    forall j :: 0 <= j < n ==> t % r.services[j].period == 0 || r.at(t).runtime[j] == r.services[j].cost
  }

  /** Work carried into t was already pending, and running shut out others, a tick before. */
  lemma CarriedWasPending(r: Run, j: nat, t: nat)
    requires Lawful(r) && j < |r.services|
    requires t % r.services[j].period != 0 && r.at(t).runtime[j] != r.services[j].cost
    ensures t >= 1 && Pending(r.services, r.at(t - 1), j)
  {
    var d := r.services[j].period;
    DivModUnique(0, d, 0, 0);
    Phase(r, j, t);
    Phase(r, j, t - 1);
    assert Moves(r, j, t - 1);
    Countdown(t - 1, d);
  }

  /** The latest moment up to t with nothing carried over; from there to t services above n run. */
  lemma {:induction false} WindowOpens(r: Run, n: nat, t: nat) returns (a: nat)
    requires Lawful(r) && Follows(r, RM) && n <= |r.services|
    ensures a <= t && FreshAbove(r, n, a)
    ensures forall u :: a <= u < t ==> 0 <= r.event(u) < n
  {
    if FreshAbove(r, n, t) {
      a := t;
    } else {
      var j :| 0 <= j < n && t % r.services[j].period != 0 && r.at(t).runtime[j] != r.services[j].cost;
      CarriedWasPending(r, j, t);
      RunsAtOrAbove(r, t - 1, j);
      a := WindowOpens(r, n, t - 1);
    }
  }

  /** The services above i do at most their calls in a window that opens fresh. */
  lemma WindowBound(r: Run, i: nat, a: nat, b: nat)
    requires Lawful(r) && i < |r.services| && a <= b && FreshAbove(r, i, a)
    ensures DoneAbove(r, i + 1, b) - DoneAbove(r, i + 1, a)
         <= Sum(Calls(r.services, i, b - a)) + Done(r, i, b) - Done(r, i, a)
  {
    var x, y, calls := DoneBy(r, a)[..i], DoneBy(r, b)[..i], Calls(r.services, i, b - a);
    var most := seq(i, j requires 0 <= j < i => x[j] + calls[j]);
    SumAdd(x, calls, most);
    forall j | 0 <= j < i ensures y[j] <= most[j] {
      CallsBound(r, j, a, b);
    }
    SumLe(y, most);
    SumPrefix(DoneBy(r, a), i);
    SumPrefix(DoneBy(r, b), i);
  }

  /** Unfinished jobs stay pending: the counter of the current job only shows what was done. */
  lemma {:induction false} JobProgress(r: Run, i: nat, release: nat, t: nat)
    requires Lawful(r) && i < |r.services|
    requires release % r.services[i].period == 0 && release <= t < release + r.services[i].period
    ensures r.at(t).runtime[i] == Done(r, i, t) - Done(r, i, release)
    ensures r.at(t).deadline[i] == r.services[i].period - (t - release)
  {
    var d := r.services[i].period;
    if t == release {
      Phase(r, i, t);
    } else {
      JobProgress(r, i, release, t - 1);
      assert Moves(r, i, t - 1);
    }
  }

  /** While the job released at release is unfinished, nothing below service i runs. */
  lemma JobShutsOut(r: Run, i: nat, release: nat, end: nat, t: nat)
    requires Lawful(r) && Follows(r, RM) && i < |r.services|
    requires release % r.services[i].period == 0 && release <= t < end <= release + r.services[i].period
    requires Spent(r, i, release, end) < r.services[i].cost
    ensures 0 <= r.event(t) <= i
  {
    JobProgress(r, i, release, t);
    DoneMonotone(r, i, t, end);
    RunsAtOrAbove(r, t, i);
  }

  /** A window that opens fresh and stays with services 0 .. i is shorter than its load
      unless service i gets its whole cost in it. */
  lemma WindowTooShort(r: Run, i: nat, a: nat, c: nat)
    requires Lawful(r) && i < |r.services|
    requires IsCompletion(r.services, i, c) && FreshAbove(r, i, a)
    requires forall u :: a <= u < a + c ==> 0 <= r.event(u) < i + 1
    ensures Spent(r, i, a, a + c) >= r.services[i].cost
  {
    WindowFilled(r, i + 1, a, a + c);
    WindowBound(r, i, a, a + c);
  }

  lemma {:induction false} NothingBefore(r: Run, i: nat, a: nat, b: nat)
    requires Lawful(r) && i < |r.services| && a <= b
    requires forall u :: a <= u < b ==> 0 <= r.event(u) < i
    ensures Spent(r, i, a, b) == 0
  {
    if a == b {
    } else {
      NothingBefore(r, i, a, b - 1);
    }
  }

  /** A job gets its cost within any completion window that fits its period. */
  lemma ResponseBound(r: Run, i: nat, release: nat, c: nat, end: nat)
    requires Lawful(r) && Follows(r, RM) && i < |r.services|
    requires release % r.services[i].period == 0 && end == release + c
    requires IsCompletion(r.services, i, c) && c <= r.services[i].period
    ensures Spent(r, i, release, end) >= r.services[i].cost
  {
    if Spent(r, i, release, end) < r.services[i].cost {
      var a := WindowOpens(r, i, release);
      forall u | a <= u < a + c ensures 0 <= r.event(u) < i + 1 {
        if release <= u {
          JobShutsOut(r, i, release, end, u);
        }
      }
      WindowTooShort(r, i, a, c);
      NothingBefore(r, i, a, release);
      SpentSplits(r, i, a, a + c, end);
      SpentSplits(r, i, a, release, end);
    }
  }

  /** What a miss at tick t says about the job that ended there. */
  lemma MissedJob(r: Run, i: nat, t: nat)
    requires Lawful(r) && i < |r.services| && MissedAt(r, i, t)
    ensures t >= r.services[i].period && (t - r.services[i].period) % r.services[i].period == 0
    ensures Spent(r, i, t - r.services[i].period, t) < r.services[i].cost
  {
    var d := r.services[i].period;
    Phase(r, i, t - 1);
    assert Moves(r, i, t - 1);
    Countdown(t - 1, d);
    var q, m := DivMod(t, d);
    MultiplesOrdered(q, 0, d);
    assert t - d == (q - 1) * d;
    DivModUnique(t - d, d, q - 1, 0);
    JobProgress(r, i, t - d, t - 1);
  }

  /** Soundness, service by service: a completion window within the period rules out misses,
      whatever happens to the other services. */
  lemma CompletionPreventsMisses(r: Run, i: nat, n: nat)
    requires Lawful(r) && Follows(r, RM) && i < |r.services|
    requires CompletesWithin(r.services, i, r.services[i].period)
    ensures MissFree(r, i, n)
  {
    var c :| IsCompletion(r.services, i, c) && c <= r.services[i].period;
    SumNonNegative(CostsUpTo(r.services, i + 1));
    forall t | 0 <= t < n ensures !MissedAt(r, i, t) {
      if MissedAt(r, i, t) {
        MissedJob(r, i, t);
        var release := t - r.services[i].period;
        ResponseBound(r, i, release, c, release + c);
        SpentSplits(r, i, release, release + c, t);
      }
    }
  }

  // ----- Exactness: the first job of each service

  /** The number of releases at ticks 0 .. t. */
  lemma CeilAfter(t: int, d: int)
    requires d >= 1
    ensures CeilDiv(t + 1, d) == t / d + 1
  {
    NextPhase(t, d);
    CeilDivFloor(t + 1, d);
  }

  /** Services released together and miss-free so far have run exactly their calls. */
  lemma CallsExact(r: Run, j: nat, t: nat)
    requires Lawful(r) && j < |r.services| && MissFree(r, j, t + 1)
    requires r.at(t).runtime[j] == r.services[j].cost
    ensures Done(r, j, t) == CeilDiv(t + 1, r.services[j].period) * r.services[j].cost
  {
    var d, c := r.services[j].period, r.services[j].cost;
    DoneWithoutMisses(r, j, t);
    CeilAfter(t, d);
    var q := t / d;
    assert (q + 1) * c == q * c + c;
  }

  /** The tick at which the first job of service i gets its last unit of cost. */
  lemma {:induction false} FinishTick(r: Run, i: nat, t: nat) returns (f: nat)
    requires Lawful(r) && i < |r.services| && r.services[i].cost >= 1 && Done(r, i, t) >= r.services[i].cost
    ensures 1 <= f <= t && Done(r, i, f) == r.services[i].cost && Done(r, i, f - 1) == r.services[i].cost - 1
    ensures r.event(f - 1) == i
  {
    if Done(r, i, t - 1) >= r.services[i].cost {
      f := FinishTick(r, i, t - 1);
    } else {
      f := t;
    }
  }

  /** That tick closes a window holding exactly the load: it is a fixed point. */
  lemma FinishIsFixedPoint(r: Run, i: nat, f: nat)
    requires Lawful(r) && Follows(r, RM) && i < |r.services|
    requires 1 <= f <= r.services[i].period && r.event(f - 1) == i
    requires Done(r, i, f) == r.services[i].cost
    requires forall j :: 0 <= j < i ==> MissFree(r, j, f)
    ensures IsCompletion(r.services, i, f)
  {
    var u := f - 1;
    DivModUnique(0, r.services[i].period, 0, 0);
    forall t | 0 <= t < f ensures 0 <= r.event(t) < i + 1 {
      JobProgress(r, i, 0, t);
      DoneMonotone(r, i, t, u);
      assert Done(r, i, f) == Done(r, i, u) + 1;
      RunsAtOrAbove(r, t, i);
    }
    WindowFilled(r, i + 1, 0, f);
    SumZeros(DoneBy(r, 0)[..i + 1]);
    var calls := Calls(r.services, i, f);
    forall j | 0 <= j < i ensures DoneBy(r, f)[..i][j] == calls[j] {
      if Pending(r.services, r.at(u), j) {
        RunsAtOrAbove(r, u, j);
      }
      Phase(r, j, u);
      CallsExact(r, j, u);
      assert Done(r, j, f) == Done(r, j, u) + Ran(r, j, u);
    }
    assert DoneBy(r, f)[..i] == calls;
    SumPrefix(DoneBy(r, f), i);
    LoadAtLeastStart(r.services, i, f);
  }

  /** Services 0 .. i miss nothing in the first n resets. */
  ghost predicate CleanDownTo(r: Run, i: nat, n: nat)
    requires i < |r.services|
  {
    forall j :: 0 <= j <= i ==> MissFree(r, j, n)
  }

  lemma FirstJobDone(r: Run, i: nat)
    requires Lawful(r) && i < |r.services| && MissFree(r, i, r.services[i].period + 1)
    ensures Done(r, i, r.services[i].period) == r.services[i].cost
  {
    var d := r.services[i].period;
    DivModUnique(d, d, 1, 0);
    DoneWithoutMisses(r, i, d);
    Phase(r, i, d);
  }

  lemma NoEarlierFixedPoint(r: Run, i: nat, f: nat, c: int)
    requires Lawful(r) && Follows(r, RM) && i < |r.services|
    requires 1 <= f <= r.services[i].period && Done(r, i, f - 1) == r.services[i].cost - 1
    requires IsCompletion(r.services, i, c)
    ensures f <= c
  {
    if c < f {
      SumNonNegative(CostsUpTo(r.services, i + 1));
      DivModUnique(0, r.services[i].period, 0, 0);
      ResponseBound(r, i, 0, c, c);
      SpentSplits(r, i, 0, c, f - 1);
    }
  }

  /** If a service meets its first deadline and the ones above it miss none, its first job
      finishes at the least fixed point of the iteration, to the tick. */
  lemma FirstJobExact(r: Run, i: nat) returns (f: nat)
    requires Lawful(r) && Follows(r, RM) && i < |r.services| && r.services[i].cost >= 1
    requires CleanDownTo(r, i, r.services[i].period + 1)
    ensures IsCompletion(r.services, i, f) && 1 <= f <= r.services[i].period
    ensures Done(r, i, f) == r.services[i].cost && Done(r, i, f - 1) == r.services[i].cost - 1
    ensures forall c :: IsCompletion(r.services, i, c) ==> f <= c
  {
    var n := r.services[i].period + 1;
    FirstJobDone(r, i);
    f := FinishTick(r, i, n - 1);
    forall j | 0 <= j < i ensures MissFree(r, j, f) {
      assert MissFree(r, j, n);
    }
    FinishIsFixedPoint(r, i, f);
    forall c | IsCompletion(r.services, i, c) ensures f <= c {
      NoEarlierFixedPoint(r, i, f, c);
    }
  }

  /** Completeness: without misses up to its first deadline, every service has a fixed point. */
  lemma CleanThenCompletes(r: Run, i: nat)
    requires Lawful(r) && Follows(r, RM) && i < |r.services| && r.services[i].cost >= 1
    requires Clean(r, r.services[i].period + 1)
    ensures CompletesWithin(r.services, i, r.services[i].period)
  {
    var f := FirstJobExact(r, i);
  }

  // ----- A moment free of the services above

  /** After x ticks no service above i is pending. */
  ghost predicate AboveDone(r: Run, i: nat, x: int)
    requires i < |r.services|
  {
    && x >= 1 && Shaped(r.services, r.at(x - 1))
    && forall j :: 0 <= j < i ==> r.at(x - 1).runtime[j] + Ran(r, j, x - 1) == r.services[j].cost
  }

  lemma CeilStep(x: int, d: int, c: int)
    requires d >= 1
    ensures CeilDiv(x, d) * c == (x - 1) / d * c + c
  {
    var q, z := DivMod(x - 1, d);
    DivModUnique(x - 1 + d, d, q + 1, z);
    assert (q + 1) * c == q * c + c;
  }

  lemma DoneBeforeTick(r: Run, j: nat, t: nat)
    requires Lawful(r) && j < |r.services|
    ensures Done(r, j, t) <= t / r.services[j].period * r.services[j].cost + r.at(t).runtime[j]
  {
    DoneAtMost(r, j, 0, t);
    DivModUnique(0, r.services[j].period, 0, 0);
    Phase(r, j, 0);
  }

  lemma DoneWhenFinished(r: Run, j: nat, x: nat)
    requires Lawful(r) && j < |r.services| && x >= 1
    ensures Done(r, j, x) <= CeilDiv(x, r.services[j].period) * r.services[j].cost
    ensures r.at(x - 1).runtime[j] + Ran(r, j, x - 1) < r.services[j].cost ==>
              Done(r, j, x) < CeilDiv(x, r.services[j].period) * r.services[j].cost
    ensures r.at(x - 1).runtime[j] + Ran(r, j, x - 1) == r.services[j].cost && MissFree(r, j, x) ==>
              Done(r, j, x) == CeilDiv(x, r.services[j].period) * r.services[j].cost
  {
    DoneBeforeTick(r, j, x - 1);
    CeilStep(x, r.services[j].period, r.services[j].cost);
    assert Moves(r, j, x - 1);
    if MissFree(r, j, x) {
      DoneWithoutMisses(r, j, x - 1);
    }
  }

  /** Free of missed work, the first x ticks cover all calls above once none is pending. */
  lemma DoneAboveCoversCalls(r: Run, i: nat, x: nat)
    requires Lawful(r) && i < |r.services| && AboveDone(r, i, x)
    requires forall j :: 0 <= j < i ==> MissFree(r, j, x)
    ensures Sum(Calls(r.services, i, x)) <= x
  {
    forall j | 0 <= j < i ensures Calls(r.services, i, x)[j] <= DoneBy(r, x)[..i][j] {
      DoneWhenFinished(r, j, x);
    }
    SumLe(Calls(r.services, i, x), DoneBy(r, x)[..i]);
    forall s | 0 <= s < |r.services| ensures 0 <= DoneBy(r, x)[s] {
      DoneMonotone(r, s, 0, x);
    }
    SumOfPrefix(DoneBy(r, x), i);
    TicksConserved(r, x);
    DoneMonotone(r, -1, 0, x);
  }

  lemma BusyTick(r: Run, i: nat, t: nat) returns (j: nat)
    requires Lawful(r) && Follows(r, RM) && i < |r.services| && !AboveDone(r, i, t + 1)
    ensures j < i && r.at(t).runtime[j] + Ran(r, j, t) < r.services[j].cost
    ensures 0 <= r.event(t) < i
  {
    j :| 0 <= j < i && r.at(t).runtime[j] + Ran(r, j, t) != r.services[j].cost;
    assert Moves(r, j, t);
    RunsAtOrAbove(r, t, j);
  }

  /** A window that holds the calls above shows a moment without any of them pending,
      whatever was missed. */
  lemma CallsLeaveMoment(r: Run, i: nat, x: nat)
    requires Lawful(r) && Follows(r, RM) && i < |r.services| && x >= 1
    requires Sum(Calls(r.services, i, x)) <= x
    ensures exists y :: 1 <= y <= x && AboveDone(r, i, y)
  {
    if forall y :: 1 <= y <= x ==> !AboveDone(r, i, y) {
      forall t | 0 <= t < x ensures 0 <= r.event(t) < i {
        var j := BusyTick(r, i, t);
      }
      WindowFilled(r, i, 0, x);
      SumZeros(DoneBy(r, 0)[..i]);
      var j := BusyTick(r, i, x - 1);
      forall s | 0 <= s < i
        ensures DoneBy(r, x)[..i][s] <= Calls(r.services, i, x)[s]
        ensures s == j ==> DoneBy(r, x)[..i][s] < Calls(r.services, i, x)[s]
      {
        DoneWhenFinished(r, s, x);
      }
      SumLess(DoneBy(r, x)[..i], Calls(r.services, i, x), j);
    }
  }
}
