/** Where the ticks of a run went: conservation, exact shares without misses, and
    the certain miss of an overloaded set. */
module Accounting {
  import opened Arith
  import opened Schedule
  import opened Runs

  /** Ticks before t that ran service s; s == -1 counts the idle ones. */
  ghost function Done(r: Run, s: int, t: nat): int {
    if t == 0 then 0 else Done(r, s, t - 1) + Ran(r, s, t - 1)
  }

  ghost function DoneBy(r: Run, t: nat): (done: seq<int>)
    ensures |done| == |r.services|
    ensures forall s :: 0 <= s < |r.services| ==> done[s] == Done(r, s, t)
  {
    seq(|r.services|, s requires 0 <= s < |r.services| => Done(r, s, t))
  }

  // ----- Conservation

  /** Every tick is spent once: on exactly one service, or idle. */
  lemma {:induction false} TicksConserved(r: Run, t: nat)
    requires Lawful(r)
    ensures Sum(DoneBy(r, t)) + Done(r, -1, t) == t
  {
    if t == 0 {
      SumZeros(DoneBy(r, 0));
    } else {
      var u := t - 1;
      TicksConserved(r, u);
      var flags := seq(|r.services|, s => Ran(r, s, u));
      SumIndicator(flags, r.event(u));
      SumAdd(DoneBy(r, u), flags, DoneBy(r, t));
    }
  }

  lemma {:induction false} DoneMonotone(r: Run, s: int, a: nat, b: nat)
    requires a <= b
    ensures 0 <= Done(r, s, a) <= Done(r, s, b)
  {
    if b == 0 {
    } else {
      DoneMonotone(r, s, if a == b then b - 1 else a, b - 1);
    }
  }

  lemma QuotientStep(t: int, d: int, c: int)
    requires d >= 1
    ensures (t + 1) / d * c == t / d * c + if t % d == d - 1 then c else 0
  {
    NextPhase(t, d);
  }

  /** Without misses a service has run all of its past jobs and what its counter shows. */
  lemma {:induction false} DoneWithoutMisses(r: Run, s: nat, t: nat)
    requires Lawful(r) && s < |r.services| && MissFree(r, s, t + 1)
    ensures Done(r, s, t) == t / r.services[s].period * r.services[s].cost + r.at(t).runtime[s]
  {
    var d := r.services[s].period;
    if t == 0 {
      DivModUnique(0, d, 0, 0);
    } else {
      var u := t - 1;
      DoneWithoutMisses(r, s, u);
      assert Moves(r, s, u);
      Phase(r, s, u);
      assert !MissedAt(r, s, t);
      QuotientStep(u, d, r.services[s].cost);
    }
  }

  /** With or without misses, a service never runs past the cost of the jobs it had. */
  lemma {:induction false} DoneAtMost(r: Run, s: nat, a: nat, b: nat)
    requires Lawful(r) && s < |r.services| && a <= b
    ensures Done(r, s, b) - Done(r, s, a)
         <= b / r.services[s].period * r.services[s].cost - a / r.services[s].period * r.services[s].cost
            + r.at(b).runtime[s] - r.at(a).runtime[s]
  {
    if a == b {
    } else {
      var u := b - 1;
      DoneAtMost(r, s, a, u);
      assert Moves(r, s, u);
      Phase(r, s, u);
      QuotientStep(u, r.services[s].period, r.services[s].cost);
    }
  }

  // ----- Utilisation over a common multiple of the periods

  ghost predicate CommonMultiple(services: seq<Service>, h: int)
    requires ValidServices(services)
  {
    h >= 1 && forall s :: 0 <= s < |services| ==> h % services[s].period == 0
  }

  /** Ticks each service needs in h ticks, h a common multiple of the periods. */
  function Weights(services: seq<Service>, h: int): (w: seq<int>)
    requires ValidServices(services)
    ensures |w| == |services|
    ensures forall s :: 0 <= s < |services| ==> w[s] == h / services[s].period * services[s].cost
  {
    seq(|services|, s requires 0 <= s < |services| => h / services[s].period * services[s].cost)
  }

  /** Total utilisation at most 1. */
  ghost predicate Underloaded(services: seq<Service>, h: int)
    requires ValidServices(services)
  {
    Sum(Weights(services, h)) <= h
  }

  /** If the deadlines up to and including h are met, every share is exact. */
  lemma ExactShares(r: Run, h: nat)
    requires Lawful(r) && CommonMultiple(r.services, h)
    requires Clean(r, h + 1)
    ensures DoneBy(r, h) == Weights(r.services, h)
    ensures Done(r, -1, h) == h - Sum(Weights(r.services, h))
  {
    forall s | 0 <= s < |r.services|
      ensures Done(r, s, h) == h / r.services[s].period * r.services[s].cost
    {
      assert MissFree(r, s, h + 1);
      DoneWithoutMisses(r, s, h);
      Phase(r, s, h);
    }
    TicksConserved(r, h);
  }

  lemma OverloadedRun(r: Run, h: nat, n: nat)
    requires Lawful(r) && CommonMultiple(r.services, h)
    requires !Underloaded(r.services, h) && n > h
    ensures !Clean(r, n)
  {
    if Clean(r, n) {
      CleanMonotone(r, h + 1, n);
      ExactShares(r, h);
      DoneMonotone(r, -1, 0, h);
    }
  }

  /** Overload is always detected: utilisation above 1 forces a miss by the reset of tick h. */
  lemma OverloadMisses(plan: Plan, h: nat, n: nat)
    requires ValidServices(plan.services) && CommonMultiple(plan.services, h)
    requires !Underloaded(plan.services, h) && n > h
    ensures Misses(plan, n) >= 1
  {
    var r := SimulatorRun(plan);
    OverloadedRun(r, h, n);
    MissesMonotone(plan, 0, n);
  }

  // ----- The statistics loop

  /** How often v occurs in a log. */
  function CountOf(log: seq<int>, v: int): int {
    if |log| == 0 then 0 else CountOf(log[..|log| - 1], v) + if log[|log| - 1] == v then 1 else 0
  }

  ghost function Logged(r: Run, n: nat): (log: seq<int>)
    ensures |log| == n
    ensures forall t :: 0 <= t < n ==> log[t] == r.event(t)
  {
    seq(n, t requires 0 <= t < n => r.event(t))
  }

  lemma {:induction false} CountOfLogged(r: Run, s: int, n: nat)
    ensures CountOf(Logged(r, n), s) == Done(r, s, n)
  {
    if n == 0 {
    } else {
      CountOfLogged(r, s, n - 1);
      assert Logged(r, n)[..n - 1] == Logged(r, n - 1);
    }
  }

  /** The tally adds to whatever cpu_usage held before: the source never clears it. */
  method TallyCpu(events: array<int>, cpuUsage: array<int>) returns (cpuSlack: int)
    requires events != cpuUsage
    requires forall t :: 0 <= t < events.Length ==> -1 <= events[t] < cpuUsage.Length
    modifies cpuUsage
    ensures cpuSlack == CountOf(events[..], -1)
    ensures Tallied(old(cpuUsage[..]), events[..], cpuUsage[..])
  {
    cpuSlack := 0;
    for t := 0 to events.Length
      invariant cpuSlack == CountOf(events[..t], -1)
      invariant forall s :: 0 <= s < cpuUsage.Length ==> cpuUsage[s] == old(cpuUsage[s]) + CountOf(events[..t], s)
    {
      assert events[..t + 1][..t] == events[..t];
      if events[t] == -1 {
        cpuSlack := cpuSlack + 1;
      } else {
        cpuUsage[events[t]] := cpuUsage[events[t]] + 1;
      }
    }
    assert events[..events.Length] == events[..];
  }

  lemma SimulatorLog(plan: Plan, n: nat)
    ensures Logged(RunOf(plan), n) == Events(plan, n)
  {
  }

  /** The number of ticks the tally gives to v, read off the run. */
  lemma TallyOfRun(plan: Plan, v: int, n: nat)
    ensures CountOf(Events(plan, n), v) == Done(RunOf(plan), v, n)
  {
    SimulatorLog(plan, n);
    CountOfLogged(RunOf(plan), v, n);
  }

  /** The tally of every service's ticks. */
  ghost function Usage(plan: Plan, n: nat): (usage: seq<int>)
    ensures |usage| == |plan.services|
    ensures forall s :: 0 <= s < |plan.services| ==> usage[s] == CountOf(Events(plan, n), s)
  {
    seq(|plan.services|, s requires 0 <= s < |plan.services| => CountOf(Events(plan, n), s))
  }

  lemma UsageIsDone(plan: Plan, n: nat)
    ensures Usage(plan, n) == DoneBy(RunOf(plan), n)
  {
    forall s | 0 <= s < |plan.services| ensures Usage(plan, n)[s] == DoneBy(RunOf(plan), n)[s] {
      TallyOfRun(plan, s, n);
    }
  }

  /** Slack and usage account for every simulated tick. */
  lemma CpuTimeConserved(plan: Plan, n: nat)
    requires ValidServices(plan.services)
    ensures Sum(Usage(plan, n)) + CountOf(Events(plan, n), -1) == n
  {
    SimulatorIsLawful(plan);
    TicksConserved(RunOf(plan), n);
    UsageIsDone(plan, n);
    TallyOfRun(plan, -1, n);
  }

  // ----- What the statistics loop reports

  function Counts(log: seq<int>, n: nat): (counts: seq<int>)
    ensures |counts| == n
    ensures forall s :: 0 <= s < n ==> counts[s] == CountOf(log, s)
  {
    seq(n, s => CountOf(log, s))
  }

  /** Every logged tick is counted once. */
  lemma {:induction false} CountsPartition(log: seq<int>, n: nat)
    requires forall t :: 0 <= t < |log| ==> -1 <= log[t] < n
    ensures CountOf(log, -1) + Sum(Counts(log, n)) == |log|
  {
    if |log| == 0 {
      SumZeros(Counts(log, n));
    } else {
      var init, e := log[..|log| - 1], log[|log| - 1];
      CountsPartition(init, n);
      var flags := seq(n, s => if s == e then 1 else 0);
      SumIndicator(flags, e);
      SumAdd(Counts(init, n), flags, Counts(log, n));
    }
  }

  /** What TallyCpu leaves in cpu_usage, whatever was there before. */
  predicate Tallied(before: seq<int>, log: seq<int>, after: seq<int>) {
    && |after| == |before|
    && forall s :: 0 <= s < |before| ==> after[s] == before[s] + CountOf(log, s)
  }

  /** The reported slack and usage add up to the ticks exactly when the memory behind
      cpu_usage summed to 0, and every reported usage is right exactly when it was all 0. */
  lemma ReportBalances(before: seq<int>, log: seq<int>, after: seq<int>)
    requires Tallied(before, log, after)
    requires forall t :: 0 <= t < |log| ==> -1 <= log[t] < |before|
    ensures CountOf(log, -1) + Sum(after) == |log| <==> Sum(before) == 0
    ensures after == Counts(log, |before|) <==> forall s :: 0 <= s < |before| ==> before[s] == 0
  {
    CountsPartition(log, |before|);
    SumAdd(before, Counts(log, |before|), after);
    if after == Counts(log, |before|) {
      forall s | 0 <= s < |before| ensures before[s] == 0 {
        assert after[s] == CountOf(log, s);
      }
    }
  }

  /** One tick, run by the one service, in memory that held a 1: two ticks are reported. */
  lemma StaleUsageExample()
    ensures Tallied([1], [0], [2]) && CountOf([0], -1) + Sum([2]) != |[0]|
  {
    assert [0][..0] == [] && [2][..0] == [];
    ReportBalances([1], [0], [2]);
  }
}
