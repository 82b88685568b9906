/** What the simulator reports, stated on the event log alone: which service a tick runs,
    how many jobs were missed and what the statistics table holds, read off the ticks that
    services have had since their releases. */
module SchedulerRules {
  import opened Arith
  import opened Schedule
  import opened Runs
  import opened Accounting
  import RateMonotonic

  // ----- Jobs, read off a log

  /** The latest release at or before tick t of a service with period d. */
  function Release(t: nat, d: int): (release: nat)
    requires d >= 1
    ensures release <= t && t - release == t % d
  {
    var q, r := t / d, t % d;
    assert t == q * d + r;
    assert q >= 0 by {
      MultiplesOrdered(q, -1, d);
    }
    MultiplesOrdered(0, q, d);
    t - r
  }

  /** Ticks that service s still needs at tick t for its current job. */
  function Left(services: seq<Service>, log: seq<int>, s: nat, t: nat): int
    requires ValidServices(services) && s < |services| && t <= |log|
  {
    services[s].cost - CountOf(log[Release(t, services[s].period)..t], s)
  }

  /** Ticks from t to the next release. */
  function DueIn(services: seq<Service>, s: nat, t: nat): int
    requires ValidServices(services) && s < |services|
  {
    services[s].period - t % services[s].period
  }

  function Laxity(services: seq<Service>, log: seq<int>, s: nat, t: nat): int
    requires ValidServices(services) && s < |services| && t <= |log|
  {
    DueIn(services, s, t) - Left(services, log, s, t)
  }

  // ----- The three policies

  /** RM: the first unfinished service in index order. */
  ghost predicate RmRule(services: seq<Service>, log: seq<int>, t: nat)
    requires ValidServices(services) && t < |log|
  {
    if log[t] == -1 then forall q :: 0 <= q < |services| ==> Left(services, log, q, t) <= 0
    else
      && 0 <= log[t] < |services| && Left(services, log, log[t], t) > 0
      && forall q :: 0 <= q < |services| && Left(services, log, q, t) > 0 ==> log[t] <= q
  }

  /** EDF: the unfinished service due first, the lowest index among equals; a service due in
      0x7fff_ffff ticks is passed over. */
  ghost predicate EdfRule(services: seq<Service>, log: seq<int>, t: nat)
    requires ValidServices(services) && t < |log|
  {
    if log[t] == -1 then
      forall q :: 0 <= q < |services| && Left(services, log, q, t) > 0 ==> DueIn(services, q, t) == 0x7fff_ffff
    else
      && 0 <= log[t] < |services| && Left(services, log, log[t], t) > 0
      && DueIn(services, log[t], t) < 0x7fff_ffff
      && forall q :: 0 <= q < |services| && Left(services, log, q, t) > 0 ==>
           || DueIn(services, log[t], t) < DueIn(services, q, t)
           || (DueIn(services, log[t], t) == DueIn(services, q, t) && log[t] <= q)
  }

  /** LLF: the unfinished service of least laxity, the lowest index among equals. */
  ghost predicate LlfRule(services: seq<Service>, log: seq<int>, t: nat)
    requires ValidServices(services) && t < |log|
  {
    if log[t] == -1 then forall q :: 0 <= q < |services| ==> Left(services, log, q, t) <= 0
    else
      && 0 <= log[t] < |services| && Left(services, log, log[t], t) > 0
      && forall q :: 0 <= q < |services| && Left(services, log, q, t) > 0 ==>
           || Laxity(services, log, log[t], t) < Laxity(services, log, q, t)
           || (Laxity(services, log, log[t], t) == Laxity(services, log, q, t) && log[t] <= q)
  }

  ghost predicate Rule(policy: Policy, services: seq<Service>, log: seq<int>, t: nat)
    requires ValidServices(services) && t < |log|
  {
    match policy
    case RM => RmRule(services, log, t)
    case EDF => EdfRule(services, log, t)
    case LLF => LlfRule(services, log, t)
  }

  ghost predicate ObeysRule(policy: Policy, services: seq<Service>, log: seq<int>)
    requires ValidServices(services)
  {
    forall t :: 0 <= t < |log| ==> Rule(policy, services, log, t)
  }

  // ----- The simulated log obeys its rule

  lemma {:induction false} CountOfWindow(r: Run, s: int, a: nat, b: nat, n: nat)
    requires a <= b <= n
    ensures CountOf(Logged(r, n)[a..b], s) == Done(r, s, b) - Done(r, s, a)
  {
    if a == b {
    } else {
      CountOfWindow(r, s, a, b - 1, n);
      assert Logged(r, n)[a..b][..b - a - 1] == Logged(r, n)[a..b - 1];
    }
  }

  /** Service s's counters at tick t are what the log says. */
  ghost predicate CountersShow(services: seq<Service>, log: seq<int>, st: State, s: nat, t: nat)
    requires ValidServices(services) && s < |services| && t <= |log|
  {
    && Shaped(services, st)
    && st.deadline[s] == DueIn(services, s, t) <= 0x7fff_ffff
    && services[s].cost - st.runtime[s] == Left(services, log, s, t)
  }

  lemma CountersFromLog(r: Run, s: nat, t: nat, n: nat)
    requires Lawful(r) && s < |r.services| && t <= n
    ensures CountersShow(r.services, Logged(r, n), r.at(t), s, t)
  {
    var release := Release(t, r.services[s].period);
    ReleaseIsMultiple(t, r.services[s].period);
    RateMonotonic.JobProgress(r, s, release, t);
    CountOfWindow(r, s, release, t, n);
    Phase(r, s, t);
  }

  lemma ReleaseIsMultiple(t: nat, d: int)
    requires d >= 1
    ensures Release(t, d) % d == 0 && t < Release(t, d) + d
  {
    var q, r := DivMod(t, d);
    DivModUnique(t - r, d, q, 0);
  }

  /** The policy's pick from such counters is what the rule says of the log. */
  lemma PickObeysRule(policy: Policy, services: seq<Service>, log: seq<int>, st: State, t: nat)
    requires ValidServices(services) && Shaped(services, st) && t < |log| && log[t] == Pick(policy, services, st)
    requires forall s :: 0 <= s < |services| ==> CountersShow(services, log, st, s, t)
    ensures Rule(policy, services, log, t)
  {
    PickIsPick(policy, services, st);
    PickExists(policy, services, st);
    forall s | 0 <= s < |services|
      ensures Pending(services, st, s) <==> Left(services, log, s, t) > 0
      ensures Key(LLF, services, st, s) == Laxity(services, log, s, t)
      ensures st.deadline[s] == DueIn(services, s, t) <= 0x7fff_ffff
    {
      assert CountersShow(services, log, st, s, t);
    }
    match policy
    case RM => RmPickObeys(services, log, st, t);
    case EDF => EdfPickObeys(services, log, st, t);
    case LLF => LlfPickObeys(services, log, st, t);
  }

  lemma RmPickObeys(services: seq<Service>, log: seq<int>, st: State, t: nat)
    requires ValidServices(services) && Shaped(services, st) && t < |log| && log[t] == Pick(RM, services, st)
    requires forall s :: 0 <= s < |services| ==> (Pending(services, st, s) <==> Left(services, log, s, t) > 0)
    ensures RmRule(services, log, t)
  {
    PickIsPick(RM, services, st);
    PickExists(RM, services, st);
    forall q | 0 <= q < |services| && Left(services, log, q, t) > 0 ensures Eligible(RM, services, st, q) {
    }
  }

  lemma EdfPickObeys(services: seq<Service>, log: seq<int>, st: State, t: nat)
    requires ValidServices(services) && Shaped(services, st) && t < |log| && log[t] == Pick(EDF, services, st)
    requires forall s :: 0 <= s < |services| ==> (Pending(services, st, s) <==> Left(services, log, s, t) > 0)
    requires forall s :: 0 <= s < |services| ==> st.deadline[s] == DueIn(services, s, t) <= 0x7fff_ffff
    ensures EdfRule(services, log, t)
  {
    PickIsPick(EDF, services, st);
    PickExists(EDF, services, st);
    forall q | 0 <= q < |services| && Left(services, log, q, t) > 0
      ensures Eligible(EDF, services, st, q) <==> DueIn(services, q, t) < 0x7fff_ffff
    {
    }
  }

  lemma LlfPickObeys(services: seq<Service>, log: seq<int>, st: State, t: nat)
    requires ValidServices(services) && Shaped(services, st) && t < |log| && log[t] == Pick(LLF, services, st)
    requires forall s :: 0 <= s < |services| ==> (Pending(services, st, s) <==> Left(services, log, s, t) > 0)
    requires forall s :: 0 <= s < |services| ==> Key(LLF, services, st, s) == Laxity(services, log, s, t)
    requires forall s :: 0 <= s < |services| ==> DueIn(services, s, t) <= 0x7fff_ffff
    ensures LlfRule(services, log, t)
  {
    PickIsPick(LLF, services, st);
    PickExists(LLF, services, st);
    forall q | 0 <= q < |services| && Left(services, log, q, t) > 0 ensures Eligible(LLF, services, st, q) {
      assert Laxity(services, log, q, t) < DueIn(services, q, t);
    }
  }

  /** What the run does at tick t is what the policy's rule says of the log so far. */
  lemma EventObeysRule(r: Run, policy: Policy, t: nat, n: nat)
    requires Lawful(r) && Follows(r, policy) && t < n
    ensures Rule(policy, r.services, Logged(r, n), t)
  {
    forall s | 0 <= s < |r.services| ensures CountersShow(r.services, Logged(r, n), r.at(t), s, t) {
      CountersFromLog(r, s, t, n);
    }
    PickObeysRule(policy, r.services, Logged(r, n), r.at(t), t);
  }

  lemma LogObeysRule(plan: Plan, n: nat)
    requires ValidServices(plan.services)
    ensures ObeysRule(plan.policy, plan.services, Events(plan, n))
  {
    var r := SimulatorRun(plan);
    SimulatorLog(plan, n);
    var log := Logged(r, n);
    forall t | 0 <= t < n ensures Rule(plan.policy, plan.services, log, t) {
      EventObeysRule(r, plan.policy, t, n);
    }
  }

  // ----- The rule leaves no choice

  lemma SameLeft(services: seq<Service>, a: seq<int>, b: seq<int>, s: nat, t: nat)
    requires ValidServices(services) && s < |services| && t <= |a| && t <= |b| && a[..t] == b[..t]
    ensures Left(services, a, s, t) == Left(services, b, s, t)
  {
    var release := Release(t, services[s].period);
    assert a[release..t] == a[..t][release..] == b[release..t];
  }

  lemma SameChoice(policy: Policy, services: seq<Service>, a: seq<int>, b: seq<int>, t: nat)
    requires ValidServices(services) && t < |a| && t < |b| && a[..t] == b[..t]
    requires Rule(policy, services, a, t) && Rule(policy, services, b, t)
    ensures a[t] == b[t]
  {
    forall s | 0 <= s < |services| ensures Left(services, a, s, t) == Left(services, b, s, t) {
      SameLeft(services, a, b, s, t);
    }
  }

  /** Any log that obeys the rule at every tick is the log the simulator writes. */
  lemma {:induction false} RuleDeterminesLog(plan: Plan, log: seq<int>)
    requires ValidServices(plan.services) && ObeysRule(plan.policy, plan.services, log)
    ensures log == Events(plan, |log|)
  {
    var events := Events(plan, |log|);
    LogObeysRule(plan, |log|);
    SamePrefix(plan, log, events, |log|);
    assert log == log[..|log|] == events[..|log|];
  }

  lemma {:induction false} SamePrefix(plan: Plan, a: seq<int>, b: seq<int>, t: nat)
    requires ValidServices(plan.services) && t <= |a| == |b|
    requires ObeysRule(plan.policy, plan.services, a) && ObeysRule(plan.policy, plan.services, b)
    ensures a[..t] == b[..t]
  {
    if t == 0 {
    } else {
      SamePrefix(plan, a, b, t - 1);
      SameChoice(plan.policy, plan.services, a, b, t - 1);
      assert a[..t] == a[..t - 1] + [a[t - 1]] && b[..t] == b[..t - 1] + [b[t - 1]];
    }
  }

  // ----- Misses

  /** The job of service s that ends at tick t did not get its cost. */
  ghost predicate JobMissed(services: seq<Service>, log: seq<int>, s: nat, t: nat)
    requires ValidServices(services) && s < |services| && t <= |log|
  {
    var d := services[s].period;
    t >= d && t % d == 0 && CountOf(log[t - d..t], s) != services[s].cost
  }

  /** The jobs missed that end before the log does: pairs of service and tick. */
  ghost function MissedJobs(services: seq<Service>, log: seq<int>): set<(int, int)>
    requires ValidServices(services)
  {
    set s, t | 0 <= s < |services| && 0 <= t < |log| && JobMissed(services, log, s, t) :: (s, t)
  }

  lemma JobMissedMatches(r: Run, s: nat, t: nat, n: nat)
    requires Lawful(r) && s < |r.services| && t <= n
    ensures JobMissed(r.services, Logged(r, n), s, t) <==> MissedAt(r, s, t)
  {
    var d := r.services[s].period;
    if t >= 1 {
      Phase(r, s, t - 1);
      Countdown(t - 1, d);
      if t % d == 0 {
        LastJob(r, s, t, n);
      }
    }
  }

  lemma PeriodsEnd(t: nat, d: int)
    requires d >= 1 && t >= 1 && t % d == 0
    ensures t >= d && (t - d) % d == 0
  {
    var q, z := DivMod(t, d);
    MultiplesOrdered(q, 0, d);
    MultiplesOrdered(1, q, d);
    DivModUnique(t - d, d, q - 1, 0);
  }

  lemma LastJob(r: Run, s: nat, t: nat, n: nat)
    requires Lawful(r) && s < |r.services| && 1 <= t <= n && t % r.services[s].period == 0
    ensures t >= r.services[s].period
    ensures CountOf(Logged(r, n)[t - r.services[s].period..t], s) == r.at(t - 1).runtime[s] + Ran(r, s, t - 1)
  {
    var d := r.services[s].period;
    PeriodsEnd(t, d);
    RateMonotonic.JobProgress(r, s, t - d, t - 1);
    CountOfWindow(r, s, t - d, t, n);
  }

  /** The reset of tick t and each of the first k services it finds unfinished. */
  ghost function Missers(plan: Plan, k: nat, t: nat): set<(int, int)>
    requires k <= |plan.services|
  {
    set s | 0 <= s < k && MissesAt(plan, s, t) :: (s, t)
  }

  lemma {:induction false} MissersCounted(plan: Plan, k: nat, t: nat)
    requires k <= |plan.services|
    ensures |Missers(plan, k, t)| == Sum(MissFlags(plan.services, Before(plan, t))[..k])
  {
    var flags := MissFlags(plan.services, Before(plan, t));
    if k == 0 {
      assert Missers(plan, 0, t) == {};
    } else {
      MissersCounted(plan, k - 1, t);
      SumPrefix(flags, k - 1);
      var last := if MissesAt(plan, k - 1, t) then {((k - 1) as int, t as int)} else {};
      assert Missers(plan, k, t) == Missers(plan, k - 1, t) + last;
    }
  }

  /** Each reset adds the number of services it finds unfinished. */
  lemma ResetCountsMissers(plan: Plan, t: nat)
    ensures MissCount(plan, t) == |Missers(plan, |plan.services|, t)|
  {
    MissersCounted(plan, |plan.services|, t);
    var flags := MissFlags(plan.services, Before(plan, t));
    assert flags[..|plan.services|] == flags;
  }

  ghost function MissPairs(plan: Plan, n: nat): set<(int, int)> {
    set s, t | 0 <= s < |plan.services| && 0 <= t < n && MissesAt(plan, s, t) :: (s, t)
  }

  lemma PairsStep(plan: Plan, t: nat)
    ensures |MissPairs(plan, t + 1)| == |MissPairs(plan, t)| + |Missers(plan, |plan.services|, t)|
  {
    var last := Missers(plan, |plan.services|, t);
    assert MissPairs(plan, t + 1) == MissPairs(plan, t) + last;
    assert MissPairs(plan, t) !! last;
  }

  lemma MissesStep(plan: Plan, t: nat)
    ensures Misses(plan, t + 1) == Misses(plan, t) + MissCount(plan, t)
  {
  }

  lemma {:induction false} PairsCounted(plan: Plan, n: nat)
    ensures Misses(plan, n) == |MissPairs(plan, n)|
  {
    if n == 0 {
      assert MissPairs(plan, 0) == {};
    } else {
      PairsCounted(plan, n - 1);
      var t: nat := n - 1;
      MissesStep(plan, t);
      ResetCountsMissers(plan, t);
      PairsStep(plan, t);
    }
  }

  /** The miss counter is the number of jobs whose deadline the run checks and that did not
      get their cost between release and deadline. */
  lemma MissesAreJobs(plan: Plan, n: nat)
    requires ValidServices(plan.services)
    ensures Misses(plan, n) == |MissedJobs(plan.services, Events(plan, n))|
  {
    PairsCounted(plan, n);
    SimulatorLog(plan, n);
    SimulatorIsLawful(plan);
    var log := Logged(RunOf(plan), n);
    forall s, t | 0 <= s < |plan.services| && 0 <= t < n
      ensures JobMissed(plan.services, log, s, t) <==> MissesAt(plan, s, t)
    {
      JobMissedMatches(RunOf(plan), s, t, n);
      MissedAtMatches(plan, s, t);
    }
    assert MissedJobs(plan.services, log) == MissPairs(plan, n);
  }

  // ----- The statistics table

  /** What row t of the table holds for service s. */
  ghost predicate EntryRight(policy: Policy, services: seq<Service>, log: seq<int>, t: nat, s: nat, entry: int)
    requires ValidServices(services) && s < |services| && t <= |log|
  {
    match policy
    case RM => entry == 0
    case EDF => entry == if Left(services, log, s, t) > 0 then DueIn(services, s, t) else -1
    case LLF => entry == if Left(services, log, s, t) > 0 then Laxity(services, log, s, t) else -1
  }

  lemma ShownIsRight(plan: Plan, t: nat, s: nat, n: nat)
    requires ValidServices(plan.services) && s < |plan.services| && t <= n
    ensures EntryRight(plan.policy, plan.services, Events(plan, n), t, s,
                       Shown(plan.policy, plan.services, At(plan, t), s))
  {
    SimulatorLog(plan, n);
    SimulatorIsLawful(plan);
    CountersFromLog(RunOf(plan), s, t, n);
    RunOfAt(plan, t);
  }
}
