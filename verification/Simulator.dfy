/** The simulation engine of schedule/schedule.c, loop by loop, proved to compute
    exactly the runs that module Schedule specifies. */
module Simulator {
  import Arith
  import opened Schedule
  import SchedulerRules

  class Engine {
    const plan: Plan
    const services := plan.services
    const Deadline: array<int>
    const Runtime: array<int>
    const events: array<int>
    const stats: array2<int>
    var misses: int

    ghost predicate Valid() {
      && Deadline.Length == Runtime.Length == |services|
      && Deadline != Runtime && Deadline != events && Runtime != events
      && stats.Length0 == events.Length && stats.Length1 == |services|
    }

    ghost function Counters(): (st: State)
      requires Valid()
      reads Deadline, Runtime
      ensures Shaped(services, st)
    {
      State(Deadline[..], Runtime[..])
    }

    /** Row t of the statistics table shows every service as the policy saw it. */
    ghost predicate RowShows(t: nat, st: State)
      requires Valid() && t < events.Length && Shaped(services, st)
      reads stats
    {
      forall s :: 0 <= s < |services| ==> stats[t, s] == Shown(plan.policy, services, st, s)
    }

    ghost predicate RowClear(t: nat)
      requires Valid() && t < events.Length
      reads stats
    {
      forall s :: 0 <= s < |services| ==> stats[t, s] == 0
    }

    /** The table is filled for the ticks before t and clear from there on. */
    ghost predicate Tabled(t: nat)
      requires Valid() && t <= events.Length
      reads stats
    {
      && (forall u :: 0 <= u < t ==> RowShows(u, At(plan, u)))
      && (forall u :: t <= u < events.Length ==> RowClear(u))
    }

    /** Only row t of the table may have changed. */
    twostate predicate OtherRowsKept(t: nat)
      requires Valid()
      reads stats
    {
      forall u, s :: 0 <= u < events.Length && u != t && 0 <= s < |services| ==> stats[u, s] == old(stats[u, s])
    }

    /** Counters, log, statistics and miss count are those of the plan as its tick t begins. */
    ghost predicate Reached(t: nat)
      requires Valid()
      reads `misses, Deadline, Runtime, events, stats
    {
      && t <= events.Length
      && Counters() == Before(plan, t)
      && misses == Misses(plan, t)
      && events[..] == Log(plan, t, events.Length)
      && Tabled(t)
    }

    constructor (plan: Plan, ticks: nat)
      ensures this.plan == plan && events.Length == ticks
      ensures Valid() && fresh(Deadline) && fresh(Runtime) && fresh(events) && fresh(stats)
      ensures Reached(0)
    {
      this.plan := plan;
      Deadline := new int[|plan.services|](s requires 0 <= s < |plan.services| => plan.services[s].period);
      Runtime := new int[|plan.services|](s => 0);
      events := new int[ticks](t => -1);
      stats := new int[ticks, |plan.services|]((t, s) => 0);
      misses := 0;
      new;
      assert Deadline[..] == Initial(services).deadline && Runtime[..] == Initial(services).runtime;
    }

    /** Expired deadlines restart their service; unfinished work is counted and dropped. */
    method ExpireAndReset()
      requires Valid()
      modifies Deadline, Runtime, `misses
      ensures Counters() == Reset(services, old(Counters()))
      ensures misses == old(misses) + Arith.Sum(MissFlags(services, old(Counters())))
    {
      ghost var st := Counters();
      ghost var flags := MissFlags(services, st);
      ghost var next := Reset(services, st);
      for s := 0 to |services|
        invariant forall q :: 0 <= q < s ==> Deadline[q] == next.deadline[q] && Runtime[q] == next.runtime[q]
        invariant forall q :: s <= q < |services| ==> Deadline[q] == st.deadline[q] && Runtime[q] == st.runtime[q]
        invariant misses == old(misses) + Arith.Sum(flags[..s])
      {
        Arith.SumPrefix(flags, s);
        if Deadline[s] == 0 {
          Deadline[s] := services[s].period;
          if Runtime[s] == services[s].cost {
            Runtime[s] := 0;
          } else {
            misses := misses + 1;
            Runtime[s] := 0;
          }
        }
      }
      assert flags[..|services|] == flags;
    }

    /** RM: the first service in index order that still needs runtime. */
    method RunHighestPriority(t: nat)
      requires Valid() && t < events.Length
      modifies Runtime, events
      ensures var s := Pick(RM, services, old(Counters()));
              && Counters() == Execute(old(Counters()), s)
              && events[..] == if s == -1 then old(events[..]) else old(events[..])[t := s]
    {
      ghost var st := Counters();
      PickExists(RM, services, st);
      var s := 0;
      while s < |services|
        invariant 0 <= s <= |services| && Runtime[..] == st.runtime && events[..] == old(events[..])
        invariant forall q :: 0 <= q < s ==> !Eligible(RM, services, st, q)
      {
        if Runtime[s] < services[s].cost {
          assert IsPick(RM, services, st, s);
          PickUnique(RM, services, st, s);
          Runtime[s] := Runtime[s] + 1;
          events[t] := s;
          break;
        }
        s := s + 1;
      }
    }

    /** EDF: the pending service nearest its deadline. */
    method RunEarliestDeadline(t: nat)
      requires Valid() && t < events.Length
      requires plan.policy == EDF
      modifies Runtime, events, stats
      ensures var s := Pick(EDF, services, old(Counters()));
              && Counters() == Execute(old(Counters()), s)
              && events[..] == if s == -1 then old(events[..]) else old(events[..])[t := s]
      ensures RowShows(t, old(Counters())) && OtherRowsKept(t)
    {
      ghost var st := Counters();
      PickExists(EDF, services, st);
      var serviceToRun := -1;
      var earliestDeadline := INT_MAX;
      for s := 0 to |services|
        invariant forall q :: 0 <= q < s ==> stats[t, q] == Shown(EDF, services, st, q)
        invariant OtherRowsKept(t) && Counters() == st && events[..] == old(events[..])
        invariant LeastSoFar(EDF, st, s, serviceToRun, earliestDeadline)
      {
        if Runtime[s] < services[s].cost {
          if Deadline[s] < earliestDeadline {
            earliestDeadline := Deadline[s];
            serviceToRun := s;
          }
          stats[t, s] := Deadline[s];
        } else {
          stats[t, s] := -1;
        }
      }
      if serviceToRun != -1 {
        assert IsPick(EDF, services, st, serviceToRun);
        PickUnique(EDF, services, st, serviceToRun);
        Runtime[serviceToRun] := Runtime[serviceToRun] + 1;
        events[t] := serviceToRun;
      }
    }

    /** LLF: the pending service with the least slack before it must run unbroken. */
    method RunLeastLaxity(t: nat)
      requires Valid() && t < events.Length
      requires plan.policy == LLF
      modifies Runtime, events, stats
      ensures var s := Pick(LLF, services, old(Counters()));
              && Counters() == Execute(old(Counters()), s)
              && events[..] == if s == -1 then old(events[..]) else old(events[..])[t := s]
      ensures RowShows(t, old(Counters())) && OtherRowsKept(t)
    {
      ghost var st := Counters();
      PickExists(LLF, services, st);
      var serviceToRun := -1;
      var leastLaxity := INT_MAX;
      for s := 0 to |services|
        invariant forall q :: 0 <= q < s ==> stats[t, q] == Shown(LLF, services, st, q)
        invariant OtherRowsKept(t) && Counters() == st && events[..] == old(events[..])
        invariant LeastSoFar(LLF, st, s, serviceToRun, leastLaxity)
      {
        if Runtime[s] < services[s].cost {
          var laxity := Deadline[s] - (services[s].cost - Runtime[s]);
          if laxity < leastLaxity {
            leastLaxity := laxity;
            serviceToRun := s;
          }
          stats[t, s] := laxity;
        } else {
          stats[t, s] := -1;
        }
      }
      if serviceToRun != -1 {
        assert IsPick(LLF, services, st, serviceToRun);
        PickUnique(LLF, services, st, serviceToRun);
        Runtime[serviceToRun] := Runtime[serviceToRun] + 1;
        events[t] := serviceToRun;
      }
    }

    /** After n services the loop holds the first least key below the sentinel, if any. */
    ghost predicate LeastSoFar(policy: Policy, st: State, n: int, best: int, bestKey: int)
      requires Shaped(services, st) && 0 <= n <= |services| && policy != RM
    {
      if best == -1 then
        bestKey == INT_MAX && forall q :: 0 <= q < n ==> !Eligible(policy, services, st, q)
      else
        && 0 <= best < n && Eligible(policy, services, st, best) && bestKey == Key(policy, services, st, best)
        && forall q :: 0 <= q < n && Eligible(policy, services, st, q) ==>
             bestKey <= Key(policy, services, st, q) && (bestKey == Key(policy, services, st, q) ==> best <= q)
    }

    /** The middle of a tick, whichever the policy. */
    method Choose(t: nat)
      requires Valid() && t < events.Length && RowClear(t)
      modifies Runtime, events, stats
      ensures var s := Pick(plan.policy, services, old(Counters()));
              && Counters() == Execute(old(Counters()), s)
              && events[..] == if s == -1 then old(events[..]) else old(events[..])[t := s]
      ensures RowShows(t, old(Counters())) && OtherRowsKept(t)
    {
      match plan.policy {
        case RM => RunHighestPriority(t);
        case EDF => RunEarliestDeadline(t);
        case LLF => RunLeastLaxity(t);
      }
    }

    method ClockTick()
      requires Valid()
      modifies Deadline
      ensures Counters() == Tick(old(Counters()))
    {
      for s := 0 to |services|
        invariant forall q :: 0 <= q < s ==> Deadline[q] == old(Deadline[q]) - 1
        invariant forall q :: s <= q < |services| ==> Deadline[q] == old(Deadline[q])
      {
        Deadline[s] := Deadline[s] - 1;
      }
    }

    twostate lemma TableGrows(t: nat)
      requires Valid() && t < events.Length && old(Tabled(t)) && OtherRowsKept(t) && RowShows(t, At(plan, t))
      ensures Tabled(t + 1)
    {
      forall u | 0 <= u < t ensures RowShows(u, At(plan, u)) {
        assert old(RowShows(u, At(plan, u)));
      }
      forall u | t + 1 <= u < events.Length ensures RowClear(u) {
        assert old(RowClear(u));
      }
    }

    /** One pass of the outer loop. */
    method OneTick(t: nat)
      requires Valid() && t < events.Length && Reached(t)
      modifies `misses, Deadline, Runtime, events, stats
      ensures Reached(t + 1)
    {
      LogStep(plan, t, events.Length);
      ExpireAndReset();
      assert RowClear(t);
      Choose(t);
      TableGrows(t);
      ClockTick();
    }

    /** The log obeys the policy's rule at every tick, the counter is the number of missed
        jobs, and each entry of the table is the service's deadline or laxity. */
    ghost predicate Reported()
      requires Valid() && ValidServices(services)
      reads `misses, events, stats
    {
      && SchedulerRules.ObeysRule(plan.policy, services, events[..])
      && misses == |SchedulerRules.MissedJobs(services, events[..])|
      && forall t, s :: 0 <= t < events.Length && 0 <= s < |services| ==>
           SchedulerRules.EntryRight(plan.policy, services, events[..], t, s, stats[t, s])
    }

    lemma LogIsReport()
      requires Valid() && ValidServices(services)
      requires events[..] == Events(plan, events.Length) && misses == Misses(plan, events.Length)
      requires forall t :: 0 <= t < events.Length ==> RowShows(t, At(plan, t))
      ensures Reported()
    {
      SchedulerRules.LogObeysRule(plan, events.Length);
      SchedulerRules.MissesAreJobs(plan, events.Length);
      forall t, s | 0 <= t < events.Length && 0 <= s < |services|
        ensures SchedulerRules.EntryRight(plan.policy, services, events[..], t, s, stats[t, s])
      {
        assert RowShows(t, At(plan, t));
        SchedulerRules.ShownIsRight(plan, t, s, events.Length);
      }
    }

    /** The whole run: counters, event log and miss count after events.Length ticks. */
    method Run()
      requires Valid() && Reached(0)
      modifies `misses, Deadline, Runtime, events, stats
      ensures Counters() == Before(plan, events.Length)
      ensures events[..] == Events(plan, events.Length)
      ensures misses == Misses(plan, events.Length)
      ensures forall t :: 0 <= t < events.Length ==> RowShows(t, At(plan, t))
      ensures ValidServices(services) ==> Reported()
    {
      for t := 0 to events.Length
        invariant Reached(t)
      {
        OneTick(t);
      }
      LogComplete(plan, events.Length);
      if ValidServices(services) {
        LogIsReport();
      }
    }
  }

  /** The event log after t of n ticks: what happened, then -1 for what has not. */
  ghost function Log(plan: Plan, t: nat, n: nat): (log: seq<int>)
    requires t <= n
    ensures |log| == n
  {
    seq(n, u requires 0 <= u < n => if u < t then Event(plan, u) else -1)
  }

  lemma LogStep(plan: Plan, t: nat, n: nat)
    requires t < n
    ensures Log(plan, t + 1, n) == Log(plan, t, n)[t := Event(plan, t)]
    ensures Event(plan, t) == -1 ==> Log(plan, t + 1, n) == Log(plan, t, n)
    ensures Before(plan, t + 1) == Tick(Execute(At(plan, t), Event(plan, t)))
    ensures Misses(plan, t + 1) == Misses(plan, t) + MissCount(plan, t)
  {
  }

  lemma LogComplete(plan: Plan, n: nat)
    ensures Log(plan, n, n) == Events(plan, n)
  {
  }
}
