/** The schedule repeats after any common multiple of the periods, misses included. */
module Periodicity {
  import opened Arith
  import opened Schedule
  import opened Runs
  import opened Accounting

  /** Equal counters and equal choice give equal counters one tick later. */
  lemma StepDetermined(r: Run, t: nat, u: nat)
    requires Lawful(r) && r.at(t) == r.at(u) && r.event(t) == r.event(u)
    ensures r.at(t + 1) == r.at(u + 1)
  {
    var a, b := r.at(t + 1), r.at(u + 1);
    forall s | 0 <= s < |r.services|
      ensures a.deadline[s] == b.deadline[s] && a.runtime[s] == b.runtime[s]
    {
      assert Moves(r, s, t) && Moves(r, s, u);
    }
    assert a.deadline == b.deadline && a.runtime == b.runtime;
  }

  /** At a common multiple every service restarts: the counters are the initial ones. */
  lemma BackToStart(r: Run, h: nat)
    requires Lawful(r) && CommonMultiple(r.services, h)
    ensures r.at(h) == Initial(r.services)
  {
    forall s | 0 <= s < |r.services|
      ensures r.at(h).deadline[s] == r.services[s].period && r.at(h).runtime[s] == 0
    {
      Phase(r, s, h);
    }
    assert r.at(h).deadline == Initial(r.services).deadline && r.at(h).runtime == Initial(r.services).runtime;
  }

  lemma {:induction false} RunRepeats(r: Run, policy: Policy, h: nat, t: nat)
    requires Lawful(r) && Follows(r, policy) && CommonMultiple(r.services, h)
    ensures r.at(t + h) == r.at(t) && r.event(t + h) == r.event(t)
  {
    if t == 0 {
      BackToStart(r, h);
    } else {
      RunRepeats(r, policy, h, t - 1);
      StepDetermined(r, t - 1 + h, t - 1);
    }
  }

  /** For every policy, with or without misses, the event log has period h. */
  lemma EventsRepeat(plan: Plan, h: nat, t: nat)
    requires ValidServices(plan.services) && CommonMultiple(plan.services, h)
    ensures At(plan, h) == Initial(plan.services)
    ensures At(plan, t + h) == At(plan, t) && Event(plan, t + h) == Event(plan, t)
  {
    var r := SimulatorRun(plan);
    BackToStart(r, h);
    RunRepeats(r, plan.policy, h, t);
    RunOfAt(plan, t);
    RunOfAt(plan, t + h);
    RunOfAt(plan, h);
  }

  lemma MissedAtRepeats(r: Run, policy: Policy, h: nat, s: nat, t: nat, later: nat)
    requires Lawful(r) && Follows(r, policy) && CommonMultiple(r.services, h) && s < |r.services|
    requires t >= 1 && later == t + h
    ensures MissedAt(r, s, later) == MissedAt(r, s, t)
  {
    RunRepeats(r, policy, h, t - 1);
  }

  lemma MissesAtRepeats(plan: Plan, h: nat, s: nat, t: nat, later: nat)
    requires ValidServices(plan.services) && CommonMultiple(plan.services, h) && s < |plan.services|
    requires t >= 1 && later == t + h
    ensures MissesAt(plan, s, later) == MissesAt(plan, s, t)
  {
    SimulatorIsLawful(plan);
    MissedAtRepeats(RunOf(plan), plan.policy, h, s, t, later);
    MissedAtMatches(plan, s, t);
    MissedAtMatches(plan, s, later);
  }

  lemma MissCountRepeats(plan: Plan, h: nat, t: nat, later: nat)
    requires ValidServices(plan.services) && CommonMultiple(plan.services, h) && t >= 1 && later == t + h
    ensures MissCount(plan, later) == MissCount(plan, t)
  {
    forall s | 0 <= s < |plan.services|
      ensures MissesAt(plan, s, t) == MissesAt(plan, s, later)
    {
      MissesAtRepeats(plan, h, s, t, later);
    }
    SameFlags(plan, t, later);
  }

  lemma SameFlags(plan: Plan, t: nat, u: nat)
    requires forall s :: 0 <= s < |plan.services| ==> MissesAt(plan, s, t) == MissesAt(plan, s, u)
    ensures MissCount(plan, t) == MissCount(plan, u)
  {
    var a, b := MissFlags(plan.services, Before(plan, t)), MissFlags(plan.services, Before(plan, u));
    forall s | 0 <= s < |plan.services| ensures a[s] == b[s] {
      assert MissesAt(plan, s, t) == MissesAt(plan, s, u);
    }
    assert a == b;
  }

  lemma {:induction false} TotalRepeats(f: nat -> int, h: nat, n: nat)
    requires f(0) == 0 && n >= 1
    requires forall t: nat :: t >= 1 ==> f(t + h) == f(t)
    ensures Total(f, n + h) == Total(f, n) + Total(f, h + 1)
  {
    if n > 1 {
      TotalRepeats(f, h, n - 1);
      assert f(n - 1 + h) == f(n - 1);
    } else {
      assert Total(f, 1) == Total(f, 0) + f(0);
    }
  }

  /** Each further hyperperiod adds the same number of misses as the first. */
  lemma MissesRepeat(plan: Plan, h: nat, n: nat)
    requires ValidServices(plan.services) && CommonMultiple(plan.services, h) && n >= 1
    ensures Misses(plan, n + h) == Misses(plan, n) + Misses(plan, h + 1)
  {
    MissCountsPeriodic(plan, h);
    FirstResetClean(plan);
    TotalRepeats(MissCounts(plan), h, n);
  }

  lemma MissCountsRepeat(plan: Plan, h: nat, t: nat)
    requires ValidServices(plan.services) && CommonMultiple(plan.services, h) && t >= 1
    ensures MissCounts(plan)(t + h) == MissCounts(plan)(t)
  {
    MissCountRepeats(plan, h, t, t + h);
  }

  lemma MissCountsPeriodic(plan: Plan, h: nat)
    requires ValidServices(plan.services) && CommonMultiple(plan.services, h)
    ensures forall t: nat :: t >= 1 ==> MissCounts(plan)(t + h) == MissCounts(plan)(t)
  {
    var f := MissCounts(plan);
    forall t: nat | t >= 1 ensures f(t + h) == f(t) {
      MissCountsRepeat(plan, h, t);
    }
  }

  lemma FirstResetClean(plan: Plan)
    requires ValidServices(plan.services)
    ensures MissCount(plan, 0) == 0
  {
    forall s | 0 <= s < |plan.services| ensures !MissesAt(plan, s, 0) {
      NoMissAtStart(plan, s);
    }
    CleanResetCount(plan, 0);
  }

  ghost predicate NeverMisses(plan: Plan) {
    forall n: nat :: Misses(plan, n) == 0
  }

  lemma {:induction false} ZeroForever(f: nat -> int, h: nat, t: nat)
    requires h >= 1 && forall u: nat :: u >= 1 ==> f(u + h) == f(u)
    requires forall u :: 0 <= u <= h ==> f(u) == 0
    ensures f(t) == 0
    decreases t
  {
    if t <= h {
    } else {
      ZeroForever(f, h, t - h);
      assert f(t - h + h) == f(t - h);
    }
  }

  lemma TotalZeroForever(f: nat -> int, h: nat, n: nat)
    requires h >= 1 && forall u: nat :: u >= 1 ==> f(u + h) == f(u)
    requires (forall u: nat :: f(u) >= 0) && Total(f, h + 1) == 0
    ensures Total(f, n) == 0
  {
    TotalZero(f, h + 1);
    forall t: nat ensures f(t) == 0 {
      ZeroForever(f, h, t);
    }
    TotalZero(f, n);
  }

  /** One hyperperiod, its closing deadlines included, decides about all time. */
  lemma HyperperiodDecides(plan: Plan, h: nat)
    requires ValidServices(plan.services) && CommonMultiple(plan.services, h)
    ensures NeverMisses(plan) <==> Misses(plan, h + 1) == 0
  {
    if Misses(plan, h + 1) == 0 {
      MissCountsNonNegative(plan);
      MissCountsPeriodic(plan, h);
      forall n: nat ensures Misses(plan, n) == 0 {
        TotalZeroForever(MissCounts(plan), h, n);
      }
    }
  }

  // ----- A common multiple always exists

  function Product(services: seq<Service>): int {
    if |services| == 0 then 1 else Product(services[..|services| - 1]) * services[|services| - 1].period
  }

  lemma {:induction false} ProductIsCommonMultiple(services: seq<Service>)
    requires ValidServices(services)
    ensures CommonMultiple(services, Product(services))
  {
    if |services| == 0 {
    } else {
      var init := services[..|services| - 1];
      var p, d := Product(init), services[|services| - 1].period;
      ProductIsCommonMultiple(init);
      assert p * d >= 1;
      forall s | 0 <= s < |services| ensures (p * d) % services[s].period == 0 {
        if s < |init| {
          assert services[s] == init[s];
          MultipleStays(p, d, init[s].period);
        } else {
          DivModUnique(p * d, d, p, 0);
        }
      }
    }
  }

  lemma MultipleStays(p: int, k: int, d: int)
    requires d >= 1 && p % d == 0
    ensures (p * k) % d == 0
  {
    var q, r := DivMod(p, d);
    assert p * k == (q * k) * d;
    DivModUnique(p * k, d, q * k, 0);
  }
}
