/** What EDF, LLF and RM guarantee about the simulator's miss counter. */
module OptimalPolicies {
  import opened Arith
  import opened Schedule
  import opened Runs
  import opened Accounting
  import opened Optimality
  import Periodicity

  // ----- LLF

  /** A laxity never reaches the sentinel, so LLF runs whenever something is pending. */
  lemma LlfEligible(services: seq<Service>, st: State, s: nat)
    requires ValidServices(services) && InRange(services, st) && s < |services|
    ensures Eligible(LLF, services, st, s) <==> Pending(services, st, s)
  {
  }

  /** A service due beyond x makes the demand at its own deadline exceed the demand at x. */
  lemma DemandGrows(services: seq<Service>, st: State, e: nat, x: int)
    requires ValidServices(services) && InRange(services, st) && e < |services|
    requires x < st.deadline[e]
    ensures Demand(services, st, x) + (services[e].cost - st.runtime[e]) <= Demand(services, st, st.deadline[e])
  {
    var y := st.deadline[e];
    var extra := seq(|services|, s => if s == e then services[e].cost - st.runtime[e] else 0);
    var flags := seq(|services|, s => if s == e then 1 else 0);
    SumIndicator(flags, e);
    SumScale(flags, services[e].cost - st.runtime[e], extra);
    var least := seq(|services|, s requires 0 <= s < |services| => Dues(services, st, x)[s] + extra[s]);
    SumAdd(Dues(services, st, x), extra, least);
    forall s | 0 <= s < |services| ensures least[s] <= Dues(services, st, y)[s] {
      DueMonotone(services[s], st.deadline[s], st.runtime[s], x, y);
      DivModUnique(0, services[s].period, 0, 0);
    }
    SumLe(least, Dues(services, st, y));
  }

  lemma LlfStep(services: seq<Service>, h: int, st: State, x: int)
    requires ValidServices(services) && InRange(services, st) && CommonMultiple(services, h) && Underloaded(services, h)
    requires Fits(services, st) && x >= 1
    ensures Demand(services, Execute(st, Pick(LLF, services, st)), x) <= x - 1
  {
    var e := Pick(LLF, services, st);
    PickIsPick(LLF, services, st);
    PickExists(LLF, services, st);
    ExecuteDemand(services, st, e, x);
    if e == -1 || x < st.deadline[e] {
      if q :| 0 <= q < |services| && st.deadline[q] <= x && Pending(services, st, q) {
        LlfEligible(services, st, q);
        assert Key(LLF, services, st, e) <= Key(LLF, services, st, q) <= x - 1;
        DemandGrows(services, st, e, x);
        assert Demand(services, st, st.deadline[e]) <= st.deadline[e];
      } else {
        QuietHorizon(services, h, st, x);
      }
    }
  }

  // ----- EDF

  /** Every service that costs anything has the sentinel as its period, and together they
      fill it: the one kind of set EDF loses. */
  ghost predicate SentinelTrap(services: seq<Service>) {
    && (forall s :: 0 <= s < |services| && services[s].cost > 0 ==> services[s].period == INT_MAX)
    && Sum(Costs(services)) == INT_MAX
  }

  function Costs(services: seq<Service>): (costs: seq<int>)
    ensures |costs| == |services|
    ensures forall s :: 0 <= s < |services| ==> costs[s] == services[s].cost
  {
    seq(|services|, s requires 0 <= s < |services| => services[s].cost)
  }

  lemma EdfStep(services: seq<Service>, h: int, st: State, x: int)
    requires ValidServices(services) && InRange(services, st) && CommonMultiple(services, h) && Underloaded(services, h)
    requires !SentinelTrap(services) && Fits(services, st) && x >= 1
    ensures Demand(services, Execute(st, Pick(EDF, services, st)), x) <= x - 1
  {
    var e := Pick(EDF, services, st);
    PickIsPick(EDF, services, st);
    PickExists(EDF, services, st);
    ExecuteDemand(services, st, e, x);
    if e == -1 || x < st.deadline[e] {
      if q :| 0 <= q < |services| && st.deadline[q] <= x && Pending(services, st, q) {
        assert e == -1 && st.deadline[q] == INT_MAX by {
          assert Eligible(EDF, services, st, q) <==> st.deadline[q] < INT_MAX;
        }
        assert forall s :: 0 <= s < |services| && Pending(services, st, s) ==> !Eligible(EDF, services, st, s);
        SentinelIdle(services, h, st, x);
      } else {
        QuietHorizon(services, h, st, x);
      }
    }
  }

  /** Only jobs released this tick with the sentinel as period are pending. */
  ghost predicate OnlySentinelPending(services: seq<Service>, st: State)
    requires Shaped(services, st)
  {
    forall s :: 0 <= s < |services| && Pending(services, st, s) ==> st.deadline[s] == INT_MAX
  }

  /** EDF idles while such jobs wait, and every horizon still has a tick to spare. */
  lemma SentinelIdle(services: seq<Service>, h: int, st: State, x: int)
    requires ValidServices(services) && InRange(services, st) && CommonMultiple(services, h) && Underloaded(services, h)
    requires !SentinelTrap(services) && x >= INT_MAX && OnlySentinelPending(services, st)
    ensures Demand(services, st, x) <= x - 1
  {
    if k :| 0 <= k < |services| && services[k].cost > 0 && !Pending(services, st, k) {
      forall s | 0 <= s < |services|
        ensures Scaled(Dues(services, st, x), h)[s] <= Scaled(Weights(services, h), x)[s]
      {
        SentinelShare(services, h, st, x, s);
      }
      SentinelShare(services, h, st, x, k);
      WeightedSumStrict(Dues(services, st, x), Weights(services, h), h, x, k);
    } else {
      SentinelOnly(services, h);
      SentinelFull(services, st, x);
    }
  }

  lemma SentinelShare(services: seq<Service>, h: int, st: State, x: int, s: nat)
    requires ValidServices(services) && InRange(services, st) && CommonMultiple(services, h) && s < |services|
    requires x >= INT_MAX && OnlySentinelPending(services, st)
    ensures h * Dues(services, st, x)[s] <= x * Weights(services, h)[s]
    ensures !Pending(services, st, s) && services[s].cost > 0 ==>
              h * Dues(services, st, x)[s] < x * Weights(services, h)[s]
  {
    var w := Weights(services, h)[s];
    if Pending(services, st, s) {
      SentinelDue(services[s], h, st.runtime[s], x);
    } else {
      FinishedDue(services[s], h, st.deadline[s], st.runtime[s], x);
      WeightPositive(services[s], h);
      assert (x - 1) * w == x * w - w;
    }
  }

  lemma SentinelFull(services: seq<Service>, st: State, x: int)
    requires ValidServices(services) && InRange(services, st) && x >= INT_MAX && OnlySentinelPending(services, st)
    requires forall s :: 0 <= s < |services| && services[s].cost > 0 ==> Pending(services, st, s)
    requires Sum(Costs(services)) <= INT_MAX - 1
    ensures Demand(services, st, x) <= x - 1
  {
    var q := x / INT_MAX;
    forall s | 0 <= s < |services| ensures Dues(services, st, x)[s] <= Scaled(Costs(services), q)[s] {
      if Pending(services, st, s) {
        FreshDue(services[s], x);
      } else {
        assert services[s].cost == 0 && st.runtime[s] == 0;
      }
    }
    SumLe(Dues(services, st, x), Scaled(Costs(services), q));
    SumScale(Costs(services), q, Scaled(Costs(services), q));
    SentinelArithmetic(q, Sum(Costs(services)), x);
  }

  lemma SentinelArithmetic(q: int, costs: int, x: int)
    requires x >= INT_MAX && q == x / INT_MAX && costs <= INT_MAX - 1
    ensures q * costs <= x - 1
  {
    MulLe(q, costs, INT_MAX - 1);
    assert q >= 1 && q * (INT_MAX - 1) == q * INT_MAX - q;
  }

  lemma WeightPositive(service: Service, h: int)
    requires ValidService(service) && h >= 1 && h % service.period == 0
    ensures h / service.period >= 1
    ensures h / service.period * service.cost >= 0
    ensures service.cost > 0 ==> h / service.period * service.cost > 0
  {
    var q, r := DivMod(h, service.period);
    MultiplesOrdered(q, 0, service.period);
    MulLe(service.cost, 1, q);
  }

  lemma SentinelDue(service: Service, h: int, done: int, x: int)
    requires ValidService(service) && service.period == INT_MAX && 0 <= done <= service.cost && x >= INT_MAX
    requires h >= 1 && h % service.period == 0
    ensures Due(service, INT_MAX, done, x) <= x / INT_MAX * service.cost
    ensures h * Due(service, INT_MAX, done, x) <= x * (h / service.period * service.cost)
  {
    FreshDue(service, x);
    JobsWithinShare(service, h, x);
    MulLe(h, Due(service, INT_MAX, done, x), x / INT_MAX * service.cost);
  }

  /** If all cost sits at the sentinel period and it is not a trap, one tick is spare. */
  lemma SentinelOnly(services: seq<Service>, h: int)
    requires ValidServices(services) && CommonMultiple(services, h) && Underloaded(services, h)
    requires !SentinelTrap(services)
    requires forall s :: 0 <= s < |services| && services[s].cost > 0 ==> services[s].period == INT_MAX
    ensures Sum(Costs(services)) <= INT_MAX - 1
  {
    if exists k :: 0 <= k < |services| && services[k].cost > 0 {
      var k :| 0 <= k < |services| && services[k].cost > 0;
      var q, r := DivMod(h, services[k].period);
      assert h == q * INT_MAX;
      WeightPositive(services[k], h);
      assert Weights(services, h) == Scaled(Costs(services), q);
      SumScale(Costs(services), q, Scaled(Costs(services), q));
      CancelFactor(Sum(Costs(services)), INT_MAX, q);
    } else {
      SumZeros(Costs(services));
    }
  }

  // ----- The invariant over whole runs

  lemma RunInRange(r: Run, t: nat)
    requires Lawful(r)
    ensures InRange(r.services, r.at(t))
  {
    forall s | 0 <= s < |r.services|
      ensures 1 <= r.at(t).deadline[s] <= r.services[s].period && 0 <= r.at(t).runtime[s] <= r.services[s].cost
    {
      assert Moves(r, s, t);
      Phase(r, s, t);
    }
  }

  /** The policies whose every step leaves each horizon a tick to spare. */
  ghost predicate Optimal(policy: Policy, services: seq<Service>) {
    policy == LLF || (policy == EDF && !SentinelTrap(services))
  }

  lemma OptimalStep(r: Run, policy: Policy, h: int, u: nat, x: nat)
    requires Lawful(r) && Follows(r, policy) && Optimal(policy, r.services)
    requires CommonMultiple(r.services, h) && Underloaded(r.services, h)
    requires Fits(r.services, r.at(u))
    ensures Demand(r.services, r.at(u + 1), x) <= x
    ensures x == 0 ==> CleanAt(r, u + 1)
  {
    RunInRange(r, u);
    if policy == LLF {
      LlfStep(r.services, h, r.at(u), x + 1);
    } else {
      EdfStep(r.services, h, r.at(u), x + 1);
    }
    StepFits(r, u, x);
  }

  lemma {:induction false} RunFits(r: Run, policy: Policy, h: int, t: nat)
    requires Lawful(r) && Follows(r, policy) && Optimal(policy, r.services)
    requires CommonMultiple(r.services, h) && Underloaded(r.services, h)
    ensures Fits(r.services, r.at(t))
    ensures CleanAt(r, t)
  {
    if t == 0 {
      InitialFits(r.services, h);
    } else {
      RunFits(r, policy, h, t - 1);
      forall x | 0 <= x ensures Demand(r.services, r.at(t), x) <= x {
        OptimalStep(r, policy, h, t - 1, x);
      }
      OptimalStep(r, policy, h, t - 1, 0);
    }
  }

  lemma OptimalClean(r: Run, policy: Policy, h: int, n: nat)
    requires Lawful(r) && Follows(r, policy) && Optimal(policy, r.services)
    requires CommonMultiple(r.services, h) && Underloaded(r.services, h)
    ensures Clean(r, n)
  {
    forall s, t | 0 <= s < |r.services| && 0 <= t < n ensures !MissedAt(r, s, t) {
      RunFits(r, policy, h, t);
    }
  }

  /** LLF misses nothing, ever, exactly when the utilisation is at most 1. */
  lemma LlfNeverMisses(services: seq<Service>, h: nat)
    requires ValidServices(services) && CommonMultiple(services, h)
    ensures Periodicity.NeverMisses(Plan(LLF, services)) <==> Underloaded(services, h)
  {
    var plan := Plan(LLF, services);
    if Underloaded(services, h) {
      OptimalNeverMisses(plan, h);
    } else {
      OverloadMisses(plan, h, h + 1);
    }
  }

  /** EDF misses nothing, ever, exactly when the utilisation is at most 1 and the set is
      not a sentinel trap. */
  lemma EdfNeverMisses(services: seq<Service>, h: nat)
    requires ValidServices(services) && CommonMultiple(services, h)
    ensures Periodicity.NeverMisses(Plan(EDF, services)) <==> Underloaded(services, h) && !SentinelTrap(services)
  {
    var plan := Plan(EDF, services);
    if !Underloaded(services, h) {
      OverloadMisses(plan, h, h + 1);
    } else if SentinelTrap(services) {
      TrapMisses(plan, h);
    } else {
      OptimalNeverMisses(plan, h);
    }
  }

  lemma OptimalNeverMisses(plan: Plan, h: nat)
    requires ValidServices(plan.services) && CommonMultiple(plan.services, h) && Underloaded(plan.services, h)
    requires Optimal(plan.policy, plan.services)
    ensures Periodicity.NeverMisses(plan)
  {
    var r := SimulatorRun(plan);
    forall n: nat ensures Clean(r, n) {
      OptimalClean(r, plan.policy, h, n);
    }
  }

  lemma TrapIdles(r: Run)
    requires Lawful(r) && Follows(r, EDF) && SentinelTrap(r.services)
    ensures Done(r, -1, 1) == 1
  {
    PickIsPick(EDF, r.services, r.at(0));
    assert r.event(0) == -1;
    assert Done(r, -1, 1) == Done(r, -1, 0) + Ran(r, -1, 0);
  }

  lemma TrapWeights(services: seq<Service>, h: nat)
    requires ValidServices(services) && CommonMultiple(services, h) && SentinelTrap(services)
    ensures Sum(Weights(services, h)) == h
  {
    if forall s :: 0 <= s < |services| ==> services[s].cost == 0 {
      SumZeros(Costs(services));
    } else {
      var k :| 0 <= k < |services| && services[k].cost != 0;
      var q, m := DivMod(h, services[k].period);
      assert Weights(services, h) == Scaled(Costs(services), q);
      SumScale(Costs(services), q, Scaled(Costs(services), q));
    }
  }

  /** The idle first tick of a trap is work that is never made up. */
  lemma TrapMisses(plan: Plan, h: nat)
    requires ValidServices(plan.services) && CommonMultiple(plan.services, h)
    requires plan.policy == EDF && SentinelTrap(plan.services)
    ensures Misses(plan, h + 1) != 0
  {
    var r := SimulatorRun(plan);
    TrapIdles(r);
    TrapWeights(r.services, h);
    if Clean(r, h + 1) {
      ExactShares(r, h);
      DoneMonotone(r, -1, 1, h);
    }
  }

  /** A trap exists: one service that always wants the CPU, and has a full deadline to get it. */
  lemma TrapExample()
    ensures SentinelTrap([Service(INT_MAX, INT_MAX)])
    ensures !Periodicity.NeverMisses(Plan(EDF, [Service(INT_MAX, INT_MAX)]))
    ensures Periodicity.NeverMisses(Plan(LLF, [Service(INT_MAX, INT_MAX)]))
  {
    var services := [Service(INT_MAX, INT_MAX)];
    assert Costs(services)[..0] == [] && Weights(services, INT_MAX)[..0] == [];
    EdfNeverMisses(services, INT_MAX);
    LlfNeverMisses(services, INT_MAX);
  }

  // ----- What the statistics table shows

  /** A fitting state leaves every pending service laxity of at least 0. */
  lemma LaxityOfFitting(services: seq<Service>, st: State, s: nat)
    requires ValidServices(services) && InRange(services, st) && Fits(services, st) && s < |services|
    ensures services[s].cost - st.runtime[s] <= st.deadline[s]
  {
    var x := st.deadline[s];
    forall q | 0 <= q < |services| ensures 0 <= Dues(services, st, x)[q] {
      DueBounds(services[q], st.deadline[q], st.runtime[q], x);
    }
    SumAtLeastEach(Dues(services, st, x), s);
    DivModUnique(0, services[s].period, 0, 0);
    assert Demand(services, st, x) <= x;
  }

  /** The chart takes -1 for "not pending". Under EDF that is always right; under LLF it is
      wrong for exactly the pending services of laxity -1, and with utilisation at most 1
      there never are any. */
  lemma TableMarks(plan: Plan, h: nat, t: nat, s: nat)
    requires ValidServices(plan.services) && CommonMultiple(plan.services, h) && s < |plan.services|
    requires plan.policy != RM
    ensures var st := At(plan, t);
            var pending := Pending(plan.services, st, s);
            && (Shown(plan.policy, plan.services, st, s) == -1 <==>
                  !pending || (plan.policy == LLF && Key(LLF, plan.services, st, s) == -1))
            && (plan.policy == EDF || Underloaded(plan.services, h) ==>
                  (Shown(plan.policy, plan.services, st, s) == -1 <==> !pending))
  {
    var r := SimulatorRun(plan);
    RunOfAt(plan, t);
    RunInRange(r, t);
    if plan.policy == LLF && Underloaded(plan.services, h) {
      RunFits(r, LLF, h, t);
      LaxityOfFitting(plan.services, At(plan, t), s);
    }
  }

  /** Overloaded, the chart can show a service as not pending that wants the processor. */
  lemma TableMarkExample()
    ensures var plan := Plan(LLF, [Service(1, 2)]);
            Pending(plan.services, At(plan, 0), 0) && Shown(LLF, plan.services, At(plan, 0), 0) == -1
  {
    AtStart(Plan(LLF, [Service(1, 2)]));
  }

  // ----- What the sentinel costs within an int tick counter

  /** EDF leaves a tick idle although work is pending exactly when every pending service
      was released that very tick with the sentinel as its period. */
  lemma EdfIdlesExactly(plan: Plan, t: nat)
    requires ValidServices(plan.services) && plan.policy == EDF
    ensures Event(plan, t) == -1 <==>
            forall s :: 0 <= s < |plan.services| && Pending(plan.services, At(plan, t), s) ==>
              plan.services[s].period == INT_MAX && t % INT_MAX == 0
  {
    var r := SimulatorRun(plan);
    RunOfAt(plan, t);
    forall s | 0 <= s < |plan.services|
      ensures At(plan, t).deadline[s] == plan.services[s].period - t % plan.services[s].period
    {
      Phase(r, s, t);
    }
    PickExists(EDF, plan.services, At(plan, t));
    SentinelDeadlines(plan.services, At(plan, t), t);
  }

  lemma SentinelDeadlines(services: seq<Service>, st: State, t: nat)
    requires ValidServices(services) && Shaped(services, st)
    requires forall s :: 0 <= s < |services| ==> st.deadline[s] == services[s].period - t % services[s].period
    ensures forall s :: 0 <= s < |services| ==>
              (Eligible(EDF, services, st, s) <==>
                Pending(services, st, s) && !(services[s].period == INT_MAX && t % INT_MAX == 0))
  {
  }

  /** With a period of at least n, no deadline is checked before the reset of tick n. */
  lemma DeadlineNotYet(r: Run, s: nat, t: nat)
    requires Lawful(r) && s < |r.services| && t < r.services[s].period
    ensures !MissedAt(r, s, t)
  {
    if t >= 1 {
      Phase(r, s, t - 1);
      DivModUnique(t - 1, r.services[s].period, 0, t - 1);
    }
  }

  /** A tick counter of type int reaches INT_MAX at most: no such run of EDF misses anything
      at utilisation at most 1, the sentinel trap included. */
  lemma EdfCleanInIntTicks(services: seq<Service>, h: nat, n: nat)
    requires ValidServices(services) && CommonMultiple(services, h) && Underloaded(services, h)
    requires n <= INT_MAX
    ensures Misses(Plan(EDF, services), n) == 0
  {
    var r := SimulatorRun(Plan(EDF, services));
    if SentinelTrap(services) {
      forall s, t | 0 <= s < |services| && 0 <= t < n ensures !MissedAt(r, s, t) {
        if services[s].cost > 0 {
          DeadlineNotYet(r, s, t);
        } else {
          FreeServiceMeets(r, s, t);
        }
      }
      assert Clean(r, n);
    } else {
      OptimalClean(r, EDF, h, n);
    }
  }

  /** A service that costs nothing is never unfinished. */
  lemma FreeServiceMeets(r: Run, s: nat, t: nat)
    requires Lawful(r) && s < |r.services| && r.services[s].cost == 0
    ensures !MissedAt(r, s, t)
  {
    if t >= 1 {
      assert Moves(r, s, t - 1);
    }
  }

  /** In the trap such a run shows one thing only: the idle first tick. */
  lemma TrapInIntTicks(services: seq<Service>, n: nat)
    requires ValidServices(services) && SentinelTrap(services) && n <= INT_MAX
    ensures Event(Plan(EDF, services), 0) == -1 && Event(Plan(LLF, services), 0) != -1
    ensures Misses(Plan(EDF, services), n) == 0
  {
    var h := Periodicity.Product(services);
    Periodicity.ProductIsCommonMultiple(services);
    TrapWeights(services, h);
    EdfCleanInIntTicks(services, h, n);
    EdfIdlesExactly(Plan(EDF, services), 0);
    SomeCost(services);
    var k :| 0 <= k < |services| && services[k].cost > 0;
    var r := SimulatorRun(Plan(LLF, services));
    RunInRange(r, 0);
    LlfEligible(services, r.at(0), k);
    PickExists(LLF, services, r.at(0));
  }

  lemma SomeCost(services: seq<Service>)
    requires ValidServices(services) && SentinelTrap(services)
    ensures exists k :: 0 <= k < |services| && services[k].cost > 0
  {
    if forall k :: 0 <= k < |services| ==> services[k].cost == 0 {
      SumZeros(Costs(services));
    }
  }

  /** Optimality: what any of the policies keeps clean through one hyperperiod, LLF keeps
      clean forever, and so does EDF outside the sentinel trap. */
  lemma SchedulableByAny(plan: Plan, h: nat, n: nat)
    requires ValidServices(plan.services) && CommonMultiple(plan.services, h)
    requires n > h && Misses(plan, n) == 0
    ensures Periodicity.NeverMisses(Plan(LLF, plan.services))
    ensures Periodicity.NeverMisses(Plan(EDF, plan.services)) <==> !SentinelTrap(plan.services)
  {
    if !Underloaded(plan.services, h) {
      OverloadMisses(plan, h, n);
    }
    LlfNeverMisses(plan.services, h);
    EdfNeverMisses(plan.services, h);
  }

  // ----- Deadlines that fall on a common multiple, and exact CPU shares

  ghost predicate WorkConserving(r: Run) {
    forall t: nat :: r.event(t) == -1 ==>
      Shaped(r.services, r.at(t)) && forall s :: 0 <= s < |r.services| ==> !Pending(r.services, r.at(t), s)
  }

  lemma NeverIdlesEarly(r: Run, policy: Policy)
    requires Lawful(r) && Follows(r, policy) && policy != EDF
    ensures WorkConserving(r)
  {
    forall t: nat, s: nat | r.event(t) == -1 && s < |r.services| ensures !Pending(r.services, r.at(t), s) {
      PickExists(policy, r.services, r.at(t));
      RunInRange(r, t);
      assert !Eligible(policy, r.services, r.at(t), s);
    }
  }

  /** Every current deadline falls at or before a common multiple ahead. */
  lemma HorizonCovers(n: nat, t: nat, d: int)
    requires d >= 1 && n % d == 0 && t < n
    ensures d - t % d <= n - t
  {
    var q, z := DivMod(n, d);
    var p, m := DivMod(t, d);
    MultiplesOrdered(q, p, d);
    MultiplesOrdered(p, q, d);
  }

  lemma HorizonStep(r: Run, n: nat, t: nat)
    requires Lawful(r) && WorkConserving(r) && CommonMultiple(r.services, n) && Underloaded(r.services, n)
    requires t < n && Demand(r.services, r.at(t), n - t) <= n - t
    ensures Demand(r.services, Execute(r.at(t), r.event(t)), n - t) <= n - t - 1
  {
    var e := r.event(t);
    ExecuteDemand(r.services, r.at(t), e, n - t);
    if e == -1 {
      RunInRange(r, t);
      QuietHorizon(r.services, n, r.at(t), n - t);
    } else {
      Phase(r, e, t);
      HorizonCovers(n, t, r.services[e].period);
    }
  }

  /** At full horizon n the work due always fits, whatever was missed on the way. */
  lemma {:induction false} HorizonFits(r: Run, n: nat, t: nat)
    requires Lawful(r) && WorkConserving(r) && CommonMultiple(r.services, n) && Underloaded(r.services, n)
    requires t <= n
    ensures Demand(r.services, r.at(t), n - t) <= n - t
    ensures t == n ==> CleanAt(r, n)
  {
    if t == 0 {
      InitialFits(r.services, n);
    } else {
      HorizonFits(r, n, t - 1);
      HorizonStep(r, n, t - 1);
      StepFits(r, t - 1, n - t);
    }
  }

  /** RM may miss elsewhere, but with utilisation at most 1 the deadlines that fall on a
      common multiple of the periods are all met; the same for LLF. */
  lemma CommonDeadlinesMet(plan: Plan, n: nat)
    requires ValidServices(plan.services) && CommonMultiple(plan.services, n) && Underloaded(plan.services, n)
    requires plan.policy != EDF
    ensures CleanReset(plan, n)
  {
    var r := SimulatorRun(plan);
    NeverIdlesEarly(r, plan.policy);
    HorizonFits(r, n, n);
    CleanResetMatches(plan, n);
  }

  /** A run of n ticks, n a common multiple, never checks the deadlines at n itself. With
      no miss counted, each service still got its exact share precisely when the
      utilisation is at most 1 and EDF is not in the sentinel trap. */
  lemma ExactUsage(plan: Plan, n: nat)
    requires ValidServices(plan.services) && CommonMultiple(plan.services, n) && Misses(plan, n) == 0
    ensures Usage(plan, n) == Weights(plan.services, n) <==>
            Underloaded(plan.services, n) && !(plan.policy == EDF && SentinelTrap(plan.services))
  {
    var r := SimulatorRun(plan);
    UsageIsDone(plan, n);
    TicksConserved(r, n);
    DoneMonotone(r, -1, 0, n);
    if plan.policy == EDF && SentinelTrap(plan.services) {
      TrapIdles(r);
      TrapWeights(r.services, n);
      DoneMonotone(r, -1, 1, n);
    } else if Underloaded(plan.services, n) {
      CleanThrough(r, plan.policy, n);
      ExactShares(r, n);
    }
  }

  lemma CleanThrough(r: Run, policy: Policy, n: nat)
    requires Lawful(r) && Follows(r, policy) && CommonMultiple(r.services, n) && Underloaded(r.services, n)
    requires Clean(r, n) && (policy == EDF ==> !SentinelTrap(r.services))
    ensures Clean(r, n + 1)
  {
    if policy == EDF {
      OptimalClean(r, policy, n, n + 1);
    } else {
      NeverIdlesEarly(r, policy);
      HorizonFits(r, n, n);
      forall s, t | 0 <= s < |r.services| && 0 <= t < n + 1 ensures !MissedAt(r, s, t) {
        assert t < n ==> MissFree(r, s, n);
      }
    }
  }

  /** A run without a counted miss whose shares are not exact: the deadline at its own end
      goes unchecked. */
  lemma UncheckedDeadlineExample()
    ensures var plan := Plan(LLF, [Service(2, 3)]);
            && CommonMultiple(plan.services, 2) && Misses(plan, 2) == 0
            && Usage(plan, 2) != Weights(plan.services, 2) && Misses(plan, 3) >= 1
  {
    var plan := Plan(LLF, [Service(2, 3)]);
    var r := SimulatorRun(plan);
    assert Weights(plan.services, 2)[..0] == [] && Weights(plan.services, 2)[0] == 3;
    forall s, t | 0 <= s < 1 && 0 <= t < 2 ensures !MissedAt(r, s, t) {
      DeadlineNotYet(r, s, t);
    }
    assert Clean(r, 2);
    ExactUsage(plan, 2);
    OverloadMisses(plan, 2, 3);
  }
}
