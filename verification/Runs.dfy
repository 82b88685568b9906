/** A run seen from outside: the counters after each reset and the service each tick
    ran. Everything later is proved of any run that obeys the two laws below, and the
    simulator's runs obey them. */
module Runs {
  import Arith
  import opened Schedule

  datatype Run = Run(services: seq<Service>, at: nat -> State, event: nat -> int)

  /** What tick t did for service s. */
  ghost function Ran(r: Run, s: int, t: nat): int {
    if r.event(t) == s then 1 else 0
  }

  /** From one reset to the next, service s moves as the three phases say. */
  ghost predicate Moves(r: Run, s: nat, t: nat)
    requires s < |r.services|
  {
    var service, a, b := r.services[s], r.at(t), r.at(t + 1);
    && Shaped(r.services, a) && Shaped(r.services, b) && -1 <= r.event(t) < |r.services|
    && 1 <= a.deadline[s] <= service.period
    && 0 <= a.runtime[s] && a.runtime[s] + Ran(r, s, t) <= service.cost
    && (if a.deadline[s] == 1
        then b.deadline[s] == service.period && b.runtime[s] == 0
        else b.deadline[s] == a.deadline[s] - 1 && b.runtime[s] == a.runtime[s] + Ran(r, s, t))
  }

  ghost predicate Lawful(r: Run) {
    && ValidServices(r.services)
    && r.at(0) == Initial(r.services)
    && (forall t: nat :: Shaped(r.services, r.at(t)) && -1 <= r.event(t) < |r.services|)
    && forall s: nat, t: nat :: s < |r.services| ==> Moves(r, s, t)
  }

  ghost predicate Follows(r: Run, policy: Policy) {
    forall t: nat :: Shaped(r.services, r.at(t)) && r.event(t) == Pick(policy, r.services, r.at(t))
  }

  /** Service s has one tick left at st, and running e there does not finish it. */
  ghost predicate MissedFrom(services: seq<Service>, st: State, e: int, s: nat)
    requires s < |services|
  {
    && Shaped(services, st)
    && st.deadline[s] == 1
    && st.runtime[s] + (if e == s then 1 else 0) != services[s].cost
  }

  /** The reset of tick t finds service s unfinished. */
  ghost predicate MissedAt(r: Run, s: nat, t: nat)
    requires s < |r.services|
  {
    t >= 1 && MissedFrom(r.services, r.at(t - 1), r.event(t - 1), s)
  }

  ghost predicate CleanAt(r: Run, t: nat) {
    forall s :: 0 <= s < |r.services| ==> !MissedAt(r, s, t)
  }

  /** Service s meets every deadline that the first n ticks check. */
  ghost predicate MissFree(r: Run, s: nat, n: nat)
    requires s < |r.services|
  {
    forall t :: 0 <= t < n ==> !MissedAt(r, s, t)
  }

  /** No service has missed a deadline in the first n resets. */
  ghost predicate Clean(r: Run, n: nat)
  {
    forall s :: 0 <= s < |r.services| ==> MissFree(r, s, n)
  }

  lemma CleanMonotone(r: Run, m: nat, n: nat)
    requires m <= n && Clean(r, n)
    ensures Clean(r, m)
  {
    forall s | 0 <= s < |r.services| ensures MissFree(r, s, m) {
      assert MissFree(r, s, n);
    }
  }

  ghost function RunOf(plan: Plan): Run {
    Run(plan.services, (t: nat) => At(plan, t), (t: nat) => Event(plan, t))
  }

  lemma RunOfMoves(plan: Plan, s: nat, t: nat)
    requires ValidServices(plan.services) && s < |plan.services|
    ensures Moves(RunOf(plan), s, t)
  {
    Advance(plan, t, t + 1);
    assert Advances(plan.services, At(plan, t), Event(plan, t), Before(plan, t + 1), At(plan, t + 1), s);
  }

  lemma SimulatorIsLawful(plan: Plan)
    requires ValidServices(plan.services)
    ensures Lawful(RunOf(plan)) && Follows(RunOf(plan), plan.policy)
  {
    AtStart(plan);
    forall s: nat, t: nat | s < |plan.services| ensures Moves(RunOf(plan), s, t) {
      RunOfMoves(plan, s, t);
    }
  }

  lemma RunOfAt(plan: Plan, t: nat)
    ensures RunOf(plan).at(t) == At(plan, t) && RunOf(plan).event(t) == Event(plan, t)
  {
  }

  lemma MissedMatches(plan: Plan, s: nat, u: nat, t: nat)
    requires ValidServices(plan.services) && s < |plan.services| && t == u + 1
    ensures MissedFrom(plan.services, At(plan, u), Event(plan, u), s) <==> MissesAt(plan, s, t)
  {
    Advance(plan, u, t);
    assert Advances(plan.services, At(plan, u), Event(plan, u), Before(plan, t), At(plan, t), s);
  }

  lemma NoMissAtStart(plan: Plan, s: nat)
    requires ValidServices(plan.services) && s < |plan.services|
    ensures !MissesAt(plan, s, 0)
  {
    assert Before(plan, 0) == Initial(plan.services);
  }

  lemma MissedAtMatches(plan: Plan, s: nat, t: nat)
    requires ValidServices(plan.services) && s < |plan.services|
    ensures MissedAt(RunOf(plan), s, t) == MissesAt(plan, s, t)
  {
    var here, there := MissedAt(RunOf(plan), s, t), MissesAt(plan, s, t);
    if t == 0 {
      NoMissAtStart(plan, s);
    } else {
      RunOfAt(plan, t - 1);
      MissedMatches(plan, s, t - 1, t);
    }
    assert here == there;
  }

  lemma CleanResetMatches(plan: Plan, t: nat)
    requires ValidServices(plan.services)
    ensures CleanReset(plan, t) <==> forall s :: 0 <= s < |plan.services| ==> !MissedAt(RunOf(plan), s, t)
  {
    forall s | 0 <= s < |plan.services|
      ensures MissedAt(RunOf(plan), s, t) <==> MissesAt(plan, s, t)
    {
      MissedAtMatches(plan, s, t);
    }
  }

  lemma CountersMatch(plan: Plan, n: nat)
    requires ValidServices(plan.services)
    ensures Misses(plan, n) == 0 <==> Clean(RunOf(plan), n)
  {
    NoMisses(plan, n);
    var r := RunOf(plan);
    forall t: nat ensures CleanReset(plan, t) <==> forall s :: 0 <= s < |plan.services| ==> !MissedAt(r, s, t) {
      CleanResetMatches(plan, t);
    }
    if Misses(plan, n) == 0 {
      forall s, t | 0 <= s < |plan.services| && 0 <= t < n ensures !MissedAt(r, s, t) {
        assert CleanReset(plan, t);
      }
    }
    if Clean(r, n) {
      forall t | 0 <= t < n ensures CleanReset(plan, t) {
        forall s | 0 <= s < |plan.services| ensures !MissedAt(r, s, t) {
          assert MissFree(r, s, n);
        }
      }
    }
  }

  /** The simulator's run: lawful, following its policy, with the miss counter at 0
      after n ticks exactly when the run is clean so far. */
  lemma SimulatorRun(plan: Plan) returns (r: Run)
    requires ValidServices(plan.services)
    ensures r == RunOf(plan) && r.services == plan.services && Lawful(r) && Follows(r, plan.policy)
    ensures forall n: nat :: Misses(plan, n) == 0 <==> Clean(r, n)
  {
    r := RunOf(plan);
    SimulatorIsLawful(plan);
    forall n: nat ensures Misses(plan, n) == 0 <==> Clean(r, n) {
      CountersMatch(plan, n);
    }
  }

  // ----- First consequences of the law

  lemma Countdown(t: int, d: int)
    requires d >= 1
    ensures (t + 1) % d == if t % d == d - 1 then 0 else t % d + 1
  {
    Arith.NextPhase(t, d);
  }

  /** The countdown is the phase of the clock, and a fresh period has a fresh counter. */
  lemma {:induction false} Phase(r: Run, s: nat, t: nat)
    requires Lawful(r) && s < |r.services|
    ensures r.at(t).deadline[s] == r.services[s].period - t % r.services[s].period
    ensures 0 <= r.at(t).runtime[s] <= r.services[s].cost
    ensures t % r.services[s].period == 0 ==> r.at(t).runtime[s] == 0
  {
    var d := r.services[s].period;
    assert Moves(r, s, t);
    if t == 0 {
      Arith.DivModUnique(0, d, 0, 0);
    } else {
      var u := t - 1;
      Phase(r, s, u);
      assert Moves(r, s, u);
      Countdown(u, d);
    }
  }
}
