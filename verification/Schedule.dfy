/** The tick-level meaning of schedule/schedule.c: three phases a tick, and for each
    policy a declarative statement of which service a tick must run. */
module Schedule {
  import Arith

  /** The sentinel both selection loops start from (limits.h, 32-bit int). */
  const INT_MAX := 0x7fff_ffff

  datatype Service = Service(period: int, cost: int)

  datatype Policy = RM | EDF | LLF

  /** The dynamic counters of all services: Deadline counts down, Runtime counts up. */
  datatype State = State(deadline: seq<int>, runtime: seq<int>)

  /** One simulation: a policy over a set of services, priority by index. */
  datatype Plan = Plan(policy: Policy, services: seq<Service>)

  predicate ValidService(service: Service) {
    1 <= service.period <= INT_MAX && 0 <= service.cost
  }

  predicate ValidServices(services: seq<Service>) {
    forall s :: 0 <= s < |services| ==> ValidService(services[s])
  }

  predicate Shaped(services: seq<Service>, st: State) {
    |st.deadline| == |services| && |st.runtime| == |services|
  }

  // ----- Phase 1: expiry and reset

  function Reset(services: seq<Service>, st: State): State
    requires Shaped(services, st)
  {
    State(seq(|services|, s requires 0 <= s < |services| =>
            if st.deadline[s] == 0 then services[s].period else st.deadline[s]),
          seq(|services|, s requires 0 <= s < |services| =>
            if st.deadline[s] == 0 then 0 else st.runtime[s]))
  }

  /** Service s reaches its deadline with work left over. */
  predicate Missed(services: seq<Service>, st: State, s: int)
    requires Shaped(services, st) && 0 <= s < |services|
  {
    st.deadline[s] == 0 && st.runtime[s] != services[s].cost
  }

  function MissFlags(services: seq<Service>, st: State): seq<int>
    requires Shaped(services, st)
  {
    seq(|services|, s requires 0 <= s < |services| => if Missed(services, st, s) then 1 else 0)
  }

  // ----- Phase 2: policy choice

  predicate Pending(services: seq<Service>, st: State, s: int)
    requires Shaped(services, st) && 0 <= s < |services|
  {
    st.runtime[s] < services[s].cost
  }

  /** What the policy minimises: the index, the time to the deadline, or the laxity. */
  function Key(policy: Policy, services: seq<Service>, st: State, s: int): int
    requires Shaped(services, st) && 0 <= s < |services|
  {
    match policy
    case RM => s
    case EDF => st.deadline[s]
    case LLF => st.deadline[s] - (services[s].cost - st.runtime[s])
  }

  /** A pending service the selection loop can pick at all. */
  predicate Eligible(policy: Policy, services: seq<Service>, st: State, s: int)
    requires Shaped(services, st) && 0 <= s < |services|
  {
    Pending(services, st, s) && (policy == RM || Key(policy, services, st, s) < INT_MAX)
  }

  /** What the tick's row of the statistics table holds for service s: its key when pending,
      -1 when not. RM keeps no such table and leaves the zeros it was allocated with. */
  function Shown(policy: Policy, services: seq<Service>, st: State, s: int): int
    requires Shaped(services, st) && 0 <= s < |services|
  {
    if policy == RM then 0 else if Pending(services, st, s) then Key(policy, services, st, s) else -1
  }

  /** s is eligible, has the least key, and is the lowest index with that key. */
  ghost predicate IsPick(policy: Policy, services: seq<Service>, st: State, s: int)
    requires Shaped(services, st)
  {
    && 0 <= s < |services|
    && Eligible(policy, services, st, s)
    && forall q :: 0 <= q < |services| && Eligible(policy, services, st, q) ==>
         && Key(policy, services, st, s) <= Key(policy, services, st, q)
         && (Key(policy, services, st, s) == Key(policy, services, st, q) ==> s <= q)
  }

  /** The service the tick runs; -1 when it runs none. */
  ghost function Pick(policy: Policy, services: seq<Service>, st: State): (s: int)
    requires Shaped(services, st)
    ensures -1 <= s < |services|
  {
    if exists s :: IsPick(policy, services, st, s) then
      var s :| IsPick(policy, services, st, s); s
    else -1
  }

  lemma PickIsPick(policy: Policy, services: seq<Service>, st: State)
    requires Shaped(services, st)
    ensures var s := Pick(policy, services, st); s != -1 ==> IsPick(policy, services, st, s)
  {
  }

  lemma PickUnique(policy: Policy, services: seq<Service>, st: State, s: int)
    requires Shaped(services, st) && IsPick(policy, services, st, s)
    ensures Pick(policy, services, st) == s
  {
  }

  /** A tick goes idle exactly when no service is eligible. */
  lemma PickExists(policy: Policy, services: seq<Service>, st: State)
    requires Shaped(services, st)
    ensures Pick(policy, services, st) == -1 <==> forall q :: 0 <= q < |services| ==> !Eligible(policy, services, st, q)
  {
    if q :| 0 <= q < |services| && Eligible(policy, services, st, q) {
      var s := LeastEligible(policy, services, st, |services|, q);
      assert IsPick(policy, services, st, s);
    }
  }

  lemma LeastEligible(policy: Policy, services: seq<Service>, st: State, n: nat, q: nat) returns (s: nat)
    requires Shaped(services, st) && q < n <= |services| && Eligible(policy, services, st, q)
    ensures s < n && Eligible(policy, services, st, s)
    ensures forall r :: 0 <= r < n && Eligible(policy, services, st, r) ==>
              Key(policy, services, st, s) <= Key(policy, services, st, r)
              && (Key(policy, services, st, s) == Key(policy, services, st, r) ==> s <= r)
    decreases n
  {
    if q == n - 1 && forall r :: 0 <= r < n - 1 ==> !Eligible(policy, services, st, r) {
      return q;
    }
    var r :| 0 <= r < n - 1 && Eligible(policy, services, st, r);
    s := LeastEligible(policy, services, st, n - 1, r);
    if Eligible(policy, services, st, n - 1) && Key(policy, services, st, n - 1) < Key(policy, services, st, s) {
      s := n - 1;
    }
  }

  function Execute(st: State, s: int): State
    requires -1 <= s < |st.runtime|
  {
    if s == -1 then st else st.(runtime := st.runtime[s := st.runtime[s] + 1])
  }

  // ----- Phase 3: clock tick

  function Tick(st: State): State {
    st.(deadline := seq(|st.deadline|, s requires 0 <= s < |st.deadline| => st.deadline[s] - 1))
  }

  // ----- Whole runs

  function Initial(services: seq<Service>): State {
    State(seq(|services|, s requires 0 <= s < |services| => services[s].period), seq(|services|, s => 0))
  }

  /** The counters as tick t begins. */
  ghost function Before(plan: Plan, t: nat): (st: State)
    ensures Shaped(plan.services, st)
  {
    if t == 0 then Initial(plan.services)
    else
      var st := Reset(plan.services, Before(plan, t - 1));
      Tick(Execute(st, Pick(plan.policy, plan.services, st)))
  }

  /** The counters after the reset phase of tick t. */
  ghost function At(plan: Plan, t: nat): (st: State)
    ensures Shaped(plan.services, st)
  {
    Reset(plan.services, Before(plan, t))
  }

  /** What events[t] records: the service run at tick t, or -1. */
  ghost function Event(plan: Plan, t: nat): (s: int)
    ensures -1 <= s < |plan.services|
  {
    Pick(plan.policy, plan.services, At(plan, t))
  }

  ghost function Events(plan: Plan, n: nat): (events: seq<int>)
    ensures |events| == n
    ensures forall t :: 0 <= t < n ==> events[t] == Event(plan, t)
  {
    seq(n, t requires 0 <= t < n => Event(plan, t))
  }

  /** The reset phase of tick t finds service s past its deadline and unfinished. */
  ghost predicate MissesAt(plan: Plan, s: int, t: nat)
    requires 0 <= s < |plan.services|
  {
    Missed(plan.services, Before(plan, t), s)
  }

  /** Deadlines missed in the reset phase of tick t. */
  ghost function MissCount(plan: Plan, t: nat): int {
    Arith.Sum(MissFlags(plan.services, Before(plan, t)))
  }

  ghost function MissCounts(plan: Plan): nat -> int {
    (t: nat) => MissCount(plan, t)
  }

  /** Deadlines missed in the reset phases of ticks 0 .. n-1. */
  ghost function Misses(plan: Plan, n: nat): int {
    Arith.Total(MissCounts(plan), n)
  }

  /** Counters a reset phase can leave behind. */
  predicate InRange(services: seq<Service>, st: State) {
    && Shaped(services, st)
    && forall s :: 0 <= s < |services| ==>
         1 <= st.deadline[s] <= services[s].period && 0 <= st.runtime[s] <= services[s].cost
  }

  /** One full tick seen from one service: where its counters go and what a miss is. */
  ghost predicate Advances(services: seq<Service>, a: State, e: int, next: State, b: State, s: int)
    requires Shaped(services, a) && Shaped(services, next) && Shaped(services, b) && 0 <= s < |services|
  {
    var run := if e == s then 1 else 0;
    && a.runtime[s] + run <= services[s].cost
    && (Missed(services, next, s) <==> a.deadline[s] == 1 && a.runtime[s] + run != services[s].cost)
    && (if a.deadline[s] == 1
        then b.deadline[s] == services[s].period && b.runtime[s] == 0
        else b.deadline[s] == a.deadline[s] - 1 && b.runtime[s] == a.runtime[s] + run)
  }

  lemma StepAdvances(services: seq<Service>, a: State, e: int)
    requires ValidServices(services) && InRange(services, a)
    requires -1 <= e < |services| && (e != -1 ==> Pending(services, a, e))
    ensures var next := Tick(Execute(a, e));
            var b := Reset(services, next);
            && Shaped(services, next) && InRange(services, b)
            && forall s :: 0 <= s < |services| ==> Advances(services, a, e, next, b, s)
  {
  }

  lemma BeforeNext(plan: Plan, t: nat, next: nat)
    requires next == t + 1
    ensures Before(plan, next) == Tick(Execute(At(plan, t), Event(plan, t)))
    ensures At(plan, next) == Reset(plan.services, Before(plan, next))
    ensures Event(plan, t) != -1 ==> Pending(plan.services, At(plan, t), Event(plan, t))
  {
  }

  lemma AtStart(plan: Plan)
    requires ValidServices(plan.services)
    ensures At(plan, 0) == Initial(plan.services) && InRange(plan.services, At(plan, 0))
  {
    var st := At(plan, 0);
    assert st.deadline == Initial(plan.services).deadline && st.runtime == Initial(plan.services).runtime;
  }

  lemma AdvanceFrom(plan: Plan, t: nat, next: nat)
    requires ValidServices(plan.services) && next == t + 1 && InRange(plan.services, At(plan, t))
    ensures InRange(plan.services, At(plan, next))
    ensures forall s :: 0 <= s < |plan.services| ==>
              Advances(plan.services, At(plan, t), Event(plan, t), Before(plan, next), At(plan, next), s)
  {
    BeforeNext(plan, t, next);
    StepAdvances(plan.services, At(plan, t), Event(plan, t));
  }

  lemma {:induction false} AtInRange(plan: Plan, t: nat)
    requires ValidServices(plan.services)
    ensures InRange(plan.services, At(plan, t))
  {
    if t == 0 {
      AtStart(plan);
    } else {
      AtInRange(plan, t - 1);
      AdvanceFrom(plan, t - 1, t);
    }
  }

  lemma Advance(plan: Plan, t: nat, next: nat)
    requires ValidServices(plan.services) && next == t + 1
    ensures InRange(plan.services, At(plan, t)) && InRange(plan.services, At(plan, next))
    ensures forall s :: 0 <= s < |plan.services| ==>
              Advances(plan.services, At(plan, t), Event(plan, t), Before(plan, next), At(plan, next), s)
  {
    AtInRange(plan, t);
    AdvanceFrom(plan, t, next);
  }

  ghost predicate CleanReset(plan: Plan, t: nat) {
    forall s :: 0 <= s < |plan.services| ==> !MissesAt(plan, s, t)
  }

  lemma CleanResetCount(plan: Plan, t: nat)
    ensures MissCount(plan, t) >= 0
    ensures MissCount(plan, t) == 0 <==> CleanReset(plan, t)
  {
    FlagsCount(plan.services, Before(plan, t));
    assert forall s :: 0 <= s < |plan.services| ==>
             (MissesAt(plan, s, t) <==> Missed(plan.services, Before(plan, t), s));
  }

  lemma FlagsCount(services: seq<Service>, st: State)
    requires Shaped(services, st)
    ensures Arith.Sum(MissFlags(services, st)) >= 0
    ensures Arith.Sum(MissFlags(services, st)) == 0 <==> forall s :: 0 <= s < |services| ==> !Missed(services, st, s)
  {
    var flags := MissFlags(services, st);
    Arith.SumNonNegative(flags);
    if forall s :: 0 <= s < |services| ==> !Missed(services, st, s) {
      Arith.SumZeros(flags);
    } else {
      var s :| 0 <= s < |services| && Missed(services, st, s);
      Arith.SumAtLeastEach(flags, s);
    }
  }

  lemma MissCountsNonNegative(plan: Plan)
    ensures forall t: nat :: MissCounts(plan)(t) >= 0 && (MissCounts(plan)(t) == 0 <==> CleanReset(plan, t))
  {
    forall t: nat
      ensures MissCounts(plan)(t) >= 0 && (MissCounts(plan)(t) == 0 <==> CleanReset(plan, t))
    {
      CleanResetCount(plan, t);
    }
  }

  lemma MissesMonotone(plan: Plan, m: nat, n: nat)
    requires m <= n
    ensures 0 <= Misses(plan, m) <= Misses(plan, n)
  {
    MissCountsNonNegative(plan);
    Arith.TotalMonotone(MissCounts(plan), m, n);
  }

  /** The counter stays at 0 exactly when no single reset sees a miss. */
  lemma NoMisses(plan: Plan, n: nat)
    ensures Misses(plan, n) == 0 <==> forall t :: 0 <= t < n ==> CleanReset(plan, t)
  {
    MissCountsNonNegative(plan);
    Arith.TotalZero(MissCounts(plan), n);
  }
}
