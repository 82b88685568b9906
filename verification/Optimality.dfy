/** EDF and LLF schedule whatever can be scheduled. Both keep one invariant: for every
    horizon x, the work due within x ticks fits into x ticks. */
module Optimality {
  import opened Arith
  import opened Schedule
  import Runs
  import Accounting

  // ----- Demand: the work that must be finished within a horizon

  /** Work of one service due within x ticks: the rest of its current job, then whole jobs. */
  function Due(service: Service, left: int, done: int, x: int): int
    requires ValidService(service)
  {
    if left <= x then service.cost - done + (x - left) / service.period * service.cost else 0
  }

  function Dues(services: seq<Service>, st: State, x: int): (dues: seq<int>)
    requires ValidServices(services) && Shaped(services, st)
    ensures |dues| == |services|
    ensures forall s :: 0 <= s < |services| ==> dues[s] == Due(services[s], st.deadline[s], st.runtime[s], x)
  {
    seq(|services|, s requires 0 <= s < |services| => Due(services[s], st.deadline[s], st.runtime[s], x))
  }

  function Demand(services: seq<Service>, st: State, x: int): int
    requires ValidServices(services) && Shaped(services, st)
  {
    Sum(Dues(services, st, x))
  }

  /** Every horizon can hold the work due within it. */
  ghost predicate Fits(services: seq<Service>, st: State)
    requires ValidServices(services) && Shaped(services, st)
  {
    forall x :: 0 <= x ==> Demand(services, st, x) <= x
  }

  lemma DueBounds(service: Service, left: int, done: int, x: int)
    requires ValidService(service) && 0 <= done <= service.cost
    ensures 0 <= Due(service, left, done, x)
    ensures Due(service, left, done, x) <= Due(service, left, done, x + 1)
  {
    if left <= x {
      DivMonotone(0, x - left, service.period);
      DivModUnique(0, service.period, 0, 0);
      DivMonotone(x - left, x + 1 - left, service.period);
      MulLe(service.cost, 0, (x - left) / service.period);
      MulLe(service.cost, (x - left) / service.period, (x + 1 - left) / service.period);
    } else if left == x + 1 {
      DivModUnique(0, service.period, 0, 0);
    }
  }

  lemma {:induction false} DueMonotone(service: Service, left: int, done: int, x: int, y: int)
    requires ValidService(service) && 0 <= done <= service.cost && x <= y
    ensures 0 <= Due(service, left, done, x) <= Due(service, left, done, y)
    decreases y - x
  {
    DueBounds(service, left, done, x);
    if x == y {
    } else {
      DueMonotone(service, left, done, x + 1, y);
    }
  }

  /** Share of a service in h ticks against the jobs that fit into y ticks. */
  lemma JobsWithinShare(service: Service, h: int, y: int)
    requires ValidService(service) && h >= 1 && h % service.period == 0 && y >= 0
    ensures h * (y / service.period * service.cost) <= y * (h / service.period * service.cost)
  {
    var k, c, q := h / service.period, service.cost, y / service.period;
    assert q * service.period <= y;
    MulLe(k, q * service.period, y);
    assert k * (q * service.period) == h * q;
    MulLe(c, h * q, k * y);
    assert c * (h * q) == h * (q * c);
    assert c * (k * y) == y * (k * c);
  }

  /** Running e takes one tick off every horizon that reaches e's deadline. */
  lemma ExecuteDemand(services: seq<Service>, st: State, e: int, x: int)
    requires ValidServices(services) && Shaped(services, st) && -1 <= e < |services|
    ensures Demand(services, Execute(st, e), x)
         == Demand(services, st, x) - if e != -1 && st.deadline[e] <= x then 1 else 0
  {
    var hit := if e != -1 && st.deadline[e] <= x then e else -1;
    var flags := seq(|services|, s => if s == hit then 1 else 0);
    SumIndicator(flags, hit);
    SumAdd(Dues(services, Execute(st, e), x), flags, Dues(services, st, x));
  }

  /** The next reset sees, at each horizon, no more than was due one tick further out. */
  lemma DueAfterTick(service: Service, left: int, done: int, x: int)
    requires ValidService(service) && 1 <= left && 0 <= done <= service.cost && x >= 0
    ensures if left == 1
            then Due(service, service.period, 0, x) == Due(service, left, done, x + 1) - (service.cost - done)
            else Due(service, left - 1, done, x) == Due(service, left, done, x + 1)
  {
    if left == 1 {
      var q := x / service.period;
      if service.period <= x {
        DivModUnique(x - service.period, service.period, q - 1, x % service.period);
        assert (q - 1) * service.cost == q * service.cost - service.cost;
      } else {
        DivModUnique(x, service.period, 0, x);
      }
    }
  }

  /** If running left each horizon one tick to spare, the next state fits and misses nothing. */
  lemma StepFits(r: Runs.Run, t: nat, x: nat)
    requires Runs.Lawful(r)
    requires Demand(r.services, Execute(r.at(t), r.event(t)), x + 1) <= x
    ensures Demand(r.services, r.at(t + 1), x) <= x
    ensures x == 0 ==> Runs.CleanAt(r, t + 1)
  {
    var done := Execute(r.at(t), r.event(t));
    var before, after := Dues(r.services, done, x + 1), Dues(r.services, r.at(t + 1), x);
    forall s | 0 <= s < |r.services|
      ensures 0 <= after[s] <= before[s]
      ensures x == 0 ==> before[s] == 0 ==> !Runs.MissedAt(r, s, t + 1)
    {
      assert Runs.Moves(r, s, t) && Runs.Moves(r, s, t + 1);
      DueAfterTick(r.services[s], done.deadline[s], done.runtime[s], x);
      DueMonotone(r.services[s], r.at(t + 1).deadline[s], r.at(t + 1).runtime[s], x, x);
      if x == 0 {
        DivModUnique(0, r.services[s].period, 0, 0);
      }
    }
    SumLe(after, before);
    if x == 0 {
      forall s | 0 <= s < |r.services| ensures before[s] == 0 {
        SumAtLeastEach(before, s);
      }
    }
  }

  // ----- Utilisation bounds what the future can ask for

  /** With no unfinished job due within x, at most x - 1 ticks can be due. */
  lemma QuietHorizon(services: seq<Service>, h: int, st: State, x: int)
    requires ValidServices(services) && InRange(services, st)
    requires Accounting.CommonMultiple(services, h) && Accounting.Underloaded(services, h)
    requires x >= 1
    requires forall s :: 0 <= s < |services| && st.deadline[s] <= x ==> !Pending(services, st, s)
    ensures Demand(services, st, x) <= x - 1
  {
    forall s | 0 <= s < |services|
      ensures Scaled(Dues(services, st, x), h)[s] <= Scaled(Accounting.Weights(services, h), x - 1)[s]
    {
      FinishedDue(services[s], h, st.deadline[s], st.runtime[s], x);
    }
    WeightedSum(Dues(services, st, x), Accounting.Weights(services, h), h, x - 1);
  }

  lemma FinishedDue(service: Service, h: int, left: int, done: int, x: int)
    requires ValidService(service) && h >= 1 && h % service.period == 0 && x >= 1 && left >= 1
    requires 0 <= done <= service.cost && (left <= x ==> done == service.cost)
    ensures h * Due(service, left, done, x) <= (x - 1) * (h / service.period * service.cost)
  {
    var w := h / service.period * service.cost;
    JobsWithinShare(service, h, x - 1);
    DivMonotone(0, h, service.period);
    DivModUnique(0, service.period, 0, 0);
    DivMonotone(0, x - 1, service.period);
    MulLe(service.cost, 0, h / service.period);
    MulLe(w, 0, x - 1);
    if left <= x {
      DivMonotone(x - left, x - 1, service.period);
      MulLe(service.cost, (x - left) / service.period, (x - 1) / service.period);
      MulLe(h, Due(service, left, done, x), (x - 1) / service.period * service.cost);
    }
  }

  lemma InitialFits(services: seq<Service>, h: int)
    requires ValidServices(services) && Accounting.CommonMultiple(services, h) && Accounting.Underloaded(services, h)
    ensures Fits(services, Initial(services))
  {
    var st := Initial(services);
    forall x | 0 <= x ensures Demand(services, st, x) <= x {
      forall s | 0 <= s < |services|
        ensures Scaled(Dues(services, st, x), h)[s] <= Scaled(Accounting.Weights(services, h), x)[s]
      {
        FreshDue(services[s], x);
        JobsWithinShare(services[s], h, x);
      }
      WeightedSum(Dues(services, st, x), Accounting.Weights(services, h), h, x);
    }
  }

  /** A job just released and its successors: one cost for each period that fits. */
  lemma FreshDue(service: Service, x: int)
    requires ValidService(service) && x >= 0
    ensures Due(service, service.period, 0, x) == x / service.period * service.cost
  {
    DueAfterTick(service, 1, service.cost, x);
    assert Due(service, 1, service.cost, x + 1) == x / service.period * service.cost;
  }
}
