/** The two exact fixed-priority tests of feasibility/feasibility_tests.c and its updated
    copy: the completion-time iteration and the scheduling-point search. */
module Feasibility {
  import opened Arith
  import opened Schedule

  predicate Positive(services: seq<Service>) {
    forall s :: 0 <= s < |services| ==> services[s].period >= 1 && services[s].cost >= 0
  }

  /** Work that services 0 .. n-1 can release in a window of x ticks opening with all of them. */
  function Calls(services: seq<Service>, n: nat, x: int): (calls: seq<int>)
    requires Positive(services) && n <= |services|
    ensures |calls| == n
    ensures forall j :: 0 <= j < n ==> calls[j] == CeilDiv(x, services[j].period) * services[j].cost
  {
    seq(n, j requires 0 <= j < n => CeilDiv(x, services[j].period) * services[j].cost)
  }

  /** Service i's own job plus the interference of every service above it. */
  function Load(services: seq<Service>, i: nat, x: int): int
    requires Positive(services) && i < |services|
  {
    services[i].cost + Sum(Calls(services, i, x))
  }

  function CostsUpTo(services: seq<Service>, n: nat): (costs: seq<int>)
    requires n <= |services|
    ensures |costs| == n
    ensures forall j :: 0 <= j < n ==> costs[j] == services[j].cost
  {
    seq(n, j requires 0 <= j < n => services[j].cost)
  }

  /** Where the iteration starts: one job of each service down to i. */
  function Start(services: seq<Service>, i: nat): int
    requires i < |services|
  {
    Sum(CostsUpTo(services, i + 1))
  }

  /** r is a fixed point the iteration for service i can stop at. */
  ghost predicate IsCompletion(services: seq<Service>, i: nat, r: int)
    requires Positive(services) && i < |services|
  {
    r >= Start(services, i) && Load(services, i, r) == r
  }

  ghost predicate CompletesWithin(services: seq<Service>, i: nat, deadline: int)
    requires Positive(services) && i < |services|
  {
    exists r :: IsCompletion(services, i, r) && r <= deadline
  }

  /** The value of an after k passes of the iteration. */
  function Iterate(services: seq<Service>, i: nat, k: nat): int
    requires Positive(services) && i < |services|
  {
    if k == 0 then Start(services, i) else Load(services, i, Iterate(services, i, k - 1))
  }

  ghost predicate StopsAt(services: seq<Service>, i: nat, k: nat)
    requires Positive(services) && i < |services|
  {
    Iterate(services, i, k + 1) == Iterate(services, i, k)
  }

  /** The iteration for service i stops. */
  ghost predicate Converges(services: seq<Service>, i: nat)
    requires Positive(services) && i < |services|
  {
    exists k: nat :: StopsAt(services, i, k)
  }

  /** A window of x ticks holds all the work released in it. */
  ghost predicate Holds(services: seq<Service>, i: nat, x: int)
    requires Positive(services) && i < |services|
  {
    x >= Start(services, i) && Load(services, i, x) <= x
  }

  // ----- The load as a function of the window

  lemma LoadMonotone(services: seq<Service>, i: nat, x: int, y: int)
    requires Positive(services) && i < |services| && x <= y
    ensures Load(services, i, x) <= Load(services, i, y)
  {
    forall j | 0 <= j < i ensures Calls(services, i, x)[j] <= Calls(services, i, y)[j] {
      CeilDivMonotone(x, y, services[j].period);
      MulLe(services[j].cost, CeilDiv(x, services[j].period), CeilDiv(y, services[j].period));
    }
    SumLe(Calls(services, i, x), Calls(services, i, y));
  }

  lemma StartSplit(services: seq<Service>, i: nat)
    requires Positive(services) && i < |services|
    ensures Start(services, i) == Sum(CostsUpTo(services, i)) + services[i].cost
    ensures 0 <= Sum(CostsUpTo(services, i))
  {
    assert CostsUpTo(services, i + 1)[..i] == CostsUpTo(services, i);
    SumNonNegative(CostsUpTo(services, i));
  }

  /** A non-empty window releases at least one job of each service. */
  lemma LoadAtLeastStart(services: seq<Service>, i: nat, x: int)
    requires Positive(services) && i < |services|
    requires x >= 1 || (x == 0 && Start(services, i) == 0)
    ensures Start(services, i) <= Load(services, i, x)
  {
    StartSplit(services, i);
    if x >= 1 {
      forall j | 0 <= j < i ensures CostsUpTo(services, i)[j] <= Calls(services, i, x)[j] {
        CeilDivLeast(x, services[j].period, 0);
        MulLe(services[j].cost, 1, CeilDiv(x, services[j].period));
      }
      SumLe(CostsUpTo(services, i), Calls(services, i, x));
    } else {
      forall j | 0 <= j < i ensures Calls(services, i, x)[j] == 0 {
        SumAtLeastEach(CostsUpTo(services, i), j);
      }
      SumZeros(Calls(services, i, x));
    }
  }

  /** No positive fixed point lies below the start: the least one found is the least positive. */
  lemma PositiveFixedPoint(services: seq<Service>, i: nat, x: int)
    requires Positive(services) && i < |services| && x >= 1 && Load(services, i, x) == x
    ensures IsCompletion(services, i, x)
  {
    LoadAtLeastStart(services, i, x);
  }

  lemma {:induction false} IterateClimbs(services: seq<Service>, i: nat, k: nat)
    requires Positive(services) && i < |services|
    ensures Start(services, i) <= Iterate(services, i, k) <= Iterate(services, i, k + 1)
  {
    if k == 0 {
      SumNonNegative(CostsUpTo(services, i + 1));
      LoadAtLeastStart(services, i, Start(services, i));
    } else {
      IterateClimbs(services, i, k - 1);
      LoadMonotone(services, i, Iterate(services, i, k - 1), Iterate(services, i, k));
    }
  }

  /** Every iterate stays below every window that holds its work. */
  lemma {:induction false} IterateBelow(services: seq<Service>, i: nat, k: nat, x: int)
    requires Positive(services) && i < |services| && Holds(services, i, x)
    ensures Iterate(services, i, k) <= x
  {
    if k == 0 {
    } else {
      IterateBelow(services, i, k - 1, x);
      LoadMonotone(services, i, Iterate(services, i, k - 1), x);
    }
  }

  /** A climb that has not stopped within k passes has gained k ticks. */
  lemma {:induction false} IterateGains(services: seq<Service>, i: nat, k: nat)
    requires Positive(services) && i < |services|
    requires forall q: nat :: q < k ==> !StopsAt(services, i, q)
    ensures Iterate(services, i, k) >= Start(services, i) + k
  {
    if k == 0 {
    } else {
      IterateGains(services, i, k - 1);
      IterateClimbs(services, i, k - 1);
      assert !StopsAt(services, i, k - 1);
    }
  }

  /** The iterates stop exactly when some window holds all the work released in it. */
  lemma StopsExactly(services: seq<Service>, i: nat)
    requires Positive(services) && i < |services|
    ensures Converges(services, i) <==> exists x :: Holds(services, i, x)
  {
    if k: nat :| StopsAt(services, i, k) {
      IterateClimbs(services, i, k);
      assert Holds(services, i, Iterate(services, i, k));
    }
    if x :| Holds(services, i, x) {
      if !Converges(services, i) {
        var k := x - Start(services, i) + 1;
        IterateGains(services, i, k);
        IterateBelow(services, i, k, x);
      }
    }
  }

  /** Where the iterates stop is the least fixed point and the least window that holds its work. */
  lemma StopIsLeast(services: seq<Service>, i: nat, k: nat)
    requires Positive(services) && i < |services| && StopsAt(services, i, k)
    ensures IsCompletion(services, i, Iterate(services, i, k))
    ensures forall x :: Holds(services, i, x) ==> Iterate(services, i, k) <= x
  {
    IterateClimbs(services, i, k);
    forall x | Holds(services, i, x) ensures Iterate(services, i, k) <= x {
      IterateBelow(services, i, k, x);
    }
  }

  // ----- completion_time_feasibility

  /** The sum of the first n calls, as the inner loop accumulates it. */
  method Interference(services: seq<Service>, i: nat, an: int) returns (anext: int)
    requires Positive(services) && i < |services|
    ensures anext == Load(services, i, an)
  {
    anext := services[i].cost;
    ghost var calls := Calls(services, i, an);
    for j := 0 to i
      invariant anext == services[i].cost + Sum(calls[..j])
    {
      SumPrefix(calls, j);
      anext := anext + CeilDiv(an, services[j].period) * services[j].cost;
    }
    assert calls[..i] == calls;
  }

  method SumOfCosts(services: seq<Service>, i: nat) returns (an: int)
    requires Positive(services) && i < |services|
    ensures an == Start(services, i)
  {
    an := 0;
    ghost var costs := CostsUpTo(services, i + 1);
    for j := 0 to i + 1
      invariant an == Sum(costs[..j])
    {
      SumPrefix(costs, j);
      an := an + services[j].cost;
    }
    assert costs[..i + 1] == costs;
  }

  /** The iteration for one service climbs from the sum of costs to the least fixed point,
      which is also the least window that holds its own work. */
  method CompletionTime(services: seq<Service>, i: nat) returns (an: int)
    requires Positive(services) && i < |services| && Converges(services, i)
    ensures IsCompletion(services, i, an)
    ensures forall x :: Holds(services, i, x) ==> an <= x
  {
    an := SumOfCosts(services, i);
    ghost var k := 0;
    ghost var stop: nat :| StopsAt(services, i, stop);
    ghost var limit := Iterate(services, i, stop);
    StopIsLeast(services, i, stop);
    while true
      invariant an == Iterate(services, i, k) && an <= limit
      decreases limit - an
    {
      var anext := Interference(services, i, an);
      if anext == an {
        StopIsLeast(services, i, k);
        break;
      }
      IterateClimbs(services, i, k);
      k := k + 1;
      IterateBelow(services, i, k, limit);
      an := anext;
    }
  }

  /** The same loop watched for a number of passes, for any services: either it has stopped
      at the least fixed point, or it is still climbing, whatever the utilisation. */
  method CompletionPasses(services: seq<Service>, i: nat, passes: nat) returns (an: int, stopped: bool)
    requires Positive(services) && i < |services|
    ensures stopped <==> exists k :: 0 <= k < passes && StopsAt(services, i, k)
    ensures stopped ==> IsCompletion(services, i, an) && forall x :: Holds(services, i, x) ==> an <= x
    ensures !stopped ==> an == Iterate(services, i, passes) >= Start(services, i) + passes
  {
    an := SumOfCosts(services, i);
    stopped := false;
    for k := 0 to passes
      invariant an == Iterate(services, i, k) >= Start(services, i) + k
      invariant forall q :: 0 <= q < k ==> !StopsAt(services, i, q)
    {
      var anext := Interference(services, i, an);
      if anext == an {
        StopIsLeast(services, i, k);
        assert StopsAt(services, i, k);
        return an, true;
      }
      IterateClimbs(services, i, k);
      an := anext;
    }
  }

  method CompletionTimeFeasibility(services: seq<Service>, deadline: seq<int>) returns (setFeasible: bool)
    requires Positive(services) && |deadline| == |services|
    requires forall i :: 0 <= i < |services| ==> Converges(services, i)
    ensures setFeasible <==> forall i :: 0 <= i < |services| ==> CompletesWithin(services, i, deadline[i])
  {
    setFeasible := true;
    for i := 0 to |services|
      invariant setFeasible <==> forall k :: 0 <= k < i ==> CompletesWithin(services, k, deadline[k])
    {
      var an := CompletionTime(services, i);
      if an > deadline[i] {
        forall r | IsCompletion(services, i, r) ensures r > deadline[i] {
          assert Holds(services, i, r);
        }
        setFeasible := false;
      } else {
        assert CompletesWithin(services, i, deadline[i]);
      }
    }
  }

  // ----- scheduling_point_feasibility

  /** All work released down to service i in a window of x ticks fits into the window. */
  predicate FitsAt(services: seq<Service>, i: nat, x: int)
    requires Positive(services) && i < |services|
  {
    Sum(Calls(services, i + 1, x)) <= x
  }

  /** The k-th multiple of service s's period is a scheduling point of service i that fits. */
  predicate FitsAtPoint(services: seq<Service>, i: nat, s: int, k: int)
    requires Positive(services) && i < |services| && 0 <= s <= i
  {
    1 <= k <= services[i].period / services[s].period && FitsAt(services, i, k * services[s].period)
  }

  ghost predicate FitsSomewhere(services: seq<Service>, i: nat)
    requires Positive(services) && i < |services|
  {
    exists s, k :: 0 <= s <= i && FitsAtPoint(services, i, s, k)
  }

  /** One service of the search, with the source's two breaks. */
  method SearchPoints(services: seq<Service>, i: nat) returns (status: bool)
    requires Positive(services) && i < |services|
    ensures status <==> FitsSomewhere(services, i)
  {
    status := false;
    var s := 0;
    while s <= i
      invariant 0 <= s <= i + 1 && !status
      invariant forall q, k :: 0 <= q < s ==> !FitsAtPoint(services, i, q, k)
    {
      var floorPeriods := services[i].period / services[s].period;
      var numPeriods := 1;
      while numPeriods <= floorPeriods
        invariant 1 <= numPeriods && !status
        invariant forall k :: k < numPeriods ==> !FitsAtPoint(services, i, s, k)
        decreases floorPeriods - numPeriods
      {
        var temp := PointLoad(services, i, numPeriods * services[s].period);
        if temp <= numPeriods * services[s].period {
          assert FitsAtPoint(services, i, s, numPeriods);
          status := true;
          break;
        }
        numPeriods := numPeriods + 1;
      }
      if status {
        break;
      }
      s := s + 1;
    }
  }

  method PointLoad(services: seq<Service>, i: nat, x: int) returns (temp: int)
    requires Positive(services) && i < |services|
    ensures temp == Sum(Calls(services, i + 1, x))
  {
    temp := 0;
    ghost var calls := Calls(services, i + 1, x);
    for j := 0 to i + 1
      invariant temp == Sum(calls[..j])
    {
      SumPrefix(calls, j);
      temp := temp + services[j].cost * CeilDiv(x, services[j].period);
    }
    assert calls[..i + 1] == calls;
  }

  method SchedulingPointFeasibility(services: seq<Service>) returns (rc: bool)
    requires Positive(services)
    ensures rc <==> forall i :: 0 <= i < |services| ==> FitsSomewhere(services, i)
  {
    rc := true;
    for i := 0 to |services|
      invariant rc <==> forall k :: 0 <= k < i ==> FitsSomewhere(services, k)
    {
      var status := SearchPoints(services, i);
      if !status {
        rc := false;
      }
    }
  }

  // ----- The two tests agree

  /** Within service i's period its own job is called exactly once. */
  lemma PointLoadIsLoad(services: seq<Service>, i: nat, x: int)
    requires Positive(services) && i < |services| && 1 <= x <= services[i].period
    ensures Sum(Calls(services, i + 1, x)) == Load(services, i, x)
  {
    assert Calls(services, i + 1, x)[..i] == Calls(services, i, x);
    CeilDivLeast(x, services[i].period, 1);
    CeilDivLeast(x, services[i].period, 0);
  }

  /** A window that holds its work contains a fixed point. */
  lemma HoldsThenCompletes(services: seq<Service>, i: nat, x: int)
    requires Positive(services) && i < |services| && Holds(services, i, x)
    ensures CompletesWithin(services, i, x)
  {
    StopsExactly(services, i);
    var k: nat :| StopsAt(services, i, k);
    StopIsLeast(services, i, k);
    assert IsCompletion(services, i, Iterate(services, i, k));
  }

  lemma PointThenCompletes(services: seq<Service>, i: nat, s: int, k: int)
    requires Positive(services) && i < |services| && 0 <= s <= i && FitsAtPoint(services, i, s, k)
    ensures CompletesWithin(services, i, services[i].period)
  {
    var x := k * services[s].period;
    var q, r := DivMod(services[i].period, services[s].period);
    MultiplesOrdered(k, q, services[s].period);
    MultiplesOrdered(1, k, services[s].period);
    PointLoadIsLoad(services, i, x);
    LoadAtLeastStart(services, i, x);
    HoldsThenCompletes(services, i, x);
    var c :| IsCompletion(services, i, c) && c <= x;
    assert c <= services[i].period;
  }

  /** The first scheduling point at or after r among the services 0 .. n-1, or the end of
      service i's period. */
  lemma {:induction false} NextPoint(services: seq<Service>, i: nat, r: int, n: nat) returns (s: int, k: int)
    requires Positive(services) && n <= i < |services| && 1 <= r <= services[i].period
    ensures 0 <= s <= i && 1 <= k <= services[i].period / services[s].period
    ensures r <= k * services[s].period
    ensures forall j :: 0 <= j < n ==> k * services[s].period <= CeilDiv(r, services[j].period) * services[j].period
    decreases n
  {
    if n == 0 {
      s, k := i, 1;
      DivModUnique(services[i].period, services[i].period, 1, 0);
    } else {
      s, k := NextPoint(services, i, r, n - 1);
      var d := services[n - 1].period;
      var c := CeilDiv(r, d);
      CeilDivLeast(r, d, c);
      CeilDivLeast(r, d, 0);
      if c * d < k * services[s].period {
        var q, m := DivMod(services[i].period, services[s].period);
        MultiplesOrdered(k, q, services[s].period);
        var q', m' := DivMod(services[i].period, d);
        MultiplesOrdered(q', c, d);
        MultiplesOrdered(q' + 1, c, d);
        s, k := n - 1, c;
      }
    }
  }

  lemma PointCall(services: seq<Service>, i: nat, r: int, x: int, j: nat)
    requires Positive(services) && j < i < |services| && IsCompletion(services, i, r)
    requires 1 <= x && (r >= 1 ==> x <= CeilDiv(r, services[j].period) * services[j].period)
    ensures CeilDiv(x, services[j].period) * services[j].cost <= CeilDiv(r, services[j].period) * services[j].cost
  {
    if r <= 0 {
      SumAtLeastEach(CostsUpTo(services, i + 1), j);
    } else {
      CeilDivLeast(x, services[j].period, CeilDiv(r, services[j].period));
      MulLe(services[j].cost, CeilDiv(x, services[j].period), CeilDiv(r, services[j].period));
    }
  }

  lemma PointFits(services: seq<Service>, i: nat, r: int, x: int)
    requires Positive(services) && i < |services| && IsCompletion(services, i, r)
    requires 1 <= x <= services[i].period && r <= x
    requires r >= 1 ==> forall j :: 0 <= j < i ==> x <= CeilDiv(r, services[j].period) * services[j].period
    ensures FitsAt(services, i, x)
  {
    forall j | 0 <= j < i ensures Calls(services, i, x)[j] <= Calls(services, i, r)[j] {
      PointCall(services, i, r, x, j);
    }
    SumLe(Calls(services, i, x), Calls(services, i, r));
    PointLoadIsLoad(services, i, x);
  }

  lemma CompletesThenPoint(services: seq<Service>, i: nat)
    requires Positive(services) && i < |services| && CompletesWithin(services, i, services[i].period)
    ensures FitsSomewhere(services, i)
  {
    var r :| IsCompletion(services, i, r) && r <= services[i].period;
    SumNonNegative(CostsUpTo(services, i + 1));
    var s, k := NextPoint(services, i, if r == 0 then 1 else r, i);
    var q, m := DivMod(services[i].period, services[s].period);
    MultiplesOrdered(k, q, services[s].period);
    PointFits(services, i, r, k * services[s].period);
    assert FitsAtPoint(services, i, s, k);
  }

  /** For every service, in any period order: a scheduling point fits exactly when the
      completion-time iteration has a fixed point within the period. */
  lemma TestsAgree(services: seq<Service>, i: nat)
    requires Positive(services) && i < |services|
    ensures FitsSomewhere(services, i) <==> CompletesWithin(services, i, services[i].period)
  {
    if FitsSomewhere(services, i) {
      var s, k :| 0 <= s <= i && FitsAtPoint(services, i, s, k);
      PointThenCompletes(services, i, s, k);
    }
    if CompletesWithin(services, i, services[i].period) {
      CompletesThenPoint(services, i);
    }
  }

  // ----- The deadlines the search ignores

  /** The search never reads the deadlines it is given. Its answer for one set is right
      exactly when the least fixed point does not fall between period and deadline. */
  lemma PointTestRightExactly(services: seq<Service>, i: nat, deadline: int)
    requires Positive(services) && i < |services|
    ensures (FitsSomewhere(services, i) <==> CompletesWithin(services, i, deadline)) <==>
            forall an :: LeastCompletion(services, i, an) ==> (an <= services[i].period <==> an <= deadline)
  {
    TestsAgree(services, i);
    CompletesByLeast(services, i, deadline);
    CompletesByLeast(services, i, services[i].period);
  }

  ghost predicate LeastCompletion(services: seq<Service>, i: nat, an: int)
    requires Positive(services) && i < |services|
  {
    IsCompletion(services, i, an) && forall r :: IsCompletion(services, i, r) ==> an <= r
  }

  lemma CompletesByLeast(services: seq<Service>, i: nat, deadline: int)
    requires Positive(services) && i < |services|
    ensures CompletesWithin(services, i, deadline) <==> exists an :: LeastCompletion(services, i, an) && an <= deadline
  {
    if r :| IsCompletion(services, i, r) && r <= deadline {
      assert Holds(services, i, r);
      StopsExactly(services, i);
      var k: nat :| StopsAt(services, i, k);
      StopIsLeast(services, i, k);
      forall c | IsCompletion(services, i, c) ensures Iterate(services, i, k) <= c {
        assert Holds(services, i, c);
      }
      assert LeastCompletion(services, i, Iterate(services, i, k));
    }
  }

  /** A service that cannot finish by a deadline shorter than its period still passes. */
  lemma PointTestIgnoresDeadlines()
    ensures var services := [Service(4, 2)];
            Positive(services) && FitsSomewhere(services, 0) && !CompletesWithin(services, 0, 1)
  {
    var services := [Service(4, 2)];
    assert CostsUpTo(services, 1)[..0] == [] && Calls(services, 1, 4)[..0] == [];
    assert FitsAtPoint(services, 0, 0, 1);
  }

  ghost predicate HasPeriods(services: seq<Service>, periods: seq<int>) {
    && Positive(services) && |services| == |periods|
    && forall s :: 0 <= s < |periods| ==> services[s].period == periods[s]
  }

  /** The search and the iteration agree on service i, whatever the costs. */
  ghost predicate RightForAllCosts(periods: seq<int>, i: nat, deadline: int)
    requires i < |periods|
  {
    forall services :: HasPeriods(services, periods) ==>
      (FitsSomewhere(services, i) <==> CompletesWithin(services, i, deadline))
  }

  /** For given periods the search answers for a deadline, whatever the costs, exactly when
      the deadline is the period. */
  lemma PointTestNeedsPeriodDeadline(periods: seq<int>, i: nat, deadline: int)
    requires i < |periods| && forall s :: 0 <= s < |periods| ==> periods[s] >= 1
    ensures RightForAllCosts(periods, i, deadline) <==> deadline == periods[i]
  {
    if deadline == periods[i] {
      forall services | HasPeriods(services, periods)
        ensures FitsSomewhere(services, i) <==> CompletesWithin(services, i, deadline)
      {
        TestsAgree(services, i);
      }
    } else {
      var cost := if deadline < periods[i] then periods[i] else periods[i] + 1;
      var services := Lone(periods, i, cost);
      LoneCompletion(periods, i, cost, deadline);
      LoneCompletion(periods, i, cost, periods[i]);
      TestsAgree(services, i);
      assert HasPeriods(services, periods);
    }
  }

  /** Service i alone costs anything. */
  function Lone(periods: seq<int>, i: nat, cost: nat): (services: seq<Service>)
    requires i < |periods| && forall s :: 0 <= s < |periods| ==> periods[s] >= 1
    ensures HasPeriods(services, periods)
  {
    seq(|periods|, s requires 0 <= s < |periods| => Service(periods[s], if s == i then cost else 0))
  }

  lemma LoneCompletion(periods: seq<int>, i: nat, cost: nat, deadline: int)
    requires i < |periods| && forall s :: 0 <= s < |periods| ==> periods[s] >= 1
    ensures CompletesWithin(Lone(periods, i, cost), i, deadline) <==> cost <= deadline
  {
    var services := Lone(periods, i, cost);
    forall x: int ensures Load(services, i, x) == cost {
      SumZeros(Calls(services, i, x));
    }
    StartSplit(services, i);
    SumZeros(CostsUpTo(services, i));
    assert IsCompletion(services, i, cost);
  }
}
