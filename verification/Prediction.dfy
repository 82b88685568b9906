/** The analysis meets the simulator: the answers of the two feasibility tests are facts
    about every run of the RM simulation, of any length. */
module Prediction {
  import opened Arith
  import opened Schedule
  import opened Runs
  import opened Accounting
  import opened Periodicity
  import OptimalPolicies
  import opened Feasibility
  import opened RateMonotonic

  lemma FreeServiceNeverMisses(r: Run, i: nat, n: nat)
    requires Lawful(r) && i < |r.services| && r.services[i].cost == 0
    ensures MissFree(r, i, n)
  {
    forall t | 0 <= t < n ensures !MissedAt(r, i, t) {
      OptimalPolicies.FreeServiceMeets(r, i, t);
    }
  }

  /** Every service that costs anything has a fixed point within its period. */
  ghost predicate Analysable(services: seq<Service>)
    requires Positive(services)
  {
    forall i :: 0 <= i < |services| && services[i].cost > 0 ==> CompletesWithin(services, i, services[i].period)
  }

  /** RM soundness: fixed points within the periods keep the miss counter at 0 for any run
      length. The priority order need not follow the periods. */
  lemma RmSound(services: seq<Service>)
    requires ValidServices(services) && Analysable(services)
    ensures NeverMisses(Plan(RM, services))
  {
    var r := SimulatorRun(Plan(RM, services));
    forall n: nat ensures Clean(r, n) {
      forall i | 0 <= i < |services| ensures MissFree(r, i, n) {
        if services[i].cost > 0 {
          CompletionPreventsMisses(r, i, n);
        } else {
          FreeServiceNeverMisses(r, i, n);
        }
      }
    }
  }

  /** Response times, in any RM run: the job of service i released at any tick has its
      whole cost within an ticks, an being any fixed point within the period, even if other
      services miss. */
  lemma RmResponseTime(r: Run, i: nat, release: nat, an: nat)
    requires Lawful(r) && Follows(r, RM) && i < |r.services|
    requires release % r.services[i].period == 0
    requires IsCompletion(r.services, i, an) && an <= r.services[i].period
    ensures Spent(r, i, release, release + an) == r.services[i].cost
  {
    ResponseBound(r, i, release, an, release + an);
    JobNeverExceeds(r, i, release, release + an);
  }

  lemma JobNeverExceeds(r: Run, i: nat, release: nat, t: nat)
    requires Lawful(r) && i < |r.services|
    requires release % r.services[i].period == 0 && release <= t <= release + r.services[i].period
    ensures Spent(r, i, release, t) <= r.services[i].cost
  {
    if t > release {
      JobProgress(r, i, release, t - 1);
      assert Moves(r, i, t - 1);
    }
  }

  /** RM exactness: a service with cost but no fixed point within its period shows up as a
      counted miss in every run longer than the longest period. */
  lemma RmDetects(services: seq<Service>, n: nat)
    requires ValidServices(services) && !Analysable(services)
    requires forall s :: 0 <= s < |services| ==> services[s].period < n
    ensures Misses(Plan(RM, services), n) >= 1
  {
    var r := SimulatorRun(Plan(RM, services));
    UnanalysableRun(r, n);
    MissesMonotone(Plan(RM, services), 0, n);
  }

  lemma UnanalysableRun(r: Run, n: nat)
    requires Lawful(r) && Follows(r, RM) && !Analysable(r.services)
    requires forall s :: 0 <= s < |r.services| ==> r.services[s].period < n
    ensures !Clean(r, n)
  {
    var i :| 0 <= i < |r.services| && r.services[i].cost > 0 && !CompletesWithin(r.services, i, r.services[i].period);
    if Clean(r, n) {
      CleanMonotone(r, r.services[i].period + 1, n);
      CleanThenCompletes(r, i);
    }
  }

  function LongestPeriod(services: seq<Service>): (longest: nat)
    requires Positive(services)
    ensures forall s :: 0 <= s < |services| ==> services[s].period <= longest
  {
    if |services| == 0 then 0
    else
      var init, last := LongestPeriod(services[..|services| - 1]), services[|services| - 1].period;
      assert forall s :: 0 <= s < |services| - 1 ==> services[s] == services[..|services| - 1][s];
      if init < last then last else init
  }

  /** The RM simulator never misses exactly when the analysis finds its fixed points; and
      one tick more than the longest period is enough simulation to tell. */
  lemma RmExact(services: seq<Service>)
    requires ValidServices(services)
    ensures NeverMisses(Plan(RM, services)) <==> Analysable(services)
    ensures NeverMisses(Plan(RM, services)) <==> Misses(Plan(RM, services), LongestPeriod(services) + 1) == 0
  {
    if Analysable(services) {
      RmSound(services);
    } else {
      RmDetects(services, LongestPeriod(services) + 1);
    }
  }

  /** Some window within i's first period holds all the work the services above release in it. */
  ghost predicate FreeMoment(services: seq<Service>, i: nat)
    requires Positive(services) && i < |services|
  {
    exists x :: 1 <= x <= services[i].period && Sum(Calls(services, i, x)) <= x
  }

  /** No service of cost 0 sits below so much work that the tests reject it. */
  ghost predicate FreeServicesPass(services: seq<Service>)
    requires Positive(services)
  {
    forall i :: 0 <= i < |services| && services[i].cost == 0 ==> FreeMoment(services, i)
  }

  lemma CompletionGivesMoment(services: seq<Service>, i: nat, r: int)
    requires Positive(services) && i < |services| && services[i].cost == 0
    requires IsCompletion(services, i, r) && r <= services[i].period
    ensures FreeMoment(services, i)
  {
    SumNonNegative(CostsUpTo(services, i + 1));
    if r >= 1 {
      assert Sum(Calls(services, i, r)) == r;
    } else {
      forall j | 0 <= j < i ensures Calls(services, i, 1)[j] == 0 {
        SumAtLeastEach(CostsUpTo(services, i + 1), j);
      }
      SumZeros(Calls(services, i, 1));
      assert Sum(Calls(services, i, 1)) <= 1;
    }
  }

  lemma MomentGivesCompletion(services: seq<Service>, i: nat, x: int)
    requires Positive(services) && i < |services| && services[i].cost == 0
    requires 1 <= x <= services[i].period && Sum(Calls(services, i, x)) <= x
    ensures CompletesWithin(services, i, services[i].period)
  {
    LoadAtLeastStart(services, i, x);
    HoldsThenCompletes(services, i, x);
    var r :| IsCompletion(services, i, r) && r <= x;
    assert r <= services[i].period;
  }

  /** For a service of cost 0 the iteration finds its fixed point in time exactly when the
      services above leave it a moment. */
  lemma FreeMomentCompletes(services: seq<Service>, i: nat)
    requires Positive(services) && i < |services| && services[i].cost == 0
    ensures CompletesWithin(services, i, services[i].period) <==> FreeMoment(services, i)
  {
    if r :| IsCompletion(services, i, r) && r <= services[i].period {
      CompletionGivesMoment(services, i, r);
    }
    if x :| 1 <= x <= services[i].period && Sum(Calls(services, i, x)) <= x {
      MomentGivesCompletion(services, i, x);
    }
  }

  /** The run has a tick of i's first period after which no service above i is pending. */
  ghost predicate ShowsMoment(r: Run, i: nat)
    requires i < |r.services|
  {
    exists x :: 1 <= x <= r.services[i].period && AboveDone(r, i, x)
  }

  /** The moment the analysis finds is one that the run shows, as long as the services above
      miss nothing in i's first period. */
  lemma FreeMomentShows(r: Run, i: nat)
    requires Lawful(r) && Follows(r, RM) && i < |r.services|
    requires forall j :: 0 <= j < i ==> MissFree(r, j, r.services[i].period)
    ensures FreeMoment(r.services, i) <==> ShowsMoment(r, i)
  {
    if x :| 1 <= x <= r.services[i].period && Sum(Calls(r.services, i, x)) <= x {
      CallsLeaveMoment(r, i, x);
      var y :| 1 <= y <= x && AboveDone(r, i, y);
      assert y <= r.services[i].period;
    }
    if x :| 1 <= x <= r.services[i].period && AboveDone(r, i, x) {
      forall j | 0 <= j < i ensures MissFree(r, j, x) {
        assert MissFree(r, j, r.services[i].period);
      }
      DoneAboveCoversCalls(r, i, x);
    }
  }

  /** In the RM run every service of cost 0 sees such a tick in its first period. */
  ghost predicate ShowsMoments(services: seq<Service>) {
    var r := RunOf(Plan(RM, services));
    forall i :: 0 <= i < |r.services| && r.services[i].cost == 0 ==> ShowsMoment(r, i)
  }

  lemma MomentsMatch(services: seq<Service>)
    requires ValidServices(services) && NeverMisses(Plan(RM, services))
    ensures FreeServicesPass(services) <==> ShowsMoments(services)
  {
    var r := SimulatorRun(Plan(RM, services));
    forall i | 0 <= i < |services| ensures FreeMoment(services, i) <==> ShowsMoment(r, i) {
      assert Clean(r, services[i].period);
      FreeMomentShows(r, i);
    }
  }

  /** What each test answers for the whole set, deadlines being the periods. */
  ghost predicate TestsPass(services: seq<Service>)
    requires Positive(services)
  {
    forall i :: 0 <= i < |services| ==> CompletesWithin(services, i, services[i].period)
  }

  /** Both tests answer for the simulator. They pass a set exactly when RM never misses and
      each service of cost 0 finds a free moment in its first period, as demand has it or as
      the run shows it; so the answer is exact when RM misses, or when they all do. */
  lemma TestsPredictRm(services: seq<Service>)
    requires ValidServices(services)
    ensures (forall i :: 0 <= i < |services| ==> FitsSomewhere(services, i)) <==> TestsPass(services)
    ensures TestsPass(services) <==> NeverMisses(Plan(RM, services)) && FreeServicesPass(services)
    ensures TestsPass(services) <==> NeverMisses(Plan(RM, services)) && ShowsMoments(services)
    ensures (TestsPass(services) <==> NeverMisses(Plan(RM, services))) <==>
            !NeverMisses(Plan(RM, services)) || FreeServicesPass(services)
  {
    forall i | 0 <= i < |services|
      ensures FitsSomewhere(services, i) <==> CompletesWithin(services, i, services[i].period)
      ensures services[i].cost == 0 ==>
                (CompletesWithin(services, i, services[i].period) <==> FreeMoment(services, i))
    {
      TestsAgree(services, i);
      if services[i].cost == 0 {
        FreeMomentCompletes(services, i);
      }
    }
    RmExact(services);
    if NeverMisses(Plan(RM, services)) {
      MomentsMatch(services);
    }
  }

  /** A zero cost can break the exactness of both tests: the service below is charged with
      the work above it although it never needs the processor. */
  lemma FreeServiceRejected()
    ensures var services := [Service(4, 2), Service(1, 0)];
            && ValidServices(services) && Positive(services)
            && NeverMisses(Plan(RM, services))
            && !CompletesWithin(services, 1, 1) && !FitsSomewhere(services, 1)
  {
    var services := [Service(4, 2), Service(1, 0)];
    StartSplit(services, 0);
    StartSplit(services, 1);
    assert CostsUpTo(services, 0) == [] && Calls(services, 0, 2) == [];
    assert CostsUpTo(services, 1)[..0] == [];
    assert IsCompletion(services, 0, 2);
    assert CompletesWithin(services, 0, 4);
    RmSound(services);
    assert Start(services, 1) == 2;
    TestsAgree(services, 1);
  }

  /** When an RM run misses nothing up to service i's first deadline, run and iteration
      name the same tick: the first job gets its last unit of cost in tick an - 1, an being
      the least fixed point. */
  lemma FirstJobFinishes(r: Run, i: nat, an: nat)
    requires Lawful(r) && Follows(r, RM) && i < |r.services| && r.services[i].cost > 0
    requires Clean(r, r.services[i].period + 1)
    requires IsCompletion(r.services, i, an) && forall c :: IsCompletion(r.services, i, c) ==> an <= c
    ensures 1 <= an <= r.services[i].period && r.event(an - 1) == i
    ensures Spent(r, i, 0, an - 1) == r.services[i].cost - 1 && Spent(r, i, 0, an) == r.services[i].cost
  {
    var f := FirstJobExact(r, i);
    assert f == an;
  }

  // ----- When the completion-time iteration stops

  /** Utilisation of the services above i, over h ticks. */
  function WeightsAbove(services: seq<Service>, i: nat, h: int): (w: seq<int>)
    requires ValidServices(services) && i < |services|
    ensures |w| == i
  {
    Weights(services, h)[..i]
  }

  lemma CallsAtLeastShare(services: seq<Service>, i: nat, h: int, x: int)
    requires ValidServices(services) && CommonMultiple(services, h) && i < |services| && x >= 0
    ensures h * Sum(Calls(services, i, x)) >= x * Sum(WeightsAbove(services, i, h))
  {
    var w, calls := WeightsAbove(services, i, h), Calls(services, i, x);
    forall j | 0 <= j < i ensures Scaled(w, x)[j] <= Scaled(calls, h)[j] {
      CallShare(services[j], h, x);
    }
    SumScale(w, x, Scaled(w, x));
    SumScale(calls, h, Scaled(calls, h));
    SumLe(Scaled(w, x), Scaled(calls, h));
  }

  lemma CallShare(service: Service, h: int, x: int)
    requires ValidService(service) && h >= 1 && h % service.period == 0 && x >= 0
    ensures x * (h / service.period * service.cost) <= h * (CeilDiv(x, service.period) * service.cost)
  {
    var d, c := service.period, service.cost;
    var k, z := DivMod(h, d);
    var q := CeilDiv(x, d);
    MultiplesOrdered(k, 0, d);
    CeilDivLeast(x, d, q);
    MulLe(k, x, q * d);
    assert k * (q * d) == h * q;
    MulLe(c, k * x, h * q);
    assert c * (k * x) == x * (k * c);
    assert c * (h * q) == h * (q * c);
  }

  /** Windows of k common multiples carry exactly k shares. */
  lemma CallsAtMultiple(services: seq<Service>, i: nat, h: int, k: int)
    requires ValidServices(services) && CommonMultiple(services, h) && i < |services| && k >= 1
    ensures Load(services, i, k * h) == services[i].cost + k * Sum(WeightsAbove(services, i, h))
  {
    var w, calls := WeightsAbove(services, i, h), Calls(services, i, k * h);
    forall j | 0 <= j < i ensures calls[j] == Scaled(w, k)[j] {
      var d := services[j].period;
      var q, z := DivMod(h, d);
      assert k * h == (k * q) * d;
      DivModUnique(k * h, d, k * q, 0);
      CeilDivFloor(k * h, d);
      assert (k * q) * services[j].cost == k * (q * services[j].cost);
    }
    assert calls == Scaled(w, k);
    SumScale(w, k, calls);
  }

  /** Spare time for service i: utilisation above it below 1, or 1 with nothing left to do. */
  predicate SpareTime(services: seq<Service>, i: nat, h: int)
    requires ValidServices(services) && i < |services|
  {
    var u := Sum(WeightsAbove(services, i, h));
    u < h || (u == h && services[i].cost == 0)
  }

  /** The iteration for service i stops exactly when the services above it leave time over. */
  lemma ConvergesExactly(services: seq<Service>, i: nat, h: int)
    requires ValidServices(services) && CommonMultiple(services, h) && i < |services|
    ensures Converges(services, i) <==> SpareTime(services, i, h)
  {
    StopsExactly(services, i);
    if x :| Holds(services, i, x) {
      HoldingBoundsUtilisation(services, i, h, x);
    }
    if SpareTime(services, i, h) {
      SpareTimeHolds(services, i, h);
    }
  }

  /** As many common multiples as service i has cost make a window that holds its work. */
  lemma SpareTimeHolds(services: seq<Service>, i: nat, h: int)
    requires ValidServices(services) && CommonMultiple(services, h) && i < |services|
    requires SpareTime(services, i, h)
    ensures exists x :: Holds(services, i, x)
  {
    var k := if services[i].cost == 0 then 1 else services[i].cost;
    CallsAtMultiple(services, i, h, k);
    SpareArithmetic(k, Sum(WeightsAbove(services, i, h)), h, services[i].cost);
    LoadAtLeastStart(services, i, k * h);
    assert Holds(services, i, k * h);
  }

  lemma SpareArithmetic(k: int, u: int, h: int, c: int)
    requires k >= 1 && h >= 1 && 0 <= c <= k && (u < h || (u == h && c == 0))
    ensures c + k * u <= k * h && k * h >= 1
  {
    MulLe(k, 1, h);
    if u < h {
      MulLe(k, u + 1, h);
      assert k * (u + 1) == k * u + k;
    }
  }

  lemma HoldingBoundsUtilisation(services: seq<Service>, i: nat, h: int, x: int)
    requires ValidServices(services) && CommonMultiple(services, h) && i < |services|
    requires Holds(services, i, x)
    ensures SpareTime(services, i, h)
  {
    var u, c := Sum(WeightsAbove(services, i, h)), services[i].cost;
    SumNonNegative(CostsUpTo(services, i + 1));
    CallsAtLeastShare(services, i, h, x);
    MulLe(h, Load(services, i, x), x);
    assert h * c + x * u <= h * x;
    MulLe(h, 0, c);
    if u >= h {
      if x == 0 {
        FreeAbove(services, i, h);
      } else {
        MultiplesOrdered(h, u, x);
        if c >= 1 {
          MulLe(h, 1, c);
        }
      }
    }
  }

  lemma FreeAbove(services: seq<Service>, i: nat, h: int)
    requires ValidServices(services) && i < |services| && Start(services, i) <= 0
    ensures Sum(WeightsAbove(services, i, h)) == 0
  {
    forall j | 0 <= j < i ensures WeightsAbove(services, i, h)[j] == 0 {
      SumAtLeastEach(CostsUpTo(services, i + 1), j);
    }
    SumZeros(WeightsAbove(services, i, h));
  }

  /** An iteration that never stops: the service above takes every tick there is. */
  lemma DivergesExample()
    ensures var services := [Service(1, 1), Service(2, 1)];
            && ValidServices(services) && Positive(services) && !Converges(services, 1)
            && forall k: nat :: Iterate(services, 1, k) >= 2 + k
  {
    var services := [Service(1, 1), Service(2, 1)];
    assert WeightsAbove(services, 1, 2) == [2];
    ConvergesExactly(services, 1, 2);
    assert CostsUpTo(services, 2)[..1] == [1] && CostsUpTo(services, 2)[..1][..0] == [];
    forall k: nat ensures Iterate(services, 1, k) >= 2 + k {
      IterateGains(services, 1, k);
    }
  }

  /** The iteration stops for every service of a set that RM schedules, free ones included. */
  lemma SchedulableConverges(services: seq<Service>, i: nat)
    requires ValidServices(services) && i < |services|
    requires NeverMisses(Plan(RM, services))
    ensures Converges(services, i)
  {
    var h := Product(services);
    ProductIsCommonMultiple(services);
    if !Underloaded(services, h) {
      OverloadMisses(Plan(RM, services), h, h + 1);
    }
    UtilisationAbove(services, i, h);
    ConvergesExactly(services, i, h);
  }

  /** Utilisation above i and i's own share stay within the total. */
  lemma UtilisationAbove(services: seq<Service>, i: nat, h: nat)
    requires ValidServices(services) && CommonMultiple(services, h) && i < |services| && Underloaded(services, h)
    ensures SpareTime(services, i, h)
  {
    var w := Weights(services, h);
    forall s | 0 <= s < |services| ensures w[s] >= 0 && (services[s].cost > 0 ==> w[s] > 0) {
      OptimalPolicies.WeightPositive(services[s], h);
    }
    SumPrefix(w, i);
    SumOfPrefix(w, i + 1);
  }
}
