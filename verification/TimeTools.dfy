/** simple-capture/timetools.c: subtracting two time stamps by carrying through the second. */
module TimeTools {
  import Arith

  const NS_PER_SEC := 1_000_000_000

  datatype Stamp = Stamp(sec: int, nsec: int)

  function TotalNs(s: Stamp): int {
    s.sec * NS_PER_SEC + s.nsec
  }

  predicate Normal(s: Stamp) {
    0 <= s.nsec < NS_PER_SEC
  }

  /** The struct the C code passes by pointer. */
  class Timespec {
    var tv_sec: int
    var tv_nsec: int

    function Value(): Stamp
      reads this
    {
      Stamp(tv_sec, tv_nsec)
    }

    constructor (s: Stamp)
      ensures Value() == s
    {
      tv_sec, tv_nsec := s.sec, s.nsec;
    }
  }

  /** y after the two carry steps. */
  function Carried(x: Stamp, y: Stamp): Stamp {
    var down := if x.nsec < y.nsec then (y.nsec - x.nsec) / NS_PER_SEC + 1 else 0;
    var y1 := Stamp(y.sec + down, y.nsec - NS_PER_SEC * down);
    var up := if x.nsec - y1.nsec > NS_PER_SEC then (x.nsec - y1.nsec) / NS_PER_SEC else 0;
    Stamp(y1.sec - up, y1.nsec + NS_PER_SEC * up)
  }

  function Difference(x: Stamp, y: Stamp): Stamp {
    var c := Carried(x, y);
    Stamp(x.sec - c.sec, x.nsec - c.nsec)
  }

  predicate Negative(x: Stamp, y: Stamp) {
    x.sec < Carried(x, y).sec
  }

  /** result := x - y; y is rewritten on the way. x and y may be the same object. */
  method TimespecSubtract(result: Timespec, x: Timespec, y: Timespec) returns (negative: bool)
    requires result != x && result != y
    modifies result, y
    ensures x != y ==> x.Value() == old(x.Value())
    ensures y.Value() == Carried(old(x.Value()), old(y.Value()))
    ensures result.Value() == Difference(old(x.Value()), old(y.Value()))
    ensures negative <==> Negative(old(x.Value()), old(y.Value()))
  {
    if x.tv_nsec < y.tv_nsec {
      var nsec := (y.tv_nsec - x.tv_nsec) / NS_PER_SEC + 1;
      y.tv_nsec := y.tv_nsec - NS_PER_SEC * nsec;
      y.tv_sec := y.tv_sec + nsec;
    }
    if x.tv_nsec - y.tv_nsec > NS_PER_SEC {
      var nsec := (x.tv_nsec - y.tv_nsec) / NS_PER_SEC;
      y.tv_nsec := y.tv_nsec + NS_PER_SEC * nsec;
      y.tv_sec := y.tv_sec - nsec;
    }
    result.tv_sec := x.tv_sec - y.tv_sec;
    result.tv_nsec := x.tv_nsec - y.tv_nsec;
    negative := x.tv_sec < y.tv_sec;
  }

  /** The subtraction is exact for any two stamps, normalised or not: y keeps its meaning,
      the difference is the difference, and its nanoseconds land in one closed second. */
  lemma SubtractExact(x: Stamp, y: Stamp)
    ensures TotalNs(Carried(x, y)) == TotalNs(y)
    ensures TotalNs(Difference(x, y)) == TotalNs(x) - TotalNs(y)
    ensures 0 <= Difference(x, y).nsec <= NS_PER_SEC
    ensures Difference(x, y).nsec == NS_PER_SEC <==>
              (y.nsec > x.nsec && (y.nsec - x.nsec) % NS_PER_SEC == 0) || x.nsec - y.nsec == NS_PER_SEC
  {
  }

  /** The reported sign, for any two stamps: right, except that equal times count as negative
      when the carry leaves a whole second in the nanoseconds. */
  lemma NegativeExactly(x: Stamp, y: Stamp)
    ensures Negative(x, y) <==>
              TotalNs(x) < TotalNs(y)
              || (TotalNs(x) == TotalNs(y) && (y.nsec > x.nsec || x.nsec - y.nsec == NS_PER_SEC))
  {
    SubtractExact(x, y);
    var d := Difference(x, y);
    assert Negative(x, y) <==> d.sec < 0;
    if d.sec < 0 {
      Arith.MulLe(NS_PER_SEC, d.sec, -1);
    }
  }

  /** On normalised stamps the sign is right and the difference is normalised. */
  lemma NormalSubtract(x: Stamp, y: Stamp)
    requires Normal(x) && Normal(y)
    ensures Negative(x, y) <==> TotalNs(x) < TotalNs(y)
    ensures Normal(Difference(x, y))
  {
    SubtractExact(x, y);
    NegativeExactly(x, y);
  }

  // ----- One y through several calls

  /** y after one call for each of xs, in order. */
  function CarriedBy(xs: seq<Stamp>, y: Stamp): Stamp {
    if |xs| == 0 then y else Carried(xs[|xs| - 1], CarriedBy(xs[..|xs| - 1], y))
  }

  /** The last of xs whose nanoseconds differ from nsec has fewer. */
  predicate EndsBelow(xs: seq<Stamp>, nsec: int) {
    |xs| > 0 &&
    if xs[|xs| - 1].nsec != nsec then xs[|xs| - 1].nsec < nsec
    else EndsBelow(xs[..|xs| - 1], nsec)
  }

  /** However many calls a normalised y has been through, it is unchanged or has one second
      moved out of its nanoseconds. */
  lemma {:induction false} ChainLeaves(xs: seq<Stamp>, y: Stamp)
    requires Normal(y) && forall i :: 0 <= i < |xs| ==> Normal(xs[i])
    ensures CarriedBy(xs, y) == if EndsBelow(xs, y.nsec) then Stamp(y.sec + 1, y.nsec - NS_PER_SEC) else y
  {
    if |xs| == 0 {
    } else {
      ChainLeaves(xs[..|xs| - 1], y);
    }
  }

  /** The sign reported for a y that has been through earlier calls is wrong exactly for
      equal times, when the last of those calls that did not match y's nanoseconds had fewer. */
  lemma NegativeAfterCalls(xs: seq<Stamp>, y: Stamp, x: Stamp)
    requires Normal(x) && Normal(y) && forall i :: 0 <= i < |xs| ==> Normal(xs[i])
    ensures Negative(x, CarriedBy(xs, y)) <==>
              TotalNs(x) < TotalNs(y) || (TotalNs(x) == TotalNs(y) && EndsBelow(xs, y.nsec))
  {
    ChainLeaves(xs, y);
    NegativeExactly(x, CarriedBy(xs, y));
    if TotalNs(x) == TotalNs(y) {
      EqualTotals(x, y);
    }
  }

  lemma EqualTotals(x: Stamp, y: Stamp)
    requires Normal(x) && Normal(y) && TotalNs(x) == TotalNs(y)
    ensures x == y
  {
  }

  /** The same after a single earlier call. */
  lemma NegativeAfterCall(x0: Stamp, y: Stamp, x: Stamp)
    requires Normal(x0) && Normal(x) && Normal(y)
    ensures Negative(x, Carried(x0, y)) <==>
              TotalNs(x) < TotalNs(y) || (TotalNs(x) == TotalNs(y) && x0.nsec < y.nsec)
  {
    NegativeAfterCalls([x0], y, x);
    assert [x0][..0] == [];
  }

  /** Equal times reported negative, the y being what an earlier call left. */
  lemma EqualTimesCanBeNegative()
    ensures var x, y := Stamp(0, 1), Carried(Stamp(0, 0), Stamp(0, 1));
            && y == Stamp(1, 1 - 1_000_000_000) && TotalNs(x) == TotalNs(y)
            && Negative(x, y) && Difference(x, y) == Stamp(-1, 1_000_000_000)
  {
  }
}
