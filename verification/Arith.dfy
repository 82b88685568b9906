/** Integer facts the schedulers and the feasibility tests share: finite sums,
    rounding division, and how quotient and remainder move by one step. */
module Arith {

  function Sum(a: seq<int>): int {
    if |a| == 0 then 0 else Sum(a[..|a| - 1]) + a[|a| - 1]
  }

  /** ceil(x / d) for a positive divisor. */
  function CeilDiv(x: int, d: int): int
    requires d >= 1
  {
    (x + d - 1) / d
  }

  lemma {:induction false} SumLe(a: seq<int>, b: seq<int>)
    requires |a| == |b|
    requires forall i :: 0 <= i < |a| ==> a[i] <= b[i]
    ensures Sum(a) <= Sum(b)
  {
    if |a| == 0 {
    } else {
      SumLe(a[..|a| - 1], b[..|b| - 1]);
    }
  }

  lemma {:induction false} SumLess(a: seq<int>, b: seq<int>, k: nat)
    requires |a| == |b| && k < |a|
    requires forall i :: 0 <= i < |a| ==> a[i] <= b[i]
    requires a[k] < b[k]
    ensures Sum(a) < Sum(b)
  {
    if k == |a| - 1 {
      SumLe(a[..|a| - 1], b[..|b| - 1]);
    } else {
      SumLess(a[..|a| - 1], b[..|b| - 1], k);
    }
  }

  lemma SumZeros(a: seq<int>)
    requires forall i :: 0 <= i < |a| ==> a[i] == 0
    ensures Sum(a) == 0
  {
    if |a| == 0 {
    } else {
      SumZeros(a[..|a| - 1]);
    }
  }

  lemma {:induction false} SumAtLeastEach(a: seq<int>, k: nat)
    requires k < |a|
    requires forall i :: 0 <= i < |a| ==> 0 <= a[i]
    ensures 0 <= a[k] <= Sum(a)
  {
    var z := seq(|a|, i => 0);
    SumZeros(z);
    if k == |a| - 1 {
      SumLe(z[..k], a[..k]);
      SumZeros(z[..k]);
    } else {
      SumAtLeastEach(a[..|a| - 1], k);
    }
  }

  lemma SumNonNegative(a: seq<int>)
    requires forall i :: 0 <= i < |a| ==> 0 <= a[i]
    ensures 0 <= Sum(a)
  {
    if |a| > 0 {
      SumAtLeastEach(a, 0);
    }
  }

  lemma {:induction false} SumAdd(a: seq<int>, b: seq<int>, c: seq<int>)
    requires |a| == |b| == |c|
    requires forall i :: 0 <= i < |a| ==> c[i] == a[i] + b[i]
    ensures Sum(c) == Sum(a) + Sum(b)
  {
    if |a| == 0 {
    } else {
      SumAdd(a[..|a| - 1], b[..|a| - 1], c[..|a| - 1]);
    }
  }

  lemma {:induction false} SumScale(a: seq<int>, k: int, c: seq<int>)
    requires |a| == |c|
    requires forall i :: 0 <= i < |a| ==> c[i] == k * a[i]
    ensures Sum(c) == k * Sum(a)
  {
    if |a| == 0 {
    } else {
      SumScale(a[..|a| - 1], k, c[..|a| - 1]);
    }
  }

  lemma {:induction false} SumIndicator(a: seq<int>, k: int)
    requires -1 <= k < |a|
    requires forall i :: 0 <= i < |a| ==> a[i] == if i == k then 1 else 0
    ensures Sum(a) == if k == -1 then 0 else 1
  {
    if k == -1 {
      SumZeros(a);
    } else if k == |a| - 1 {
      SumZeros(a[..|a| - 1]);
    } else {
      SumIndicator(a[..|a| - 1], k);
    }
  }

  /** A prefix one longer adds exactly the next element. */
  lemma SumPrefix(a: seq<int>, n: nat)
    requires n < |a|
    ensures Sum(a[..n + 1]) == Sum(a[..n]) + a[n]
  {
    assert a[..n + 1][..n] == a[..n];
  }

  lemma {:induction false} SumOfPrefix(a: seq<int>, n: nat)
    requires n <= |a| && forall i :: 0 <= i < |a| ==> 0 <= a[i]
    ensures Sum(a[..n]) <= Sum(a)
  {
    if n == |a| {
      assert a[..n] == a;
    } else {
      SumOfPrefix(a[..|a| - 1], n);
      assert a[..|a| - 1][..n] == a[..n];
    }
  }

  /** f(0) + ... + f(n-1). */
  function Total(f: nat -> int, n: nat): int {
    if n == 0 then 0 else Total(f, n - 1) + f(n - 1)
  }

  lemma {:induction false} TotalMonotone(f: nat -> int, m: nat, n: nat)
    requires m <= n && forall t: nat :: f(t) >= 0
    ensures 0 <= Total(f, m) <= Total(f, n)
  {
    if n == 0 {
    } else {
      TotalMonotone(f, if m == n then n - 1 else m, n - 1);
    }
  }

  lemma {:induction false} TotalZero(f: nat -> int, n: nat)
    requires forall t: nat :: f(t) >= 0
    ensures Total(f, n) == 0 <==> forall t :: 0 <= t < n ==> f(t) == 0
  {
    if n == 0 {
    } else {
      TotalZero(f, n - 1);
      TotalMonotone(f, 0, n - 1);
    }
  }

  /** Multiples of a positive d compare as their factors do. */
  lemma MultiplesOrdered(p: int, q: int, d: int)
    requires d >= 1
    ensures p <= q ==> p * d <= q * d
    ensures p < q ==> p * d + d <= q * d
  {
    var k := q - p;
    assert q * d == p * d + k * d;
    if p <= q {
      assert k * d >= 0;
    }
    if p < q {
      var j := k - 1;
      assert k * d == j * d + d;
      assert j * d >= 0;
    }
  }

  lemma DivMod(x: int, d: int) returns (q: int, r: int)
    requires d >= 1
    ensures q == x / d && r == x % d && x == q * d + r && 0 <= r < d
  {
    q, r := x / d, x % d;
  }

  lemma DivModUnique(x: int, d: int, q: int, r: int)
    requires d >= 1 && x == q * d + r && 0 <= r < d
    ensures x / d == q && x % d == r
  {
    var q', r' := DivMod(x, d);
    MultiplesOrdered(q, q', d);
    MultiplesOrdered(q', q, d);
  }

  /** One tick later the phase moves by one, or a new period starts. */
  lemma NextPhase(t: int, d: int)
    requires d >= 1
    ensures if t % d == d - 1
            then (t + 1) / d == t / d + 1 && (t + 1) % d == 0
            else (t + 1) / d == t / d && (t + 1) % d == t % d + 1
  {
    if t % d == d - 1 {
      assert t + 1 == (t / d + 1) * d + 0;
      DivModUnique(t + 1, d, t / d + 1, 0);
    } else {
      DivModUnique(t + 1, d, t / d, t % d + 1);
    }
  }

  lemma MulLe(k: int, x: int, y: int)
    requires 0 <= k && x <= y
    ensures k * x <= k * y
  {
  }

  lemma DivMonotone(x: int, y: int, d: int)
    requires d >= 1 && x <= y
    ensures x / d <= y / d
  {
    var p, r := DivMod(x, d);
    var q, r' := DivMod(y, d);
    MultiplesOrdered(q, p, d);
  }

  /** ceil(x / d) is the least q with x <= q * d. */
  lemma CeilDivLeast(x: int, d: int, q: int)
    requires d >= 1
    ensures CeilDiv(x, d) <= q <==> x <= q * d
  {
    var c, r := DivMod(x + d - 1, d);
    MultiplesOrdered(c, q, d);
    MultiplesOrdered(q, c, d);
  }

  lemma CeilDivMonotone(x: int, y: int, d: int)
    requires d >= 1 && x <= y
    ensures CeilDiv(x, d) <= CeilDiv(y, d)
  {
    DivMonotone(x + d - 1, y + d - 1, d);
  }

  /** Ceiling and floor agree on multiples and differ by one elsewhere. */
  lemma CeilDivFloor(x: int, d: int)
    requires d >= 1
    ensures CeilDiv(x, d) == if x % d == 0 then x / d else x / d + 1
  {
    if x % d == 0 {
      DivModUnique(x + d - 1, d, x / d, d - 1);
    } else {
      assert x + d - 1 == (x / d + 1) * d + (x % d - 1);
      DivModUnique(x + d - 1, d, x / d + 1, x % d - 1);
    }
  }

  /** Quotients of the two ends of a window differ by at most the window's ceiling. */
  lemma WindowQuotients(a: int, b: int, d: int)
    requires d >= 1 && a <= b
    ensures b / d - a / d <= CeilDiv(b - a, d)
    ensures a % d == 0 ==> b / d - a / d == (b - a) / d && b % d == (b - a) % d
  {
    var c := CeilDiv(b - a, d);
    CeilDivLeast(b - a, d, c);
    assert a == (a / d) * d + a % d;
    assert b <= (a / d + c) * d + a % d;
    DivModUnique((a / d + c) * d + a % d, d, a / d + c, a % d);
    DivMonotone(b, (a / d + c) * d + a % d, d);
    if a % d == 0 {
      assert b - a == (b / d - a / d) * d + b % d;
      DivModUnique(b - a, d, b / d - a / d, b % d);
    }
  }

  lemma CancelFactor(p: int, q: int, h: int)
    requires h >= 1
    ensures h * p <= q * h ==> p <= q
    ensures h * p < q * h ==> p < q
  {
    MultiplesOrdered(q + 1, p, h);
    MultiplesOrdered(q, p, h);
  }

  function Scaled(a: seq<int>, k: int): (c: seq<int>)
    ensures |c| == |a|
    ensures forall s :: 0 <= s < |a| ==> c[s] == k * a[s]
  {
    seq(|a|, s requires 0 <= s < |a| => k * a[s])
  }

  /** Parts whose h-fold stays within y times their weights sum to at most y, when the
      weights sum to at most h. */
  lemma WeightedSum(parts: seq<int>, w: seq<int>, h: int, y: int)
    requires |parts| == |w| && h >= 1 && y >= 0 && Sum(w) <= h
    requires forall s :: 0 <= s < |w| ==> Scaled(parts, h)[s] <= Scaled(w, y)[s]
    ensures Sum(parts) <= y
  {
    SumScale(parts, h, Scaled(parts, h));
    SumScale(w, y, Scaled(w, y));
    SumLe(Scaled(parts, h), Scaled(w, y));
    MulLe(y, Sum(w), h);
    CancelFactor(Sum(parts), y, h);
  }

  /** ... and to less than y when one part stays strictly within. */
  lemma WeightedSumStrict(parts: seq<int>, w: seq<int>, h: int, y: int, k: nat)
    requires |parts| == |w| && h >= 1 && y >= 0 && Sum(w) <= h
    requires forall s :: 0 <= s < |w| ==> Scaled(parts, h)[s] <= Scaled(w, y)[s]
    requires k < |w| && Scaled(parts, h)[k] < Scaled(w, y)[k]
    ensures Sum(parts) < y
  {
    SumScale(parts, h, Scaled(parts, h));
    SumScale(w, y, Scaled(w, y));
    SumLess(Scaled(parts, h), Scaled(w, y), k);
    MulLe(y, Sum(w), h);
    CancelFactor(Sum(parts), y, h);
  }
}
