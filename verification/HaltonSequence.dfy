// The Halton sequence over exact rationals (halton_sequence.h).
module HaltonSequence {
  import opened NumberTheory

  const INT_MAX: int := 0x7fff_ffff

  /** i++, taken to wrap around as random_number_utils.cc expects; the language leaves the overflow undefined. */
  function NextInt(i: int): int {
    if i == INT_MAX then -INT_MAX - 1 else i + 1
  }

  // ---------- Digits ----------

  /** The lowest digit. */
  function Low(n: nat, p: nat): (d: nat)
    requires p >= 2
    ensures d < p
  {
    n % p
  }

  /** The other digits. */
  function High(n: nat, p: nat): (h: nat)
    requires p >= 2
    ensures h <= n && (n > 0 ==> h < n)
  {
    DivisionShrinks(n, p);
    n / p
  }

  lemma DivisionShrinks(n: nat, p: nat)
    requires p >= 2
    ensures n / p <= n && (n > 0 ==> n / p < n)
    ensures n == (n / p) * p + n % p
  {
    var h := n / p;
    assert n == h * p + n % p;
    assert h * p >= h * 2;
  }

  lemma DigitsSum(n: nat, p: nat)
    requires p >= 2
    ensures n == High(n, p) * p + Low(n, p)
  {
    DivisionShrinks(n, p);
  }

  lemma DigitsUnique(n: nat, p: nat, h: nat, d: nat)
    requires p >= 2 && d < p && n == h * p + d
    ensures Low(n, p) == d && High(n, p) == h
  {
    RemainderUnique(n, h, p, d);
  }

  /** A digit in front of a smaller number. */
  lemma DigitInFront(d: nat, m: nat, p: nat, low: nat)
    requires d < p && low < m
    ensures d * m + low < p * m
  {
    assert d * m <= (p - 1) * m;
    assert (p - 1) * m == p * m - m;
  }

  // ---------- Reversing digits ----------

  /** The number whose base-p digits are the k lowest digits of n, reversed. */
  function Reverse(n: nat, p: nat, k: nat): nat
    requires p >= 2
  {
    if k == 0 then 0 else Low(n, p) * Pow(p, k - 1) + Reverse(High(n, p), p, k - 1)
  }

  /** The inverted base. */
  function Inverted(p: nat): (ib: real)
    requires p >= 2
    ensures ib * (p as real) == 1.0
  {
    1.0 / (p as real)
  }

  /** The radical inverse: the digits of n mirrored at the radix point. */
  function RadicalInverse(n: nat, p: nat): real
    requires p >= 2
    decreases n
  {
    if n == 0 then 0.0 else (Low(n, p) as real + RadicalInverse(High(n, p), p)) * Inverted(p)
  }

  lemma {:induction false} ReverseBelow(n: nat, p: nat, k: nat)
    requires p >= 2
    ensures Reverse(n, p, k) < Pow(p, k)
  {
    hide Low, High;
    if k > 0 {
      ReverseBelow(High(n, p), p, k - 1);
      DigitInFront(Low(n, p), Pow(p, k - 1), p, Reverse(High(n, p), p, k - 1));
    }
  }

  /** Dividing by p and then by m is dividing by p * m. */
  lemma DivideTwice(n: nat, p: nat, m: nat)
    requires p >= 2 && m > 0
    ensures p * m > 0 && High(n, p) / m == n / (p * m)
    ensures Low(n % (p * m), p) == Low(n, p) && High(n % (p * m), p) == High(n, p) % m
  {
    hide Low, High;
    DigitsSum(n, p);
    var q, r := High(n, p), Low(n, p);
    var a, b := q / m, q % m;
    assert q == a * m + b;
    assert p * m > 0;
    DigitInFront(b, p, m, r);
    NestedProducts(n, p, m, q, r, a, b);
    RemainderUnique(n, a, p * m, b * p + r);
    DigitsUnique(b * p + r, p, b, r);
  }

  lemma NestedProducts(n: int, p: int, m: int, q: int, r: int, a: int, b: int)
    requires n == q * p + r && q == a * m + b
    ensures n == a * (p * m) + (b * p + r)
    ensures m * p == p * m
  {
    assert (a * m + b) * p == a * m * p + b * p;
    assert a * m * p == a * (p * m);
  }

  /** Peeling the highest digit instead of the lowest. */
  lemma {:induction false} ReverseFromTop(n: nat, p: nat, k: nat)
    requires p >= 2
    ensures Pow(p, k) > 0
    ensures Reverse(n, p, k + 1) == Reverse(n, p, k) * p + Low(n / Pow(p, k), p)
  {
    hide Low, High;
    PowPositive(p, k);
    if k == 0 {
      assert n / 1 == n;
      assert Pow(p, 0) == 1 && Reverse(High(n, p), p, 0) == 0;
    } else {
      var m := Pow(p, k - 1);
      PowPositive(p, k - 1);
      ReverseFromTop(High(n, p), p, k - 1);
      DivideTwice(n, p, m);
      TopDigitArithmetic(Low(n, p), m, p, Reverse(High(n, p), p, k - 1));
    }
  }

  lemma TopDigitArithmetic(d: int, m: int, p: int, x: int)
    ensures (d * m + x) * p == d * (p * m) + x * p
  {
    assert (d * m + x) * p == d * m * p + x * p;
    assert d * m * p == d * (p * m);
  }

  lemma {:induction false} ReverseOfRemainder(n: nat, p: nat, k: nat)
    requires p >= 2
    ensures Pow(p, k) > 0 && Reverse(n % Pow(p, k), p, k) == Reverse(n, p, k)
  {
    hide Low, High;
    PowPositive(p, k);
    if k > 0 {
      PowPositive(p, k - 1);
      DivideTwice(n, p, Pow(p, k - 1));
      ReverseOfRemainder(High(n, p), p, k - 1);
    }
  }

  lemma HighBelow(n: nat, p: nat, m: nat)
    requires p >= 2 && n < p * m
    ensures High(n, p) < m
  {
    hide Low, High;
    DigitsSum(n, p);
    MonotoneProduct(m, High(n, p), p);
  }

  lemma MonotoneProduct(a: nat, b: nat, p: nat)
    ensures a <= b ==> a * p <= b * p
  {
  }

  lemma MonotoneRealProduct(a: real, b: real, q: real)
    requires a <= b && q >= 0.0
    ensures a * q <= b * q
  {
    assert (b - a) * q >= 0.0;
  }

  /** Reversing twice gives back the number: reversal is a bijection of the k-digit numbers. */
  lemma {:induction false} ReverseInvolutive(n: nat, p: nat, k: nat)
    requires p >= 2 && n < Pow(p, k)
    ensures Reverse(Reverse(n, p, k), p, k) == n
  {
    hide Low, High;
    if k > 0 {
      var m := Pow(p, k - 1);
      PowPositive(p, k - 1);
      var d, low := Low(n, p), Reverse(High(n, p), p, k - 1);
      var r := Reverse(n, p, k);
      assert r == d * m + low;
      ReverseBelow(High(n, p), p, k - 1);
      RemainderUnique(r, d, m, low);
      ReverseFromTop(r, p, k - 1);
      ReverseOfRemainder(r, p, k - 1);
      HighBelow(n, p, m);
      DigitsSum(n, p);
      ReverseInvolutive(High(n, p), p, k - 1);
      DigitsUnique(d, p, 0, d);
    }
  }

  // ---------- The radical inverse is the reversed digits behind the radix point ----------

  lemma CancelInverse(y: real, ib: real, q: real)
    requires ib * q == 1.0
    ensures (y * ib) * q == y
  {
    assert (y * ib) * q == y * (ib * q);
  }

  lemma RadicalInverseUnfolded(n: nat, p: nat)
    requires p >= 2 && n > 0
    ensures RadicalInverse(n, p) == (Low(n, p) as real + RadicalInverse(High(n, p), p)) * Inverted(p)
  {
    hide Low, High, Inverted;
  }

  lemma RadicalInverseStep(n: nat, p: nat)
    requires p >= 2
    ensures RadicalInverse(n, p) * (p as real) == Low(n, p) as real + RadicalInverse(High(n, p), p)
  {
    hide Low, High, Inverted, RadicalInverse;
    if n > 0 {
      RadicalInverseUnfolded(n, p);
      CancelInverse(Low(n, p) as real + RadicalInverse(High(n, p), p), Inverted(p), p as real);
    } else {
      ZeroInverse(p);
      DigitsUnique(0, p, 0, 0);
    }
  }

  lemma ZeroInverse(p: nat)
    requires p >= 2
    ensures RadicalInverse(0, p) == 0.0
  {
  }

  /** Strictly between 0 and 1 for every positive number. */
  lemma {:induction false} RadicalInverseBounds(n: nat, p: nat)
    requires p >= 2
    ensures 0.0 <= RadicalInverse(n, p) < 1.0
    ensures n > 0 ==> RadicalInverse(n, p) > 0.0
    decreases n
  {
    hide Low, High;
    if n > 0 {
      var h := High(n, p);
      RadicalInverseBounds(h, p);
      RadicalInverseStep(n, p);
      DigitsSum(n, p);
      assert h == 0 ==> h * p == 0;
      var d := Low(n, p);
      assert d as real <= (p - 1) as real;
      assert d > 0 ==> d as real >= 1.0;
      ScaledBelow(RadicalInverse(n, p), p as real, d as real + RadicalInverse(h, p));
    }
  }

  lemma ScaledBelow(x: real, q: real, y: real)
    requires q > 0.0 && x * q == y && 0.0 < y < q
    ensures 0.0 < x < 1.0
  {
    if x >= 1.0 { MonotoneRealProduct(1.0, x, q); }
    if x <= 0.0 { MonotoneRealProduct(x, 0.0, q); }
  }

  lemma IntProductReal(d: int, m: int, r: int)
    ensures (d * m + r) as real == (d as real) * (m as real) + r as real
  {
  }

  /** One digit of the reversal, in real numbers. */
  lemma ReverseStepReal(n: nat, p: nat, k: nat)
    requires p >= 2 && k > 0
    ensures Reverse(n, p, k) as real
            == (Low(n, p) as real) * (Pow(p, k - 1) as real) + Reverse(High(n, p), p, k - 1) as real
  {
    hide Low, High, Reverse, Pow;
    ReverseStep(n, p, k);
    IntProductReal(Low(n, p), Pow(p, k - 1), Reverse(High(n, p), p, k - 1));
  }

  lemma ReverseStep(n: nat, p: nat, k: nat)
    requires p >= 2
    ensures Reverse(n, p, k) == if k == 0 then 0 else Low(n, p) * Pow(p, k - 1) + Reverse(High(n, p), p, k - 1)
    ensures Pow(p, 0) == 1
  {
    hide Low, High;
  }

  lemma PowStepReal(p: nat, k: nat)
    requires k > 0
    ensures Pow(p, k) as real == (p as real) * (Pow(p, k - 1) as real)
  {
    var m := Pow(p, k - 1);
    assert Pow(p, k) == p * m + 0;
    hide Pow;
    IntProductReal(p, m, 0);
  }

  lemma HighBelowPow(n: nat, p: nat, k: nat)
    requires p >= 2 && k > 0 && n < Pow(p, k)
    ensures High(n, p) < Pow(p, k - 1)
  {
    HighBelow(n, p, Pow(p, k - 1));
  }

  /** Scaling by one more power of the base shifts one digit in front of the scaled rest. */
  lemma ScaleStep(x: real, y: real, q: real, m: real, d: real, power: real)
    requires x * q == d + y && power == q * m
    ensures x * power == d * m + y * m
  {
    assert x * (q * m) == (x * q) * m;
    assert (d + y) * m == d * m + y * m;
  }

  /** Scaling by p^k leaves the reversal of the k lowest digits before the radix point. */
  lemma {:induction false} ScaledRadicalInverse(n: nat, p: nat, k: nat)
    requires p >= 2
    ensures Reverse(n, p, k) as real <= RadicalInverse(n, p) * (Pow(p, k) as real) < Reverse(n, p, k) as real + 1.0
    ensures n < Pow(p, k) ==> RadicalInverse(n, p) * (Pow(p, k) as real) == Reverse(n, p, k) as real
  {
    hide Low, High, RadicalInverse, Reverse, Pow;
    if k == 0 {
      RadicalInverseBounds(n, p);
      ReverseStep(n, p, 0);
      ZeroInverse(p);
    } else {
      var h := High(n, p);
      if n < Pow(p, k) { HighBelowPow(n, p, k); }
      ScaledRadicalInverse(h, p, k - 1);
      ShiftedScaling(n, p, k);
      ReverseStepReal(n, p, k);
    }
  }

  lemma ShiftedScaling(n: nat, p: nat, k: nat)
    requires p >= 2 && k > 0
    ensures RadicalInverse(n, p) * (Pow(p, k) as real)
            == (Low(n, p) as real) * (Pow(p, k - 1) as real) + RadicalInverse(High(n, p), p) * (Pow(p, k - 1) as real)
  {
    hide Low, High, RadicalInverse, Reverse, Pow;
    RadicalInverseStep(n, p);
    PowStepReal(p, k);
    ScaleStep(RadicalInverse(n, p), RadicalInverse(High(n, p), p), p as real, Pow(p, k - 1) as real,
              Low(n, p) as real, Pow(p, k) as real);
  }

  /** The sequence never repeats. */
  lemma RadicalInverseInjective(a: nat, b: nat, p: nat)
    requires p >= 2 && RadicalInverse(a, p) == RadicalInverse(b, p)
    ensures a == b
  {
    hide RadicalInverse, Reverse, Pow;
    var k := a + b;
    BelowPow(k, p);
    ScaledRadicalInverse(a, p, k);
    ScaledRadicalInverse(b, p, k);
    assert Reverse(a, p, k) as real == Reverse(b, p, k) as real;
    ReverseInvolutive(a, p, k);
    ReverseInvolutive(b, p, k);
  }

  // ---------- Stratification in one dimension ----------

  /** x lies in [a/m, (a+1)/m). */
  predicate InCell(x: real, a: nat, m: nat) {
    a as real <= x * (m as real) < a as real + 1.0
  }

  /** The cell a point falls into is decided by its remainder. */
  lemma CellIsRemainder(n: nat, p: nat, k: nat, a: nat)
    requires p >= 2 && a < Pow(p, k)
    ensures InCell(RadicalInverse(n, p), a, Pow(p, k)) <==> n % Pow(p, k) == Reverse(a, p, k)
  {
    hide RadicalInverse, Reverse, Pow;
    var m := Pow(p, k);
    ScaledRadicalInverse(n, p, k);
    assert InCell(RadicalInverse(n, p), a, m) <==> Reverse(n, p, k) == a;
    ReverseOfRemainder(n, p, k);
    ReverseInvolutive(n % m, p, k);
    ReverseInvolutive(a, p, k);
  }

  // ---------- The function ----------

  /** The i'th value, HaltonSequence(i, p): the radical inverse of i + 1. */
  function Halton(i: nat, p: nat): real
    requires p >= 2
  {
    RadicalInverse(i + 1, p)
  }

  /** One digit: the part still to be added shrinks by that digit. */
  lemma DigitStep(h: real, cdb: real, p: real, ib: real, d: real, x: real, y: real)
    requires ib * p == 1.0 && x * p == d + y
    ensures h + cdb * (p * x) == (h + d * cdb) + (cdb * ib) * (p * y)
  {
    assert cdb * (p * x) == cdb * (d + y);
    assert cdb * (d + y) == cdb * d + cdb * y;
    assert (cdb * ib) * (p * y) == cdb * ((ib * p) * y);
  }

  /** HaltonSequence: add up the digits of i + 1, each times the negative power of the base at its position. */
  method ComputeHalton(index: int, prime: int) returns (h: real)
    requires 0 <= index <= INT_MAX && 2 <= prime
    ensures index < INT_MAX ==> h == Halton(index, prime) && 0.0 < h < 1.0
    ensures index == INT_MAX ==> h == 0.0
  {
    hide RadicalInverse, Low, High, Inverted;
    if NextInt(index) <= 0 {
      return 0.0;
    }
    var i: nat := NextInt(index);
    var ib := Inverted(prime);
    var cdb := ib;
    h := 0.0;
    FirstDigit(ib, prime as real, RadicalInverse(i, prime));
    while i > 0
      invariant h + cdb * ((prime as real) * RadicalInverse(i, prime)) == Halton(index, prime)
      decreases i
    {
      RadicalInverseStep(i, prime);
      DigitStep(h, cdb, prime as real, ib, Low(i, prime) as real, RadicalInverse(i, prime), RadicalInverse(High(i, prime), prime));
      DigitsAre(i, prime);
      h := h + (i % prime) as real * cdb;
      cdb := cdb * ib;
      i := i / prime;
    }
    ZeroInverse(prime);
    assert cdb * ((prime as real) * 0.0) == 0.0;
    RadicalInverseBounds(index + 1, prime);
  }

  lemma DigitsAre(i: nat, p: nat)
    requires p >= 2
    ensures Low(i, p) == i % p && High(i, p) == i / p
  {
  }

  lemma FirstDigit(ib: real, p: real, x: real)
    requires ib * p == 1.0
    ensures ib * (p * x) == x
  {
    assert ib * (p * x) == (ib * p) * x;
  }

  /** Exactly the reversed digits of i + 1 behind the radix point, strictly inside (0, 1), and never repeated. */
  lemma HaltonIsDigitReversal(i: nat, j: nat, p: nat, k: nat)
    requires p >= 2 && i + 1 < Pow(p, k)
    ensures Halton(i, p) * (Pow(p, k) as real) == Reverse(i + 1, p, k) as real
    ensures Reverse(Reverse(i + 1, p, k), p, k) == i + 1
    ensures 0.0 < Halton(i, p) < 1.0
    ensures Halton(i, p) == Halton(j, p) <==> i == j
  {
    hide RadicalInverse, Reverse, Pow;
    ScaledRadicalInverse(i + 1, p, k);
    ReverseInvolutive(i + 1, p, k);
    RadicalInverseBounds(i + 1, p);
    if Halton(i, p) == Halton(j, p) {
      RadicalInverseInjective(i + 1, j + 1, p);
    }
  }

  /** Any p^k consecutive values hit every interval [a/p^k, (a+1)/p^k) exactly once. */
  lemma OneValuePerInterval(start: nat, p: nat, k: nat, a: nat) returns (i: nat)
    requires p >= 2 && a < Pow(p, k)
    ensures start <= i < start + Pow(p, k) && InCell(Halton(i, p), a, Pow(p, k))
    ensures forall j: nat :: start <= j < start + Pow(p, k) && InCell(Halton(j, p), a, Pow(p, k)) ==> j == i
  {
    PowPositive(p, k);
    ReverseBelow(a, p, k);
    var n := OneInWindow(start + 1, Pow(p, k), Reverse(a, p, k));
    i := n - 1;
    CellIsRemainder(n, p, k, a);
    forall j: nat | start <= j < start + Pow(p, k) && InCell(Halton(j, p), a, Pow(p, k)) ensures j == i {
      CellIsRemainder(j + 1, p, k, a);
    }
  }

  // ---------- Several dimensions ----------

  predicate Bases(ps: seq<nat>) {
    forall d :: 0 <= d < |ps| ==> ps[d] >= 2
  }

  ghost predicate PairwiseCoprime(ps: seq<nat>) {
    forall c, d :: 0 <= c < d < |ps| ==> Coprime(ps[c], ps[d])
  }

  /** The point of the engine at an index: one coordinate per base. */
  function Point(i: nat, ps: seq<nat>): (q: seq<real>)
    requires Bases(ps)
    ensures |q| == |ps|
  {
    seq(|ps|, d requires 0 <= d < |ps| => Halton(i, ps[d]))
  }

  /** The number of cells per dimension. */
  function Sides(ps: seq<nat>, ks: seq<nat>): seq<nat>
    requires |ks| == |ps|
  {
    seq(|ps|, d requires 0 <= d < |ps| => Pow(ps[d], ks[d]))
  }

  /** A box with sides 1/p^k in every dimension. */
  predicate IsBox(box: seq<nat>, ps: seq<nat>, ks: seq<nat>) {
    |box| == |ps| == |ks| && forall d :: 0 <= d < |ps| ==> box[d] < Pow(ps[d], ks[d])
  }

  predicate InBox(q: seq<real>, box: seq<nat>, ps: seq<nat>, ks: seq<nat>) {
    |q| == |box| == |ps| == |ks| && forall d :: 0 <= d < |q| ==> InCell(q[d], box[d], Pow(ps[d], ks[d]))
  }

  function BoxRemainders(box: seq<nat>, ps: seq<nat>, ks: seq<nat>): seq<nat>
    requires IsBox(box, ps, ks) && Bases(ps)
  {
    seq(|ps|, d requires 0 <= d < |ps| => Reverse(box[d], ps[d], ks[d]))
  }

  lemma SidesCoprime(ps: seq<nat>, ks: seq<nat>)
    requires Bases(ps) && PairwiseCoprime(ps) && |ks| == |ps|
    ensures PairwiseBezout(Sides(ps, ks))
  {
    forall c, d | 0 <= c < d < |ps| ensures Bezout(Sides(ps, ks)[c], Sides(ps, ks)[d]) {
      CoprimePowers(ps[c], ks[c], ps[d], ks[d]);
    }
  }

  /** A point falls into a box exactly if its number has the remainders of the box. */
  lemma BoxIsRemainders(i: nat, box: seq<nat>, ps: seq<nat>, ks: seq<nat>)
    requires Bases(ps) && IsBox(box, ps, ks)
    requires forall d :: 0 <= d < |ps| ==> Sides(ps, ks)[d] > 0
    ensures InBox(Point(i, ps), box, ps, ks) <==> HasRemainders(i + 1, Sides(ps, ks), BoxRemainders(box, ps, ks))
  {
    var ms, rs := Sides(ps, ks), BoxRemainders(box, ps, ks);
    forall d | 0 <= d < |ps|
      ensures InCell(Point(i, ps)[d], box[d], Pow(ps[d], ks[d])) <==> (i + 1) % ms[d] == rs[d]
    {
      CellIsRemainder(i + 1, ps[d], ks[d], box[d]);
    }
    if InBox(Point(i, ps), box, ps, ks) {
      forall d | 0 <= d < |ms| ensures (i + 1) % ms[d] == rs[d] {
        assert InCell(Point(i, ps)[d], box[d], Pow(ps[d], ks[d]));
      }
    }
  }

  /**
   * With pairwise coprime bases, any run of p_1^k_1 * ... * p_n^k_n consecutive points puts exactly one point into every
   * box with sides 1/p_1^k_1, ..., 1/p_n^k_n.
   */
  lemma OnePointPerBox(start: nat, ps: seq<nat>, ks: seq<nat>, box: seq<nat>) returns (i: nat)
    requires Bases(ps) && PairwiseCoprime(ps) && IsBox(box, ps, ks)
    ensures start <= i < start + Product(Sides(ps, ks)) && InBox(Point(i, ps), box, ps, ks)
    ensures forall j: nat :: start <= j < start + Product(Sides(ps, ks)) && InBox(Point(j, ps), box, ps, ks) ==> j == i
  {
    var ms, rs := Sides(ps, ks), BoxRemainders(box, ps, ks);
    forall d | 0 <= d < |ps| ensures ms[d] > 0 && rs[d] < ms[d] {
      PowPositive(ps[d], ks[d]);
      ReverseBelow(box[d], ps[d], ks[d]);
    }
    SidesCoprime(ps, ks);
    var x := ChineseRemainder(ms, rs);
    var n := OneInWindow(start + 1, Product(ms), x);
    i := n - 1;
    BoxIsRemainders(i, box, ps, ks);
    forall j: nat | start <= j < start + Product(ms) && InBox(Point(j, ps), box, ps, ks) ensures j == i {
      BoxIsRemainders(j, box, ps, ks);
      assert HasRemainders(j + 1, ms, rs);
    }
  }

  /** The same of what the engine generates: exactly one of the points lies in the box. */
  lemma GeneratedPointsStratify(points: seq<seq<real>>, start: nat, ps: seq<nat>, ks: seq<nat>, box: seq<nat>)
    returns (t: nat)
    requires Bases(ps) && PairwiseCoprime(ps) && IsBox(box, ps, ks)
    requires |points| == Product(Sides(ps, ks))
    requires forall u :: 0 <= u < |points| ==> points[u] == Point(start + u, ps)
    ensures t < |points| && InBox(points[t], box, ps, ks)
    ensures forall u :: 0 <= u < |points| && InBox(points[u], box, ps, ks) ==> u == t
  {
    hide InBox;
    var i := OnePointPerBox(start, ps, ks, box);
    t := i - start;
    forall u | 0 <= u < |points| && InBox(points[u], box, ps, ks) ensures u == t {
      var j: nat := start + u;
      assert InBox(Point(j, ps), box, ps, ks);
    }
  }

  ghost predicate DistinctPrimes(ps: seq<nat>) {
    && (forall d :: 0 <= d < |ps| ==> IsPrime(ps[d]))
    && (forall c, d :: 0 <= c < d < |ps| ==> ps[c] != ps[d])
  }

  /** If there are as many points as boxes with some sides, each box with these sides holds exactly one of the points. */
  ghost predicate Stratified(points: seq<seq<real>>, ps: seq<nat>) {
    forall ks: seq<nat>, box: seq<nat> :: IsBox(box, ps, ks) && |points| == Product(Sides(ps, ks)) ==>
      exists t :: OnlyOneIn(points, t, box, ps, ks)
  }

  ghost predicate OnlyOneIn(points: seq<seq<real>>, t: int, box: seq<nat>, ps: seq<nat>, ks: seq<nat>) {
    && 0 <= t < |points| && InBox(points[t], box, ps, ks)
    && (forall u :: 0 <= u < |points| && InBox(points[u], box, ps, ks) ==> u == t)
  }

  /** Distinct primes, such as the engine takes from the prime table, are pairwise coprime bases. */
  lemma PrimesAreBases(ps: seq<nat>)
    requires DistinctPrimes(ps)
    ensures Bases(ps) && PairwiseCoprime(ps)
  {
    forall c, d | 0 <= c < d < |ps| ensures Coprime(ps[c], ps[d]) {
      DistinctPrimesCoprime(ps[c], ps[d]);
    }
  }

  /** Consecutive points with distinct primes as bases, as many as there are boxes with some sides: one lies in each. */
  lemma PrimesStratify(points: seq<seq<real>>, start: nat, ps: seq<nat>)
    requires Bases(ps) && DistinctPrimes(ps)
    requires forall u :: 0 <= u < |points| ==> points[u] == Point(start + u, ps)
    ensures Stratified(points, ps)
  {
    PrimesAreBases(ps);
    hide DistinctPrimes, PairwiseCoprime, InBox, IsBox, Point;
    forall ks: seq<nat>, box: seq<nat> | IsBox(box, ps, ks) && |points| == Product(Sides(ps, ks))
      ensures exists t :: OnlyOneIn(points, t, box, ps, ks)
    {
      var t := GeneratedPointsStratify(points, start, ps, ks, box);
      assert OnlyOneIn(points, t, box, ps, ks);
    }
  }

  // ---------- The engines ----------

  /** HaltonSequenceEngine: a position in the sequence, a base of its own, and the table of primes. */
  class SequenceEngine {
    const primes: seq<nat>
    var sequenceIndex: nat
    var prime: nat

    ghost predicate Valid()
      reads this
    {
      Bases(primes) && prime >= 2
    }

    constructor (primes: seq<nat>)
      requires Bases(primes) && primes != []
      ensures Valid() && this.primes == primes && sequenceIndex == 0 && prime == primes[0]
    {
      this.primes, sequenceIndex, prime := primes, 0, primes[0];
    }

    /** operator(): the current value of its own base, then advance. */
    method Next() returns (result: real)
      requires Valid() && sequenceIndex < INT_MAX
      modifies this`sequenceIndex
      ensures Valid() && result == Halton(old(sequenceIndex), prime) && sequenceIndex == old(sequenceIndex) + 1
    {
      result := ComputeHalton(sequenceIndex, prime);
      sequenceIndex := sequenceIndex + 1;
    }

    /** GetDim: the current value in a dimension, without advancing. */
    method GetDim(dim: nat) returns (result: real)
      requires Valid() && dim < |primes| && sequenceIndex < INT_MAX
      ensures result == Halton(sequenceIndex, primes[dim])
    {
      result := ComputeHalton(sequenceIndex, primes[dim]);
    }

    method SeedWithNthPrime(primeIndex: nat)
      requires Valid() && primeIndex < |primes|
      modifies this`prime
      ensures Valid() && prime == primes[primeIndex]
    {
      prime := primes[primeIndex];
    }

    method Increment()
      requires Valid() && sequenceIndex < INT_MAX
      modifies this`sequenceIndex
      ensures Valid() && sequenceIndex == old(sequenceIndex) + 1
    {
      sequenceIndex := sequenceIndex + 1;
    }

    method Reset()
      requires Valid()
      modifies this`sequenceIndex
      ensures Valid() && sequenceIndex == 0
    {
      sequenceIndex := 0;
    }
  }

  /** HaltonPointEngine: the coordinates of a point come from one sampler. */
  class PointEngine {
    const dimensions: nat
    const sampler: SequenceEngine

    ghost predicate Valid()
      reads this, sampler
    {
      sampler.Valid() && dimensions <= |sampler.primes|
    }

    /** The bases of its dimensions. */
    function UsedBases(): seq<nat>
      reads this, sampler
      requires Valid()
    {
      sampler.primes[..dimensions]
    }

    constructor (dimensions: nat, primes: seq<nat>)
      requires Bases(primes) && primes != [] && dimensions <= |primes|
      ensures Valid() && fresh(sampler) && sampler.sequenceIndex == 0 && UsedBases() == primes[..dimensions]
    {
      this.dimensions := dimensions;
      this.sampler := new SequenceEngine(primes);
    }

    /** operator(): the current point, then advance. */
    method Next() returns (point: seq<real>)
      requires Valid() && sampler.sequenceIndex < INT_MAX
      modifies sampler`sequenceIndex
      ensures Valid() && sampler.sequenceIndex == old(sampler.sequenceIndex) + 1
      ensures point == Point(old(sampler.sequenceIndex), UsedBases())
    {
      point := [];
      for i := 0 to dimensions
        invariant Valid() && |point| == i && sampler.sequenceIndex == old(sampler.sequenceIndex)
        invariant forall d :: 0 <= d < i ==> point[d] == Halton(sampler.sequenceIndex, sampler.primes[d])
      {
        var coordinate := sampler.GetDim(i);
        point := point + [coordinate];
      }
      sampler.Increment();
    }

    /** Calling operator() `count` times. */
    method Generate(count: nat) returns (points: seq<seq<real>>)
      requires Valid() && sampler.sequenceIndex + count <= INT_MAX
      modifies sampler`sequenceIndex
      ensures Valid() && |points| == count && sampler.sequenceIndex == old(sampler.sequenceIndex) + count
      ensures forall t :: 0 <= t < count ==> points[t] == Point(old(sampler.sequenceIndex) + t, UsedBases())
      ensures DistinctPrimes(UsedBases()) ==> Stratified(points, UsedBases())
    {
      points := [];
      for t := 0 to count
        invariant Valid() && |points| == t && sampler.sequenceIndex == old(sampler.sequenceIndex) + t
        invariant forall u :: 0 <= u < t ==> points[u] == Point(old(sampler.sequenceIndex) + u, UsedBases())
      {
        var point := Next();
        points := points + [point];
      }
      if DistinctPrimes(UsedBases()) {
        PrimesStratify(points, old(sampler.sequenceIndex), UsedBases());
      }
    }
  }
}
