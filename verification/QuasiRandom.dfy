// Quasi-random vectors between limits (random_number_utils.cc).
module QuasiRandom {
  import opened Results
  import opened NumberTheory
  import opened HaltonSequence

  /** The greatest finite double. */
  function MaxDouble(): real {
    (Pow(2, 1024) - Pow(2, 971)) as real
  }

  datatype Limit = Finite(value: real) | PlusInfinity | MinusInfinity | NotANumber

  /** A double. */
  predicate IsDouble(x: Limit) {
    x.Finite? ==> -MaxDouble() <= x.value <= MaxDouble()
  }

  /** upper - lower is not NaN. */
  predicate HasDifference(lower: Limit, upper: Limit) {
    !lower.NotANumber? && !upper.NotANumber? && (lower.Finite? || upper.Finite? || lower != upper)
  }

  /** upper - lower > 0 */
  predicate Ascending(lower: Limit, upper: Limit)
    requires HasDifference(lower, upper)
  {
    match (lower, upper)
    case (Finite(a), Finite(b)) => b - a > 0.0
    case (_, PlusInfinity) => true
    case (MinusInfinity, _) => true
    case _ => false
  }

  /** What is sampled between: infinite limits become the extreme finite doubles. */
  function Clamp(x: Limit, instead: real): real {
    if x.Finite? then x.value else instead
  }

  function Mix(r: real, lower: real, upper: real): real {
    r * upper + (1.0 - r) * lower
  }

  datatype LimitsError = DifferentSizes | NotAscending

  /** The least of all differences is defined: there are some, and all are numbers. */
  predicate HasLeast(lower: seq<Limit>, upper: seq<Limit>)
    requires |lower| == |upper|
  {
    lower != [] && forall d :: 0 <= d < |lower| ==> HasDifference(lower[d], upper[d])
  }

  /** The limits are accepted; `unspecified` is the vector library's answer where the least difference is not defined. */
  predicate LimitsOk(lower: seq<Limit>, upper: seq<Limit>, unspecified: bool) {
    && |lower| == |upper|
    && if HasLeast(lower, upper) then forall d :: 0 <= d < |lower| ==> Ascending(lower[d], upper[d]) else unspecified
  }

  /** Their difference is not a number. */
  predicate Incomparable(lower: Limit, upper: Limit) {
    lower == NotANumber || upper == NotANumber || (lower == upper && !lower.Finite?)
  }

  /** lower < upper, with the infinities at the ends. */
  predicate Less(lower: Limit, upper: Limit) {
    match (lower, upper)
    case (Finite(a), Finite(b)) => a < b
    case (Finite(_), PlusInfinity) => true
    case (MinusInfinity, Finite(_)) => true
    case (MinusInfinity, PlusInfinity) => true
    case _ => false
  }

  /** VerifyLimits: the same sizes, and the least of all differences positive. */
  method VerifyLimits(lower: seq<Limit>, upper: seq<Limit>, unspecified: bool) returns (r: Result<(), LimitsError>)
    ensures r.Ok? <==> LimitsOk(lower, upper, unspecified)
    ensures r.Err? ==> r.error == if |lower| != |upper| then DifferentSizes else NotAscending
    ensures |lower| == |upper| != 0 && (forall d :: 0 <= d < |lower| ==> !Incomparable(lower[d], upper[d])) ==>
              (r.Ok? <==> forall d :: 0 <= d < |lower| ==> Less(lower[d], upper[d]))
    ensures |lower| == |upper| && (|lower| == 0 || exists d :: 0 <= d < |lower| && Incomparable(lower[d], upper[d])) ==>
              (r.Ok? <==> unspecified)
  {
    if |lower| != |upper| {
      return Err(DifferentSizes);
    }
    if !HasLeast(lower, upper) {
      return if unspecified then Ok(()) else Err(NotAscending);
    }
    for d := 0 to |lower|
      invariant forall e :: 0 <= e < d ==> Ascending(lower[e], upper[e])
    {
      if !Ascending(lower[d], upper[d]) {
        return Err(NotAscending);
      }
    }
    return Ok(());
  }

  /** The vector of a seed. */
  function Sample(seed: nat, lower: seq<Limit>, upper: seq<Limit>, primes: seq<nat>): seq<real>
    requires Bases(primes) && |lower| == |upper| <= |primes|
  {
    seq(|lower|, d requires 0 <= d < |lower| =>
      Mix(Halton(seed, primes[d]), Clamp(lower[d], -MaxDouble()), Clamp(upper[d], MaxDouble())))
  }

  class Seed {
    var value: int
    constructor (value: int)
      ensures this.value == value
    {
      this.value := value;
    }
  }

  /** The seed a call uses: a negative one restarts at 0. */
  function UsedSeed(seed: int): nat {
    if seed < 0 then 0 else seed
  }

  lemma LowOf(lower: Limit, low: real)
    requires low == if lower.Finite? then lower.value else -MaxDouble()
    ensures Clamp(lower, -MaxDouble()) == low
  {
  }

  lemma NoMix(high: real, low: real)
    ensures 0.0 * high + (1.0 - 0.0) * low == low
  {
  }

  lemma MixOf(u: real, lower: Limit, upper: Limit, low: real, high: real)
    requires low == if lower.Finite? then lower.value else -MaxDouble()
    requires high == if upper.Finite? then upper.value else MaxDouble()
    ensures Mix(u, Clamp(lower, -MaxDouble()), Clamp(upper, MaxDouble())) == u * high + (1.0 - u) * low
  {
    hide MaxDouble;
  }

  /** What the largest seed gives: its i++ wraps around, so every coordinate is its lower limit. */
  function Lowest(lower: seq<Limit>): seq<real> {
    seq(|lower|, d requires 0 <= d < |lower| => Clamp(lower[d], -MaxDouble()))
  }

  /** The finite limit of a coordinate, or the extreme double an infinite one stands for. */
  predicate IsLow(lower: Limit, low: real) {
    match lower
    case Finite(value) => low == value
    case _ => low == -MaxDouble()
  }

  predicate IsHigh(upper: Limit, high: real) {
    match upper
    case Finite(value) => high == value
    case _ => high == MaxDouble()
  }

  /** Where v lies between low and high, as a fraction of the way up. */
  function Fraction(v: real, low: real, high: real): real
    requires low < high
  {
    (v - low) / (high - low)
  }

  ghost predicate AtFraction(v: real, lower: Limit, upper: Limit, u: real) {
    forall low, high :: IsLow(lower, low) && IsHigh(upper, high) && low < high ==> Fraction(v, low, high) == u
  }

  ghost predicate AtFractions(v: seq<real>, lower: seq<Limit>, upper: seq<Limit>, q: seq<real>) {
    |v| == |lower| == |upper| == |q| && forall d :: 0 <= d < |v| ==> AtFraction(v[d], lower[d], upper[d], q[d])
  }

  lemma FractionOfMix(u: real, low: real, high: real)
    requires low < high
    ensures (u * high + (1.0 - u) * low - low) / (high - low) == u
  {
    var w := high - low;
    assert u * high + (1.0 - u) * low - low == u * w;
    DivideProduct(u, w);
  }

  lemma DivideProduct(u: real, w: real)
    requires w != 0.0
    ensures (u * w) / w == u
  {
  }

  lemma MixAtFraction(u: real, lower: Limit, upper: Limit, low: real, high: real)
    requires low == if lower.Finite? then lower.value else -MaxDouble()
    requires high == if upper.Finite? then upper.value else MaxDouble()
    ensures AtFraction(u * high + (1.0 - u) * low, lower, upper, u)
  {
    hide MaxDouble;
    if low < high {
      FractionOfMix(u, low, high);
    }
  }

  /** GetQuasiRandomVectorXd, for any seed. */
  method GetQuasiRandomVector(lower: seq<Limit>, upper: seq<Limit>, primes: seq<nat>, seed: Seed, unspecified: bool)
    returns (r: Result<seq<real>, LimitsError>)
    requires Bases(primes) && |lower| <= |primes|
    requires -INT_MAX - 1 <= seed.value <= INT_MAX
    modifies seed
    ensures r.Ok? <==> LimitsOk(lower, upper, unspecified)
    ensures r.Err? ==> seed.value == old(seed.value)
    ensures r.Err? ==> (r.error == DifferentSizes <==> |lower| != |upper|)
    ensures r.Ok? && old(seed.value) < INT_MAX ==>
              && seed.value == 1 + (if old(seed.value) < 0 then 0 else old(seed.value))
              && AtFractions(r.value, lower, upper, Point(seed.value - 1, primes[..|lower|]))
    ensures r.Ok? ==>
              && seed.value == NextInt(UsedSeed(old(seed.value)))
              && r.value == if old(seed.value) < INT_MAX then Sample(UsedSeed(old(seed.value)), lower, upper, primes)
                            else Lowest(lower)
    ensures r.Ok? ==> forall d :: 0 <= d < |lower| && Clamp(lower[d], -MaxDouble()) < Clamp(upper[d], MaxDouble()) ==>
              (Clamp(lower[d], -MaxDouble()) < r.value[d] < Clamp(upper[d], MaxDouble()) <==> old(seed.value) < INT_MAX)
  {
    hide MaxDouble, Mix, Halton, Clamp, AtFraction;
    var ok := VerifyLimits(lower, upper, unspecified);
    if ok.Err? {
      return Err(ok.error);
    }
    if seed.value < 0 {
      seed.value := 0;
    }
    var q: seq<real> := [];
    for d := 0 to |lower|
      invariant |q| == d && seed.value == UsedSeed(old(seed.value))
      invariant seed.value < INT_MAX ==> forall e :: 0 <= e < d ==>
        q[e] == Mix(Halton(seed.value, primes[e]), Clamp(lower[e], -MaxDouble()), Clamp(upper[e], MaxDouble()))
      invariant seed.value < INT_MAX ==> forall e :: 0 <= e < d ==>
        AtFraction(q[e], lower[e], upper[e], Halton(seed.value, primes[e]))
      invariant seed.value == INT_MAX ==> forall e :: 0 <= e < d ==> q[e] == Clamp(lower[e], -MaxDouble())
    {
      var u := ComputeHalton(seed.value, primes[d]);
      var low := if lower[d].Finite? then lower[d].value else -MaxDouble();
      var high := if upper[d].Finite? then upper[d].value else MaxDouble();
      MixOf(u, lower[d], upper[d], low, high);
      MixAtFraction(u, lower[d], upper[d], low, high);
      LowOf(lower[d], low);
      NoMix(high, low);
      q := q + [u * high + (1.0 - u) * low];
    }
    if seed.value < INT_MAX {
      assert q == Sample(seed.value, lower, upper, primes);
      forall d | 0 <= d < |lower| && Clamp(lower[d], -MaxDouble()) < Clamp(upper[d], MaxDouble())
        ensures Clamp(lower[d], -MaxDouble()) < q[d] < Clamp(upper[d], MaxDouble())
      {
        SampleStrictlyInside(seed.value, lower, upper, primes, d);
      }
    } else {
      assert q == Lowest(lower);
    }
    seed.value := NextInt(seed.value);
    r := Ok(q);
  }

  lemma MixBetween(r: real, lower: real, upper: real)
    requires 0.0 < r < 1.0 && lower < upper
    ensures lower < Mix(r, lower, upper) < upper
  {
    assert Mix(r, lower, upper) == lower + r * (upper - lower);
    assert Mix(r, lower, upper) == upper - (1.0 - r) * (upper - lower);
    PositiveProduct(r, upper - lower);
    PositiveProduct(1.0 - r, upper - lower);
  }

  lemma PositiveProduct(x: real, y: real)
    requires y > 0.0
    ensures x > 0.0 ==> x * y > 0.0
    ensures x < 0.0 ==> x * y < 0.0
  {
    if x < 0.0 { assert (-x) * y > 0.0; }
  }

  lemma MixInjective(r: real, s: real, lower: real, upper: real)
    requires lower < upper && Mix(r, lower, upper) == Mix(s, lower, upper)
    ensures r == s
  {
    assert Mix(r, lower, upper) - Mix(s, lower, upper) == (r - s) * (upper - lower);
    PositiveProduct(r - s, upper - lower);
  }

  /** Every coordinate lies strictly between its limits as far as they are finite and apart. */
  lemma SampleStrictlyInside(seed: nat, lower: seq<Limit>, upper: seq<Limit>, primes: seq<nat>, d: nat)
    requires Bases(primes) && |lower| == |upper| <= |primes| && d < |lower|
    requires Clamp(lower[d], -MaxDouble()) < Clamp(upper[d], MaxDouble())
    ensures Clamp(lower[d], -MaxDouble()) < Sample(seed, lower, upper, primes)[d] < Clamp(upper[d], MaxDouble())
  {
    hide MaxDouble, RadicalInverse;
    RadicalInverseBounds(seed + 1, primes[d]);
    MixBetween(Halton(seed, primes[d]), Clamp(lower[d], -MaxDouble()), Clamp(upper[d], MaxDouble()));
  }

  /** Accepted limits are apart, unless an infinite one meets the extreme finite double it stands for. */
  lemma AcceptedLimitsApart(lower: Limit, upper: Limit)
    requires IsDouble(lower) && IsDouble(upper) && HasDifference(lower, upper)
    ensures Ascending(lower, upper) && !(lower.MinusInfinity? && upper == Finite(-MaxDouble()))
                                    && !(upper.PlusInfinity? && lower == Finite(MaxDouble()))
            <==> Clamp(lower, -MaxDouble()) < Clamp(upper, MaxDouble())
                 && !(lower.PlusInfinity? || upper.MinusInfinity?)
  {
    MaxDoublePositive();
    hide MaxDouble;
  }

  lemma {:induction false} PowIncreases(b: nat, j: nat, k: nat)
    requires b >= 2 && j < k
    ensures Pow(b, j) < Pow(b, k)
  {
    PowPositive(b, k - 1);
    assert b * Pow(b, k - 1) >= 2 * Pow(b, k - 1);
    if j < k - 1 {
      PowIncreases(b, j, k - 1);
    }
  }

  lemma MaxDoublePositive()
    ensures MaxDouble() > 0.0
  {
    PowIncreases(2, 971, 1024);
  }

  /** Different seeds give different vectors, so counting the seed up never repeats one. */
  lemma SamplesNeverRepeat(a: nat, b: nat, lower: seq<Limit>, upper: seq<Limit>, primes: seq<nat>, d: nat)
    requires Bases(primes) && |lower| == |upper| <= |primes| && d < |lower|
    requires Clamp(lower[d], -MaxDouble()) < Clamp(upper[d], MaxDouble())
    ensures Sample(a, lower, upper, primes) == Sample(b, lower, upper, primes) <==> a == b
  {
    hide MaxDouble, RadicalInverse;
    if Sample(a, lower, upper, primes) == Sample(b, lower, upper, primes) {
      assert Sample(a, lower, upper, primes)[d] == Sample(b, lower, upper, primes)[d];
      MixInjective(Halton(a, primes[d]), Halton(b, primes[d]), Clamp(lower[d], -MaxDouble()), Clamp(upper[d], MaxDouble()));
      RadicalInverseInjective(a + 1, b + 1, primes[d]);
    }
  }

  // ---------- The vectors of consecutive seeds ----------

  /** v lies in part a of m equal parts of [low, high). */
  predicate Between(v: real, low: real, high: real, a: nat, m: nat)
    requires m > 0
  {
    low + (a as real) * ((high - low) / (m as real)) <= v < low + (a as real + 1.0) * ((high - low) / (m as real))
  }

  ghost predicate InPart(v: real, lower: Limit, upper: Limit, a: nat, m: nat)
    requires m > 0
  {
    forall low, high :: IsLow(lower, low) && IsHigh(upper, high) ==> Between(v, low, high, a, m)
  }

  /** A box between the limits with side (high - low)/p^k in every coordinate. */
  ghost predicate InSubBox(v: seq<real>, lower: seq<Limit>, upper: seq<Limit>, box: seq<nat>, ps: seq<nat>, ks: seq<nat>) {
    && |v| == |lower| == |upper| == |ps| && IsBox(box, ps, ks)
    && forall d :: 0 <= d < |v| ==> InPart(v[d], lower[d], upper[d], box[d], Pow(ps[d], ks[d]))
  }

  ghost predicate Apart(lower: Limit, upper: Limit) {
    forall low, high :: IsLow(lower, low) && IsHigh(upper, high) ==> low < high
  }

  lemma ScaledOrder(b: real, x: real, w: real, m: real)
    requires w > 0.0 && m > 0.0
    ensures b * (w / m) <= x * w <==> b <= x * m
  {
    var s := w / m;
    assert s > 0.0 && x * w == (x * m) * s by { QuotientPositive(w, m); UndoQuotient(x, w, m); }
    ProductOrder(b, x * m, s);
  }

  lemma QuotientPositive(w: real, m: real)
    requires w > 0.0 && m > 0.0
    ensures w / m > 0.0
  {
  }

  lemma UndoQuotient(x: real, w: real, m: real)
    requires m > 0.0
    ensures x * w == (x * m) * (w / m)
  {
    var s := w / m;
    assert s * m == w;
  }

  lemma ProductOrder(b: real, c: real, s: real)
    requires s > 0.0
    ensures b * s <= c * s <==> b <= c
  {
    PositiveProduct(c - b, s);
    assert (c - b) * s == c * s - b * s;
  }

  lemma BoundsScale(v: real, low: real, high: real, x: real, a: nat, m: nat)
    requires m > 0 && low < high && Fraction(v, low, high) == x
    ensures Between(v, low, high, a, m) <==> InCell(x, a, m)
  {
    var w := high - low;
    DivisionBack(v - low, w, x);
    ScaledOrder(a as real, x, w, m as real);
    ScaledOrder(a as real + 1.0, x, w, m as real);
  }

  lemma PartIsCell(v: real, lower: Limit, upper: Limit, x: real, a: nat, m: nat)
    requires m > 0 && Apart(lower, upper) && AtFraction(v, lower, upper, x)
    ensures InPart(v, lower, upper, a, m) <==> InCell(x, a, m)
  {
    var low := if lower.Finite? then lower.value else -MaxDouble();
    var high := if upper.Finite? then upper.value else MaxDouble();
    assert IsLow(lower, low) && IsHigh(upper, high);
    hide MaxDouble, InCell, Between, Fraction;
    BoundsScale(v, low, high, x, a, m);
    OnlyEnds(lower, upper, low, high);
    hide IsLow, IsHigh;
  }

  lemma OnlyEnds(lower: Limit, upper: Limit, low: real, high: real)
    requires IsLow(lower, low) && IsHigh(upper, high)
    ensures forall x, y :: IsLow(lower, x) && IsHigh(upper, y) ==> x == low && y == high
  {
    hide MaxDouble;
  }

  lemma DivisionBack(y: real, w: real, x: real)
    requires w != 0.0 && y / w == x
    ensures y == x * w
  {
  }

  lemma SubBoxIsBox(v: seq<real>, lower: seq<Limit>, upper: seq<Limit>, q: seq<real>, box: seq<nat>, ps: seq<nat>, ks: seq<nat>)
    requires |ps| == |lower| && IsBox(box, ps, ks) && AtFractions(v, lower, upper, q)
    requires forall d :: 0 <= d < |lower| ==> Apart(lower[d], upper[d])
    ensures InSubBox(v, lower, upper, box, ps, ks) <==> InBox(q, box, ps, ks)
  {
    hide InPart, InCell, Pow, Apart, AtFraction;
    forall d | 0 <= d < |lower|
      ensures InPart(v[d], lower[d], upper[d], box[d], Pow(ps[d], ks[d])) <==> InCell(q[d], box[d], Pow(ps[d], ks[d]))
    {
      PartIsCell(v[d], lower[d], upper[d], q[d], box[d], Pow(ps[d], ks[d]));
    }
  }

  /**
   * The vectors of p_1^k_1 * ... * p_n^k_n consecutive seeds put exactly one vector into every box between the limits
   * with sides (high - low)/p_1^k_1, ..., (high - low)/p_n^k_n.
   */
  lemma VectorsStratify(vs: seq<seq<real>>, start: nat, lower: seq<Limit>, upper: seq<Limit>, ps: seq<nat>, ks: seq<nat>,
                        box: seq<nat>) returns (t: nat)
    requires DistinctPrimes(ps) && Bases(ps) && |ps| == |lower| == |upper|
    requires IsBox(box, ps, ks) && |vs| == Product(Sides(ps, ks))
    requires forall d :: 0 <= d < |lower| ==> Apart(lower[d], upper[d])
    requires forall u :: 0 <= u < |vs| ==> AtFractions(vs[u], lower, upper, Point(start + u, ps))
    ensures t < |vs| && InSubBox(vs[t], lower, upper, box, ps, ks)
    ensures forall u :: 0 <= u < |vs| && InSubBox(vs[u], lower, upper, box, ps, ks) ==> u == t
  {
    PrimesAreBases(ps);
    hide InSubBox, InBox, Apart, DistinctPrimes, PairwiseCoprime, IsBox, Point, Sides, Product, AtFractions, Halton;
    var i := OnePointPerBox(start, ps, ks, box);
    t := i - start;
    forall u | 0 <= u < |vs|
      ensures InSubBox(vs[u], lower, upper, box, ps, ks) <==> InBox(Point(start + u, ps), box, ps, ks)
    {
      SubBoxIsBox(vs[u], lower, upper, Point(start + u, ps), box, ps, ks);
    }
    forall u | 0 <= u < |vs| && InSubBox(vs[u], lower, upper, box, ps, ks) ensures u == t {
      var j: nat := start + u;
      assert InBox(Point(j, ps), box, ps, ks);
    }
  }
}
