// Powers, coprimality and the Chinese remainder theorem, for the Halton sequence.
module NumberTheory {

  function Pow(b: nat, k: nat): nat {
    if k == 0 then 1 else b * Pow(b, k - 1)
  }

  lemma {:induction false} PowPositive(b: nat, k: nat)
    requires b >= 1
    ensures Pow(b, k) >= 1
  {
    if k > 0 {
      PowPositive(b, k - 1);
      assert b * Pow(b, k - 1) >= 1 * Pow(b, k - 1);
    }
  }

  /** Every number is below some power. */
  lemma {:induction false} BelowPow(n: nat, b: nat)
    requires b >= 2
    ensures n < Pow(b, n)
  {
    if n > 0 {
      BelowPow(n - 1, b);
      assert b * Pow(b, n - 1) >= 2 * Pow(b, n - 1);
    }
  }

  // ---------- Remainders ----------

  lemma MultiplesApart(q: int, m: int)
    requires m > 0
    ensures q >= 1 ==> q * m >= m
    ensures q <= -1 ==> q * m <= 0 - m
  {
  }

  /** Quotient and remainder are unique. */
  lemma RemainderUnique(n: int, q: int, m: nat, r: int)
    requires m > 0 && 0 <= r < m && n == q * m + r
    ensures n % m == r && n / m == q
  {
    var d := n / m - q;
    assert n == (n / m) * m + n % m;
    assert d * m == r - n % m;
    MultiplesApart(d, m);
  }

  /** Two numbers with the same remainder differ by a multiple. */
  lemma SameRemainder(a: int, b: int, m: nat) returns (q: int)
    requires m > 0 && a % m == b % m
    ensures a - b == q * m
  {
    q := a / m - b / m;
    assert a == (a / m) * m + a % m;
    assert b == (b / m) * m + b % m;
    assert (a / m) * m - (b / m) * m == q * m;
  }

  lemma MultipleAdded(a: int, q: int, m: nat)
    requires m > 0
    ensures (a + q * m) % m == a % m
  {
    assert a == (a / m) * m + a % m;
    assert a + q * m == (a / m + q) * m + a % m;
    RemainderUnique(a + q * m, a / m + q, m, a % m);
  }

  // ---------- Coprime numbers ----------

  ghost predicate Divides(d: nat, n: nat) {
    exists q: nat :: d * q == n
  }

  /** No common divisor but 1. */
  ghost predicate Coprime(a: nat, b: nat) {
    forall d: nat :: Divides(d, a) && Divides(d, b) ==> d == 1
  }

  ghost predicate IsPrime(p: nat) {
    p >= 2 && forall d: nat :: Divides(d, p) ==> d == 1 || d == p
  }

  lemma DistinctPrimesCoprime(p: nat, q: nat)
    requires IsPrime(p) && IsPrime(q) && p != q
    ensures Coprime(p, q)
  {
  }

  function Combination(a: int, b: int, x: int, y: int): int { a * x + b * y }

  /** 1 is an integer combination of the two numbers. */
  ghost predicate Bezout(a: int, b: int) {
    exists x: int, y: int :: Combination(a, b, x, y) == 1
  }

  lemma BezoutSymmetric(a: int, b: int)
    requires Bezout(a, b)
    ensures Bezout(b, a)
  {
    var x: int, y: int :| Combination(a, b, x, y) == 1;
    assert Combination(b, a, y, x) == 1;
  }

  lemma DividesCombination(d: nat, b: nat, q: nat, r: nat)
    requires Divides(d, b) && Divides(d, r)
    ensures Divides(d, q * b + r)
  {
    var s: nat :| d * s == b;
    var t: nat :| d * t == r;
    assert d * (q * s + t) == q * (d * s) + d * t;
  }

  /** Coprime numbers have 1 as a combination: Euclid's algorithm. */
  lemma {:induction false} CoprimeBezout(a: nat, b: nat)
    requires Coprime(a, b)
    ensures Bezout(a, b)
    decreases b
  {
    hide Divides, Combination;
    if b == 0 {
      OneDividesAll(a);
      BezoutOfOne();
    } else {
      var q, r := a / b, a % b;
      assert a == q * b + r;
      forall d: nat | Divides(d, b) && Divides(d, r) ensures d == 1 {
        DividesCombination(d, b, q, r);
      }
      CoprimeBezout(b, r);
      var x: int, y: int :| Combination(b, r, x, y) == 1;
      BezoutStep(a, b, q, r, x, y);
    }
  }

  lemma OneDividesAll(a: nat)
    ensures Divides(a, a) && Divides(a, 0)
  {
    assert a * 1 == a && a * 0 == 0;
  }

  lemma BezoutOfOne()
    ensures Combination(1, 0, 1, 0) == 1
  {
  }

  lemma BezoutStep(a: int, b: int, q: int, r: int, x: int, y: int)
    requires a == q * b + r && Combination(b, r, x, y) == 1
    ensures Combination(a, b, y, x - q * y) == 1
  {
    assert a * y == q * b * y + r * y;
    assert b * (x - q * y) == b * x - q * b * y;
  }

  lemma BezoutProduct(a: int, b: int, c: int)
    requires Bezout(a, b) && Bezout(a, c)
    ensures Bezout(a, b * c)
  {
    var x: int, y: int :| Combination(a, b, x, y) == 1;
    var u: int, v: int :| Combination(a, c, u, v) == 1;
    var z := a * x * u + x * c * v + b * y * u;
    assert Combination(a, b * c, z, y * v) == (a * x + b * y) * (a * u + c * v) by {
      ProductExpands(a, b, c, x, y, u, v);
    }
  }

  lemma ProductExpands(a: int, b: int, c: int, x: int, y: int, u: int, v: int)
    ensures (a * x + b * y) * (a * u + c * v) == a * (a * x * u + x * c * v + b * y * u) + (b * c) * (y * v)
  {
    var s, t := a * x, b * y;
    var w, e := a * u, c * v;
    assert (s + t) * (w + e) == s * w + s * e + t * w + t * e;
    assert s * w == a * (a * x * u);
    assert s * e == a * (x * c * v);
    assert t * w == a * (b * y * u);
    assert t * e == (b * c) * (y * v);
  }

  lemma {:induction false} BezoutPow(a: int, b: nat, k: nat)
    requires Bezout(a, b)
    ensures Bezout(a, Pow(b, k))
  {
    if k == 0 {
      assert Combination(a, 1, 0, 1) == 1;
    } else {
      BezoutPow(a, b, k - 1);
      BezoutProduct(a, b, Pow(b, k - 1));
    }
  }

  /** Powers of coprime numbers are coprime. */
  lemma CoprimePowers(a: nat, j: nat, b: nat, k: nat)
    requires Coprime(a, b)
    ensures Bezout(Pow(a, j), Pow(b, k))
  {
    CoprimeBezout(a, b);
    BezoutPow(a, b, k);
    BezoutSymmetric(a, Pow(b, k));
    BezoutPow(Pow(b, k), a, j);
    BezoutSymmetric(Pow(b, k), Pow(a, j));
  }

  // ---------- The Chinese remainder theorem ----------

  /** A number with both remainders. */
  lemma CommonSolution(m: nat, k: nat, r: nat, t: nat, u: int, v: int) returns (s: int)
    requires m > 0 && k > 0 && m * u + k * v == 1 && r < m && t < k
    ensures s % m == r && s % k == t
  {
    s := r * (k * v) + t * (m * u);
    assert s == r + ((t - r) * u) * m by {
      assert k * v == 1 - m * u;
      assert r * (1 - m * u) == r - r * (m * u);
      assert ((t - r) * u) * m == t * (m * u) - r * (m * u);
    }
    assert s == t + ((r - t) * v) * k by {
      assert m * u == 1 - k * v;
      assert t * (1 - k * v) == t - t * (k * v);
      assert ((r - t) * v) * k == r * (k * v) - t * (k * v);
    }
    RemainderUnique(s, (t - r) * u, m, r);
    RemainderUnique(s, (r - t) * v, k, t);
  }

  /** The remainder of the product determines both remainders. */
  lemma RemainderOfProduct(n: int, m: nat, k: nat)
    requires m > 0 && k > 0
    ensures m * k > 0 && (n % (m * k)) % m == n % m && (n % (m * k)) % k == n % k
  {
    assert m * k > 0;
    var q, x := n / (m * k), n % (m * k);
    assert n == q * (m * k) + x;
    assert q * (m * k) == (q * k) * m && q * (m * k) == (q * m) * k;
    MultipleAdded(x, q * k, m);
    MultipleAdded(x, q * m, k);
  }

  /** Numbers with the same remainders have the same remainder of the product. */
  lemma SameRemainderOfProduct(a: int, b: int, m: nat, k: nat, u: int, v: int)
    requires m > 0 && k > 0 && m * u + k * v == 1
    requires a % m == b % m && a % k == b % k
    ensures m * k > 0 && a % (m * k) == b % (m * k)
  {
    var i := SameRemainder(a, b, m);
    var j := SameRemainder(a, b, k);
    CommonMultiple(a - b, m, k, u, v, i, j);
    assert m * k > 0;
    MultipleAdded(b, u * j + v * i, m * k);
  }

  /** For two coprime moduli, two remainders are one remainder of the product. */
  lemma ChineseRemainder2(m: nat, k: nat, r: nat, t: nat) returns (x: nat)
    requires m > 0 && k > 0 && Bezout(m, k) && r < m && t < k
    ensures m * k > 0 && x < m * k
    ensures forall n: nat :: n % m == r && n % k == t <==> n % (m * k) == x
  {
    var u: int, v: int :| Combination(m, k, u, v) == 1;
    var s := CommonSolution(m, k, r, t, u, v);
    assert m * k > 0;
    x := s % (m * k);
    forall n: nat ensures n % m == r && n % k == t <==> n % (m * k) == x {
      RemainderOfProduct(s, m, k);
      RemainderOfProduct(n, m, k);
      if n % m == r && n % k == t {
        SameRemainderOfProduct(n, s, m, k, u, v);
      }
    }
  }

  lemma CommonMultiple(d: int, m: int, k: int, u: int, v: int, a: int, b: int)
    requires m * u + k * v == 1 && d == a * m && d == b * k
    ensures d == (u * b + v * a) * (m * k)
  {
    assert d == d * (m * u + k * v);
    assert d * (m * u) == (b * k) * (m * u);
    assert d * (k * v) == (a * m) * (k * v);
    assert (b * k) * (m * u) == (u * b) * (m * k);
    assert (a * m) * (k * v) == (v * a) * (m * k);
  }

  function Product(ms: seq<nat>): nat {
    if ms == [] then 1 else ms[0] * Product(ms[1..])
  }

  ghost predicate PairwiseBezout(ms: seq<nat>) {
    forall i, j :: 0 <= i < j < |ms| ==> Bezout(ms[i], ms[j])
  }

  lemma {:induction false} BezoutWithProduct(m: nat, ms: seq<nat>)
    requires forall j :: 0 <= j < |ms| ==> Bezout(m, ms[j])
    ensures Bezout(m, Product(ms))
  {
    if ms == [] {
      assert Combination(m, 1, 0, 1) == 1;
    } else {
      forall j | 0 <= j < |ms[1..]| ensures Bezout(m, ms[1..][j]) {
        assert ms[1..][j] == ms[j + 1];
      }
      BezoutWithProduct(m, ms[1..]);
      BezoutProduct(m, ms[0], Product(ms[1..]));
    }
  }

  lemma {:induction false} ProductPositive(ms: seq<nat>)
    requires forall j :: 0 <= j < |ms| ==> ms[j] > 0
    ensures Product(ms) > 0
  {
    if ms != [] {
      ProductPositive(ms[1..]);
      assert ms[0] * Product(ms[1..]) > 0;
    }
  }

  /** n has all these remainders. */
  predicate HasRemainders(n: nat, ms: seq<nat>, rs: seq<nat>)
    requires |ms| == |rs| && forall j :: 0 <= j < |ms| ==> ms[j] > 0
  {
    forall j :: 0 <= j < |ms| ==> n % ms[j] == rs[j]
  }

  lemma HasRemaindersStep(n: nat, ms: seq<nat>, rs: seq<nat>)
    requires |ms| == |rs| && ms != [] && forall j :: 0 <= j < |ms| ==> ms[j] > 0
    ensures HasRemainders(n, ms, rs) <==> n % ms[0] == rs[0] && HasRemainders(n, ms[1..], rs[1..])
  {
    if HasRemainders(n, ms[1..], rs[1..]) && n % ms[0] == rs[0] {
      forall j | 0 <= j < |ms| ensures n % ms[j] == rs[j] {
        if j > 0 { assert ms[j] == ms[1..][j - 1] && rs[j] == rs[1..][j - 1]; }
      }
    }
  }

  /** Given remainders of pairwise coprime moduli are one remainder of their product. */
  lemma {:induction false} ChineseRemainder(ms: seq<nat>, rs: seq<nat>) returns (x: nat)
    requires |ms| == |rs| && forall j :: 0 <= j < |ms| ==> rs[j] < ms[j]
    requires PairwiseBezout(ms)
    ensures Product(ms) > 0 && x < Product(ms)
    ensures forall n: nat :: HasRemainders(n, ms, rs) <==> n % Product(ms) == x
  {
    if ms == [] {
      x := 0;
    } else {
      var tail := Product(ms[1..]);
      var y := ChineseRemainder(ms[1..], rs[1..]);
      BezoutWithProduct(ms[0], ms[1..]);
      x := ChineseRemainder2(ms[0], tail, rs[0], y);
      forall n: nat ensures HasRemainders(n, ms, rs) <==> n % Product(ms) == x {
        HasRemaindersStep(n, ms, rs);
      }
    }
  }

  /** Among `m` consecutive numbers exactly one has a given remainder. */
  lemma OneInWindow(start: nat, m: nat, r: nat) returns (n: nat)
    requires m > 0 && r < m
    ensures start <= n < start + m && n % m == r
    ensures forall k: nat :: start <= k < start + m && k % m == r ==> k == n
  {
    n := start + (r - start) % m;
    var q := (r - start) / m;
    assert r - start == q * m + (r - start) % m;
    assert n == r + (-q) * m;
    MultipleAdded(r, -q, m);
    RemainderUnique(r, 0, m, r);
    forall k: nat | start <= k < start + m && k % m == r ensures k == n {
      var e := SameRemainder(k, n, m);
      MultiplesApart(e, m);
    }
  }
}
