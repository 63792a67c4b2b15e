// What the order of versions means for the version texts themselves.
module VersionTexts {
  import opened MlModels
  import opened VersionOrder

  // ---------- Texts around a digit run ----------

  predicate DigitRun(d: string) {
    d != "" && forall i :: 0 <= i < |d| ==> IsDigit(d[i])
  }

  predicate NoDigits(t: string) {
    forall i :: 0 <= i < |t| ==> !IsDigit(t[i])
  }

  predicate EndsWithDigit(x: string) { x != "" && IsDigit(x[|x| - 1]) }

  predicate StartsWithDigit(y: string) { y != "" && IsDigit(y[0]) }

  /** A run ends where the next character is of the other kind. */
  lemma RunIs(u: string, v: string, digits: bool)
    requires forall i :: 0 <= i < |u| ==> IsDigit(u[i]) == digits
    requires v != "" ==> IsDigit(v[0]) != digits
    ensures RunLength(u + v, digits) == |u|
  {
    var s := u + v;
    assert forall i :: 0 <= i < |u| ==> s[i] == u[i];
    assert v != "" ==> s[|u|] == v[0];
    hide RunLength;
  }

  lemma TextIs(t: string, rest: string)
    requires NoDigits(t) && (rest != "" ==> StartsWithDigit(rest))
    ensures Text(t + rest) == t && AfterText(t + rest) == rest
  {
    RunIs(t, rest, false);
  }

  lemma DigitsIs(d: string, rest: string)
    requires DigitRun(d) && !StartsWithDigit(rest)
    ensures Digits(d + rest) == d && AfterDigits(d + rest) == rest
  {
    RunIs(d, rest, true);
  }

  lemma TextParts(s: string) returns (t: string, rest: string)
    ensures s == t + rest && NoDigits(t) && (rest != "" ==> StartsWithDigit(rest))
  {
    var n := RunLength(s, false);
    t, rest := s[..n], s[n..];
  }

  lemma DigitParts(s: string) returns (d: string, rest: string)
    requires StartsWithDigit(s)
    ensures s == d + rest && DigitRun(d) && !StartsWithDigit(rest)
  {
    var n := RunLength(s, true);
    d, rest := s[..n], s[n..];
  }

  lemma SplitText(t: string)
    requires NoDigits(t)
    ensures Split(t) == [t]
  {
    TextIs(t, "");
    assert t + "" == t;
  }

  lemma SplitFirst(t: string, d: string, rest: string)
    requires NoDigits(t) && DigitRun(d) && !StartsWithDigit(rest)
    ensures Split(t + (d + rest)) == [t, d] + Split(rest)
  {
    TextIs(t, d + rest);
    DigitsIs(d, rest);
    hide Text, AfterText, Digits, AfterDigits;
    SplitUnfolded(t + (d + rest));
  }

  lemma SplitUnfolded(s: string)
    requires AfterText(s) != ""
    ensures Split(s) == [Text(s), Digits(AfterText(s))] + Split(AfterDigits(AfterText(s)))
  {
  }

  lemma Associate(t: string, d: string, x: string, e: string, y: string)
    ensures t + (d + x) + e + y == t + (d + (x + e + y))
  {
    assert t + (d + x) + e + y == t + (d + (x + e + y));
  }

  /** A version is split at each of its digit runs. */
  lemma {:induction false} SplitAt(x: string, d: string, y: string)
    requires !EndsWithDigit(x) && DigitRun(d) && !StartsWithDigit(y)
    ensures Split(x + d + y) == Split(x) + [d] + Split(y)
    decreases |x|
  {
    var t, r := TextParts(x);
    hide Split, RunLength;
    if r == "" {
      assert x == t;
      SplitText(x);
      SplitFirst(x, d, y);
      assert x + d + y == x + (d + y);
      assert [x, d] + Split(y) == [x] + [d] + Split(y);
    } else {
      var e, x' := DigitParts(r);
      EndsLater(x, t, e, x');
      SplitFirst(t, e, x');
      SplitFirst(t, e, x' + d + y);
      Associate(t, e, x', d, y);
      SplitAt(x', d, y);
      assert [t, e] + (Split(x') + [d] + Split(y)) == [t, e] + Split(x') + [d] + Split(y);
    }
  }

  lemma EndsLater(x: string, t: string, e: string, rest: string)
    requires x == t + (e + rest) && DigitRun(e) && !EndsWithDigit(x) && !StartsWithDigit(rest)
    ensures |rest| < |x| && rest != "" && !EndsWithDigit(rest)
    ensures forall d, y :: DigitRun(d) && !StartsWithDigit(y) ==> !StartsWithDigit(rest + d + y)
  {
    assert x[|x| - 1] == (e + rest)[|e + rest| - 1];
    forall d: string, y: string ensures !StartsWithDigit(rest + d + y) {
      assert (rest + d + y)[0] == rest[0];
    }
  }

  // ---------- Keys of such texts ----------

  lemma KeyAt(x: string, d: string, y: string)
    requires !EndsWithDigit(x) && DigitRun(d) && !StartsWithDigit(y)
    ensures KeyOf(x + d + y) == KeyOf(x) + [Num(ToInt(d))] + KeyOf(y)
  {
    SplitAt(x, d, y);
    KeyFromSplit(x);
    KeyFromSplit(y);
    KeyFromSplit(x + d + y);
    hide Split, KeyOf, ToInt;
    KeyFromParts(Split(x), d, Split(y), KeyOf(x), KeyOf(y), KeyOf(x + d + y));
  }

  ghost predicate KeyFrom(parts: seq<string>, key: seq<Part>) {
    Alternates(parts) && |key| == |parts| && forall i :: 0 <= i < |parts| ==> key[i] == PartAt(parts, i)
  }

  lemma KeyFromSplit(s: string)
    ensures KeyFrom(Split(s), KeyOf(s)) && |Split(s)| % 2 == 1
  {
    SplitAlternates(s);
    hide Split;
  }

  lemma KeyFromParts(p: seq<string>, d: string, q: seq<string>, a: seq<Part>, b: seq<Part>, c: seq<Part>)
    requires DigitRun(d) && |p| % 2 == 1
    requires KeyFrom(p, a) && KeyFrom(q, b) && KeyFrom(p + [d] + q, c)
    ensures c == a + [Num(ToInt(d))] + b
  {
    hide Alternates, ToInt;
    var all := p + [d] + q;
    forall i | 0 <= i < |q| ensures c[|p| + 1 + i] == b[i] {
      assert all[|p| + 1 + i] == q[i];
    }
    forall i | 0 <= i < |p| ensures c[i] == a[i] {
      assert all[i] == p[i];
    }
    assert all[|p|] == d;
  }

  // ---------- Digit runs as numbers ----------

  /** Leading zeros do not count. */
  function Stripped(d: string): string {
    if d != "" && d[0] == '0' then Stripped(d[1..]) else d
  }

  /** The first position at which the two differ is i, and d has the smaller character there. */
  predicate SmallerAt(d: string, e: string, i: nat) {
    i < |d| && i < |e| && d[..i] == e[..i] && d[i] < e[i]
  }

  /** How decimal numbers without leading zeros compare: by length, then by the first differing digit. */
  ghost predicate DecimalLess(d: string, e: string) {
    |d| < |e| || (|d| == |e| && exists i: nat :: SmallerAt(d, e, i))
  }

  predicate AllDigits(d: string) {
    forall i :: 0 <= i < |d| ==> IsDigit(d[i])
  }

  lemma {:induction false} LeadingZero(d: string)
    requires AllDigits(d)
    ensures AllDigits("0" + d) && ToInt("0" + d) == ToInt(d)
  {
    if d == "" {
      assert "0"[..0] == "" && "0" + d == "0";
      assert ToInt("") == 0;
    } else {
      var z := "0" + d;
      assert z[..|z| - 1] == "0" + d[..|d| - 1];
      LeadingZero(d[..|d| - 1]);
    }
  }

  lemma {:induction false} StrippedValue(d: string)
    requires AllDigits(d)
    ensures AllDigits(Stripped(d)) && ToInt(Stripped(d)) == ToInt(d)
    ensures Stripped(d) != "" ==> Stripped(d)[0] != '0'
  {
    hide ToInt;
    if d != "" && d[0] == '0' {
      StrippedValue(d[1..]);
      LeadingZero(d[1..]);
      assert d == "0" + d[1..];
    }
  }

  lemma {:induction false} ValuePositive(d: string)
    requires AllDigits(d) && d != "" && d[0] != '0'
    ensures ToInt(d) > 0
  {
    if |d| > 1 {
      ValuePositive(d[..|d| - 1]);
    }
  }

  lemma {:induction false} ShorterIsSmaller(d: string, e: string)
    requires AllDigits(d) && AllDigits(e) && |d| < |e| && e[0] != '0'
    ensures ToInt(d) < ToInt(e)
  {
    if d == "" {
      ValuePositive(e);
    } else {
      ShorterIsSmaller(d[..|d| - 1], e[..|e| - 1]);
    }
  }

  lemma {:induction false} FirstDifferenceDecides(d: string, e: string, i: nat)
    requires AllDigits(d) && AllDigits(e) && |d| == |e| && SmallerAt(d, e, i)
    ensures ToInt(d) < ToInt(e)
  {
    var m := |d| - 1;
    if i == m {
      assert d[..m] == e[..m];
    } else {
      assert d[..m][..i] == d[..i] && e[..m][..i] == e[..i];
      FirstDifferenceDecides(d[..m], e[..m], i);
    }
  }

  /** Different texts of the same length differ first somewhere. */
  lemma {:induction false} SomeDifference(d: string, e: string) returns (i: nat)
    requires |d| == |e| && d != e
    ensures i < |d| && d[..i] == e[..i] && d[i] != e[i]
  {
    assert d[..|d|] == d && e[..|e|] == e;
    i := 0;
    while i < |d| && d[i] == e[i]
      invariant i <= |d| && d[..i] == e[..i]
    {
      assert d[..i + 1] == d[..i] + [d[i]] && e[..i + 1] == e[..i] + [e[i]];
      i := i + 1;
    }
  }

  lemma DecimalTotal(d: string, e: string)
    ensures DecimalLess(d, e) || DecimalLess(e, d) || d == e
  {
    if |d| == |e| && d != e {
      var i := SomeDifference(d, e);
      assert SmallerAt(d, e, i) || SmallerAt(e, d, i);
    }
  }

  lemma DecimalLessIsSmaller(d: string, e: string)
    requires AllDigits(d) && AllDigits(e) && DecimalLess(d, e) && e != "" && e[0] != '0'
    ensures ToInt(d) < ToInt(e)
  {
    if |d| < |e| {
      ShorterIsSmaller(d, e);
    } else {
      var i: nat :| SmallerAt(d, e, i);
      FirstDifferenceDecides(d, e, i);
    }
  }

  lemma LessHasDigits(d: string, e: string)
    requires DecimalLess(d, e)
    ensures e != ""
  {
  }

  /** Digit runs have the order, and the ties, of the numbers written without leading zeros. */
  lemma ValuesCompare(d: string, e: string)
    requires AllDigits(d) && AllDigits(e)
    ensures ToInt(d) < ToInt(e) <==> DecimalLess(Stripped(d), Stripped(e))
    ensures ToInt(d) == ToInt(e) <==> Stripped(d) == Stripped(e)
  {
    StrippedValue(d);
    StrippedValue(e);
    hide ToInt, Stripped, DecimalLess;
    var m, n := Stripped(d), Stripped(e);
    DecimalTotal(m, n);
    if DecimalLess(m, n) {
      LessHasDigits(m, n);
      DecimalLessIsSmaller(m, n);
    }
    if DecimalLess(n, m) {
      LessHasDigits(n, m);
      DecimalLessIsSmaller(n, m);
    }
  }

  // ---------- What decides between two versions ----------

  /** a's version is older than b's. */
  predicate Below(a: MlModel, b: MlModel) { VersionLe(a, b) && !VersionLe(b, a) }

  lemma BelowIsKeyLess(a: MlModel, b: MlModel)
    ensures SameShape(KeyOf(a.version), KeyOf(b.version))
    ensures Below(a, b) <==> KeyLess(KeyOf(a.version), KeyOf(b.version))
  {
    VersionLeTotalPreorder(a, b, a);
    hide KeyLess;
    KeyTrichotomy(KeyOf(a.version), KeyOf(b.version));
  }

  lemma {:induction false} CommonPrefix(p: seq<Part>, a: seq<Part>, b: seq<Part>)
    requires SameShape(p + a, p + b)
    ensures SameShape(a, b)
    ensures KeyLess(p + a, p + b) <==> KeyLess(a, b)
  {
    var u, v := p + a, p + b;
    if p == [] {
      assert u == a && v == b;
    } else {
      assert u[1..] == p[1..] + a && v[1..] == p[1..] + b;
      assert forall i :: 0 <= i < |u[1..]| ==> u[1..][i] == u[i + 1];
      assert forall i :: 0 <= i < |v[1..]| ==> v[1..][i] == v[i + 1];
      CommonPrefix(p[1..], a, b);
    }
  }

  lemma NumberFirst(m: nat, n: nat, p: seq<Part>, q: seq<Part>)
    requires SameShape([Num(m)] + p, [Num(n)] + q)
    ensures m != n ==> (KeyLess([Num(m)] + p, [Num(n)] + q) <==> m < n)
  {
  }

  lemma PrefixedKeys(p: seq<Part>, d: string, e: string, q: seq<Part>, r: seq<Part>)
    requires AllDigits(d) && AllDigits(e)
    requires SameShape(p + [Num(ToInt(d))] + q, p + [Num(ToInt(e))] + r)
    ensures SameShape([Num(ToInt(d))] + q, [Num(ToInt(e))] + r)
    ensures KeyLess(p + [Num(ToInt(d))] + q, p + [Num(ToInt(e))] + r)
            <==> KeyLess([Num(ToInt(d))] + q, [Num(ToInt(e))] + r)
  {
    hide ToInt, KeyLess, SameShape;
    assert p + [Num(ToInt(d))] + q == p + ([Num(ToInt(d))] + q);
    assert p + [Num(ToInt(e))] + r == p + ([Num(ToInt(e))] + r);
    CommonPrefix(p, [Num(ToInt(d))] + q, [Num(ToInt(e))] + r);
  }

  /** Versions that are the same up to two different numbers are ordered by these numbers. */
  lemma NumbersDecide(a: MlModel, b: MlModel, x: string, d: string, e: string, y: string, z: string)
    requires a.version == x + d + y && b.version == x + e + z
    requires !EndsWithDigit(x) && DigitRun(d) && DigitRun(e) && !StartsWithDigit(y) && !StartsWithDigit(z)
    requires Stripped(d) != Stripped(e)
    ensures Below(a, b) <==> DecimalLess(Stripped(d), Stripped(e))
  {
    KeyAt(x, d, y);
    KeyAt(x, e, z);
    BelowIsKeyLess(a, b);
    hide Below, KeyOf, KeyLess, SameShape, ToInt, DecimalLess, Stripped;
    PrefixedKeys(KeyOf(x), d, e, KeyOf(y), KeyOf(z));
    ValuesCompare(d, e);
    NumberFirst(ToInt(d), ToInt(e), KeyOf(y), KeyOf(z));
  }

  /** If the numbers are the same too, what follows them decides. */
  lemma RestDecides(a: MlModel, b: MlModel, x: string, d: string, e: string, y: string, z: string)
    requires a.version == x + d + y && b.version == x + e + z
    requires !EndsWithDigit(x) && DigitRun(d) && DigitRun(e) && !StartsWithDigit(y) && !StartsWithDigit(z)
    requires Stripped(d) == Stripped(e)
    ensures Below(a, b) <==> Below(a.(version := y), b.(version := z))
  {
    KeyAt(x, d, y);
    KeyAt(x, e, z);
    BelowIsKeyLess(a, b);
    BelowIsKeyLess(a.(version := y), b.(version := z));
    hide Below, KeyOf, KeyLess, SameShape, ToInt, Stripped;
    ValuesCompare(d, e);
    CommonPrefix(KeyOf(x) + [Num(ToInt(d))], KeyOf(y), KeyOf(z));
  }

  lemma LongerKey(p: seq<Part>, q: seq<Part>, key: seq<Part>)
    requires key == p + q && q != [] && SameShape(p, key)
    ensures KeyLess(p, key)
  {
    assert p == p + [];
    CommonPrefix(p, [], q);
  }

  /** A version that ends before a number the other one goes on with is older. */
  lemma ShorterIsOlder(a: MlModel, b: MlModel, z: string)
    requires b.version == a.version + z && !EndsWithDigit(a.version) && StartsWithDigit(z)
    ensures Below(a, b)
  {
    BelowIsKeyLess(a, b);
    hide Below, KeyOf, KeyLess, SameShape, ToInt;
    var x := a.version;
    var d, rest := DigitParts(z);
    assert b.version == x + d + rest;
    KeyAt(x, d, rest);
    ghost var q := [Num(ToInt(d))] + KeyOf(rest);
    Regroup(KeyOf(x), [Num(ToInt(d))], KeyOf(rest));
    LongerKey(KeyOf(x), q, KeyOf(b.version));
  }

  lemma Regroup(p: seq<Part>, q: seq<Part>, r: seq<Part>)
    ensures p + q + r == p + (q + r)
  {
  }

  // ---------- Where the texts differ ----------

  lemma {:induction false} CommonText(t: string, u: string, v: string)
    ensures StringLess(t + u, t + v) <==> StringLess(u, v)
  {
    if t == "" {
      assert t + u == u && t + v == v;
    } else {
      assert (t + u)[1..] == t[1..] + u && (t + v)[1..] == t[1..] + v;
      CommonText(t[1..], u, v);
    }
  }

  /** z goes on with text at the first difference; y ends, has a number, or goes on with a smaller character there. */
  predicate TextGoesOn(y: string, z: string) {
    && z != "" && !IsDigit(z[0])
    && (y == "" || IsDigit(y[0]) || y[0] < z[0])
  }

  lemma FirstPart(t: string, y: string)
    requires NoDigits(t)
    ensures KeyOf(t + y) != [] && KeyOf(t + y)[0] == Str(t + Text(y))
  {
    var s := t + y;
    assert NoDigits(t + Text(y));
    assert s == (t + Text(y)) + AfterText(y);
    RunIs(t + Text(y), AfterText(y), false);
    assert Split(s)[0] == Text(s);
  }

  lemma FirstTextsDecide(a: MlModel, b: MlModel, t: string, y: string, z: string)
    requires a.version == t + y && b.version == t + z && NoDigits(t) && TextGoesOn(y, z)
    ensures Below(a, b)
  {
    FirstPart(t, y);
    FirstPart(t, z);
    TextsOf(y, z);
    CommonText(t, Text(y), Text(z));
    StringTrichotomy(t + Text(y), t + Text(z));
    BelowIsKeyLess(a, b);
    hide Below, KeyOf, StringLess, Text;
    FirstPartsDecide(KeyOf(a.version), KeyOf(b.version));
  }

  lemma TextsOf(y: string, z: string)
    requires TextGoesOn(y, z)
    ensures StringLess(Text(y), Text(z))
  {
  }

  lemma FirstPartsDecide(p: seq<Part>, q: seq<Part>)
    requires SameShape(p, q) && p != [] && q != [] && p[0] != q[0]
    ensures KeyLess(p, q) <==> PartLess(p[0], q[0])
  {
    hide StringLess;
  }

  /** Cuts a text before its last characters of one kind. */
  lemma {:induction false} LastRun(w: string, digits: bool) returns (x: string, t: string)
    ensures w == x + t && (forall i :: 0 <= i < |t| ==> IsDigit(t[i]) == digits)
    ensures x != "" ==> IsDigit(x[|x| - 1]) != digits
    ensures w != "" && IsDigit(w[|w| - 1]) == digits ==> t != ""
  {
    x, t := w, "";
    while x != "" && IsDigit(x[|x| - 1]) == digits
      invariant w == x + t && (forall i :: 0 <= i < |t| ==> IsDigit(t[i]) == digits)
      invariant t == "" ==> x == w
      decreases |x|
    {
      x, t := x[..|x| - 1], [x[|x| - 1]] + t;
    }
  }

  /**
   * Versions that are the same up to a character of text in b: a is older if it ends there, has a smaller character of
   * text there, or starts a number there.
   */
  lemma TextsDecide(a: MlModel, b: MlModel, w: string, y: string, z: string)
    requires a.version == w + y && b.version == w + z && TextGoesOn(y, z)
    requires !(EndsWithDigit(w) && StartsWithDigit(y))
    ensures Below(a, b)
  {
    hide Below, TextGoesOn;
    var v, t := LastRun(w, false);
    if v == "" {
      assert w == t;
      FirstTextsDecide(a, b, t, y, z);
    } else {
      var x, d := LastRun(v, true);
      assert a.version == x + d + (t + y) && b.version == x + d + (t + z);
      AfterNumber(w, v, t, y, z);
      RestDecides(a, b, x, d, d, t + y, t + z);
      FirstTextsDecide(a.(version := t + y), b.(version := t + z), t, y, z);
    }
  }

  lemma AfterNumber(w: string, v: string, t: string, y: string, z: string)
    requires w == v + t && EndsWithDigit(v) && NoDigits(t) && TextGoesOn(y, z)
    requires !(EndsWithDigit(w) && StartsWithDigit(y))
    ensures !StartsWithDigit(t + y) && !StartsWithDigit(t + z)
  {
    if t == "" {
      assert w == v && t + y == y && t + z == z;
    } else {
      assert (t + y)[0] == t[0] && (t + z)[0] == t[0];
    }
  }

  // ---------- Which version is served ----------

  /** Of two versions of a name the newer one is served, in whichever order they are listed. */
  lemma NewerIsServed(a: MlModel, b: MlModel)
    requires a.name == b.name && Below(a, b)
    ensures LatestVersions([a, b]) == map[b.name := b]
    ensures LatestVersions([b, a]) == map[b.name := b]
  {
    hide Served;
    VersionLeTotalPreorder(b, b, b);
    hide VersionLe;
    assert Names([a, b]) == {b.name} by { assert a in [a, b] && b in [a, b]; }
    assert Names([b, a]) == {b.name} by { assert a in [b, a] && b in [b, a]; }
    assert ServesAt([a, b], b.name, 1);
    assert ServesAt([b, a], b.name, 0);
    LatestIsLastMaximal([a, b], b.name, b);
    LatestIsLastMaximal([b, a], b.name, b);
  }

  /** 1.10.0 is served instead of 1.9.0. */
  lemma TenIsNewerThanNine(a: MlModel, b: MlModel)
    requires a.name == b.name && a.version == "1.9.0" && b.version == "1.10.0"
    ensures LatestVersions([a, b]) == map[b.name := b]
    ensures LatestVersions([b, a]) == map[b.name := b]
  {
    assert "1.9.0" == "1." + "9" + ".0" && "1.10.0" == "1." + "10" + ".0";
    NumbersDecide(a, b, "1.", "9", "10", ".0", ".0");
    NewerIsServed(a, b);
  }
}
