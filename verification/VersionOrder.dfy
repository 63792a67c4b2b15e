// Choosing the served version of each model: _version_key and _latest_versions.
module VersionOrder {
  import opened MlModels

  // ---------- Splitting a version into text and digit runs ----------

  predicate IsDigit(c: char) { '0' <= c <= '9' }

  /** Length of the longest prefix whose characters are all digits (or all not). */
  function RunLength(s: string, digits: bool): (n: nat)
    ensures n <= |s|
    ensures forall i :: 0 <= i < n ==> IsDigit(s[i]) == digits
    ensures n < |s| ==> IsDigit(s[n]) != digits
  {
    if s == [] || IsDigit(s[0]) != digits then 0 else 1 + RunLength(s[1..], digits)
  }

  function Text(s: string): string { s[..RunLength(s, false)] }

  function AfterText(s: string): (rest: string)
    ensures rest != "" ==> IsDigit(rest[0])
  {
    s[RunLength(s, false)..]
  }

  function Digits(s: string): string { s[..RunLength(s, true)] }

  function AfterDigits(s: string): (rest: string)
    ensures s != "" && IsDigit(s[0]) ==> |rest| < |s|
  {
    s[RunLength(s, true)..]
  }

  /** re.split(r"(\d+)", s): the text before each digit run, the run, ..., the text after the last. */
  function Split(s: string): (parts: seq<string>)
    decreases |s|
  {
    var text, rest := Text(s), AfterText(s);
    if rest == "" then [text] else [text, Digits(rest)] + Split(AfterDigits(rest))
  }

  function Join(parts: seq<string>): string {
    if parts == [] then "" else parts[0] + Join(parts[1..])
  }

  /** Text at even positions, non-empty digit runs at odd ones, and text at both ends. */
  predicate Alternates(parts: seq<string>) {
    && |parts| % 2 == 1
    && (forall i, k :: 0 <= i < |parts| && 0 <= k < |parts[i]| ==> IsDigit(parts[i][k]) == (i % 2 == 1))
    && (forall i :: 0 <= i < |parts| && i % 2 == 1 ==> |parts[i]| > 0)
  }

  lemma AlternatesCons(text: string, digits: string, tail: seq<string>)
    requires forall k :: 0 <= k < |text| ==> !IsDigit(text[k])
    requires digits != "" && forall k :: 0 <= k < |digits| ==> IsDigit(digits[k])
    requires Alternates(tail)
    ensures Alternates([text, digits] + tail)
  {
    var parts := [text, digits] + tail;
    assert forall i :: 2 <= i < |parts| ==> parts[i] == tail[i - 2];
  }

  lemma {:induction false} SplitAlternates(s: string)
    ensures Alternates(Split(s))
    decreases |s|
  {
    var text, rest := Text(s), AfterText(s);
    if rest == "" {
      AlternatesOne(text);
    } else {
      var digits, tail := Digits(rest), AfterDigits(rest);
      SplitAlternates(tail);
      hide Alternates;
      AlternatesCons(text, digits, Split(tail));
    }
  }

  lemma AlternatesOne(text: string)
    requires forall k :: 0 <= k < |text| ==> !IsDigit(text[k])
    ensures Alternates([text])
  {
  }

  lemma JoinCons(text: string, digits: string, tail: seq<string>)
    ensures Join([text, digits] + tail) == text + (digits + Join(tail))
  {
    var parts := [text, digits] + tail;
    assert parts[1..] == [digits] + tail && parts[1..][1..] == tail;
  }

  /** Nothing of the version text is lost or reordered by splitting. */
  lemma {:induction false} SplitJoins(s: string)
    ensures Join(Split(s)) == s
    decreases |s|
  {
    var text, rest := Text(s), AfterText(s);
    assert s == text + rest;
    hide Text, AfterText, Join;
    if rest == "" {
      JoinOne(text);
    } else {
      var digits, tail := Digits(rest), AfterDigits(rest);
      assert rest == digits + tail;
      hide Digits, AfterDigits;
      SplitJoins(tail);
      JoinCons(text, digits, Split(tail));
    }
  }

  lemma JoinOne(text: string)
    ensures Join([text]) == text
  {
    assert [text][1..] == [];
  }

  // ---------- Keys and their order ----------

  datatype Part = Str(text: string) | Num(value: nat)

  function DigitValue(c: char): nat
    requires IsDigit(c)
  {
    c as int - '0' as int
  }

  function ToInt(digits: string): nat
    requires forall i :: 0 <= i < |digits| ==> IsDigit(digits[i])
  {
    if digits == [] then 0 else 10 * ToInt(digits[..|digits| - 1]) + DigitValue(digits[|digits| - 1])
  }

  /** The value of a part at an odd position; Split only puts digit runs there. */
  function PartAt(parts: seq<string>, i: nat): Part
    requires i < |parts| && Alternates(parts)
  {
    if i % 2 == 1 then Num(ToInt(parts[i])) else Str(parts[i])
  }

  function KeyOf(version: string): seq<Part> {
    var parts := Split(version);
    SplitAlternates(version);
    seq(|parts|, i requires 0 <= i < |parts| => PartAt(parts, i))
  }

  function VersionKey(m: MlModel): seq<Part> { KeyOf(m.version) }

  /** Python compares these two without raising a TypeError. */
  predicate Comparable(x: Part, y: Part) { x.Str? <==> y.Str? }

  /** Numbers are only ever compared with numbers, and text with text. */
  lemma KeysComparable(a: MlModel, b: MlModel, i: nat)
    requires i < |VersionKey(a)| && i < |VersionKey(b)|
    ensures Comparable(VersionKey(a)[i], VersionKey(b)[i])
    ensures VersionKey(a)[i].Num? <==> i % 2 == 1
  {
  }

  predicate StringLess(s: string, t: string) {
    if t == [] then false
    else if s == [] then true
    else s[0] < t[0] || (s[0] == t[0] && StringLess(s[1..], t[1..]))
  }

  predicate PartLess(x: Part, y: Part)
    requires Comparable(x, y)
  {
    if x.Str? then StringLess(x.text, y.text) else x.value < y.value
  }

  predicate SameShape(a: seq<Part>, b: seq<Part>) {
    forall i :: 0 <= i < |a| && i < |b| ==> Comparable(a[i], b[i])
  }

  /** Python's list order: the first differing parts decide, else the shorter list is smaller. */
  predicate KeyLess(a: seq<Part>, b: seq<Part>)
    requires SameShape(a, b)
  {
    if b == [] then false
    else if a == [] then true
    else if a[0] == b[0] then
      assert forall i :: 0 <= i < |a[1..]| ==> a[1..][i] == a[i + 1];
      assert forall i :: 0 <= i < |b[1..]| ==> b[1..][i] == b[i + 1];
      KeyLess(a[1..], b[1..])
    else PartLess(a[0], b[0])
  }

  lemma {:induction false} StringTrichotomy(s: string, t: string)
    ensures StringLess(s, t) || s == t || StringLess(t, s)
    ensures !(StringLess(s, t) && (s == t || StringLess(t, s)))
  {
    if s != [] && t != [] {
      StringTrichotomy(s[1..], t[1..]);
      assert s == [s[0]] + s[1..] && t == [t[0]] + t[1..];
    }
  }

  lemma {:induction false} StringTransitive(s: string, t: string, u: string)
    requires StringLess(s, t) && StringLess(t, u)
    ensures StringLess(s, u)
  {
    if s != [] && s[0] == t[0] && t[0] == u[0] {
      StringTransitive(s[1..], t[1..], u[1..]);
    }
  }

  lemma {:induction false} KeyTrichotomy(a: seq<Part>, b: seq<Part>)
    requires SameShape(a, b)
    ensures KeyLess(a, b) || a == b || KeyLess(b, a)
    ensures !(KeyLess(a, b) && (a == b || KeyLess(b, a)))
  {
    if a != [] && b != [] {
      if a[0] == b[0] {
        KeyTrichotomy(a[1..], b[1..]);
        assert a == [a[0]] + a[1..] && b == [b[0]] + b[1..];
      } else if a[0].Str? {
        StringTrichotomy(a[0].text, b[0].text);
      }
    }
  }

  lemma {:induction false} KeyTransitive(a: seq<Part>, b: seq<Part>, c: seq<Part>)
    requires SameShape(a, b) && SameShape(b, c) && SameShape(a, c)
    requires KeyLess(a, b) && KeyLess(b, c)
    ensures KeyLess(a, c)
  {
    if a != [] {
      if a[0] == b[0] && b[0] == c[0] {
        KeyTransitive(a[1..], b[1..], c[1..]);
      } else if a[0].Str? && a[0] != b[0] && b[0] != c[0] {
        StringTransitive(a[0].text, b[0].text, c[0].text);
        StringTrichotomy(a[0].text, c[0].text);
      }
    }
  }

  /** a's version is at most b's. */
  predicate VersionLe(a: MlModel, b: MlModel) {
    !KeyLess(VersionKey(b), VersionKey(a))
  }

  /** The order used for sorting is a total preorder, for any version strings. */
  lemma VersionLeTotalPreorder(a: MlModel, b: MlModel, c: MlModel)
    ensures VersionLe(a, a)
    ensures VersionLe(a, b) || VersionLe(b, a)
    ensures VersionLe(a, b) && VersionLe(b, c) ==> VersionLe(a, c)
    ensures VersionLe(a, b) && VersionLe(b, a) <==> VersionKey(a) == VersionKey(b)
  {
    hide KeyLess, PartLess, StringLess;
    KeyTrichotomy(VersionKey(a), VersionKey(a));
    KeyTrichotomy(VersionKey(a), VersionKey(b));
    KeyTrichotomy(VersionKey(b), VersionKey(c));
    if VersionLe(a, b) && VersionLe(b, c) && KeyLess(VersionKey(c), VersionKey(a)) {
      if VersionKey(a) != VersionKey(b) {
        KeyTransitive(VersionKey(c), VersionKey(a), VersionKey(b));
      }
    }
  }

  // ---------- sorted(..., key=_version_key) ----------

  /** Inserts after every model whose version is not greater. */
  function Insert(sorted: seq<MlModel>, m: MlModel): seq<MlModel> {
    if sorted == [] || VersionLe(sorted[|sorted| - 1], m) then
      sorted + [m]
    else
      Insert(sorted[..|sorted| - 1], m) + [sorted[|sorted| - 1]]
  }

  /** Python's stable sort. */
  function Sort(ms: seq<MlModel>): seq<MlModel> {
    if ms == [] then [] else Insert(Sort(ms[..|ms| - 1]), ms[|ms| - 1])
  }

  predicate IsSorted(ms: seq<MlModel>) {
    forall i, j :: 0 <= i < j < |ms| ==> VersionLe(ms[i], ms[j])
  }

  lemma {:induction false} InsertSorts(sorted: seq<MlModel>, m: MlModel)
    requires IsSorted(sorted)
    ensures IsSorted(Insert(sorted, m))
    ensures multiset(Insert(sorted, m)) == multiset(sorted) + multiset{m}
  {
    hide VersionLe;
    if sorted == [] {
    } else {
      var last := |sorted| - 1;
      assert sorted == sorted[..last] + [sorted[last]];
      if VersionLe(sorted[last], m) {
        forall i | 0 <= i < |sorted| ensures VersionLe(sorted[i], m) {
          if i < last { VersionLeTotalPreorder(sorted[i], sorted[last], m); }
        }
      } else {
        VersionLeTotalPreorder(m, sorted[last], m);
        InsertSorts(sorted[..last], m);
        var front := Insert(sorted[..last], m);
        forall x | x in front ensures VersionLe(x, sorted[last]) {
          assert x in multiset(front);
          assert x in sorted[..last] || x == m;
        }
      }
    }
  }

  lemma {:induction false} SortSorts(ms: seq<MlModel>)
    ensures IsSorted(Sort(ms))
    ensures multiset(Sort(ms)) == multiset(ms)
  {
    hide Insert, VersionLe;
    if ms != [] {
      var last := |ms| - 1;
      SortSorts(ms[..last]);
      InsertSorts(Sort(ms[..last]), ms[last]);
      assert ms == ms[..last] + [ms[last]];
    }
  }

  // ---------- Grouping by name and taking the last ----------

  function OfName(ms: seq<MlModel>, name: string): (r: seq<MlModel>)
    ensures forall m :: m in r ==> m.name == name
    ensures forall m :: m in r <==> m in ms && m.name == name
  {
    if ms == [] then []
    else
      var front := OfName(ms[..|ms| - 1], name);
      assert ms == ms[..|ms| - 1] + [ms[|ms| - 1]];
      if ms[|ms| - 1].name == name then front + [ms[|ms| - 1]] else front
  }

  function Names(ms: seq<MlModel>): set<string> {
    set m | m in ms :: m.name
  }

  lemma OfNameAbsent(ms: seq<MlModel>, name: string)
    requires name !in Names(ms)
    ensures OfName(ms, name) == []
  {
    forall m | m in OfName(ms, name) ensures m in ms && m.name in Names(ms) {
    }
  }

  lemma SortKeepsNames(installed: seq<MlModel>, name: string)
    ensures name in Names(installed) <==> OfName(Sort(installed), name) != []
  {
    hide VersionLe;
    SortSorts(installed);
    var sorted := Sort(installed);
    forall m ensures m in sorted <==> m in installed {
      assert m in sorted <==> m in multiset(sorted);
      assert m in installed <==> m in multiset(installed);
    }
    var versions := OfName(sorted, name);
    if name in Names(installed) {
      var m :| m in installed && m.name == name;
      assert m in versions;
    } else {
      OfNameAbsent(sorted, name);
    }
  }

  /** The last of the sorted versions of a name. */
  function Served(installed: seq<MlModel>, name: string): MlModel
    requires name in Names(installed)
  {
    SortKeepsNames(installed, name);
    var versions := OfName(Sort(installed), name);
    versions[|versions| - 1]
  }

  /** What _latest_versions computes for the models of a listing, in listing order. */
  function LatestVersions(installed: seq<MlModel>): map<string, MlModel> {
    map name | name in Names(installed) :: Served(installed, name)
  }

  /** Position of the model to serve: no version of the name is greater, and no later one is equal. */
  predicate ServesAt(installed: seq<MlModel>, name: string, i: nat) {
    && i < |installed|
    && installed[i].name == name
    && (forall j :: 0 <= j < |installed| && installed[j].name == name ==> VersionLe(installed[j], installed[i]))
    && (forall j :: i < j < |installed| && installed[j].name == name ==> !VersionLe(installed[i], installed[j]))
  }

  lemma {:induction false} OfNameKeepsSorted(ms: seq<MlModel>, name: string)
    requires IsSorted(ms)
    ensures IsSorted(OfName(ms, name))
  {
    if ms != [] {
      var last := |ms| - 1;
      OfNameKeepsSorted(ms[..last], name);
      var front := OfName(ms[..last], name);
      forall x | x in front ensures VersionLe(x, ms[last]) {
        assert x in ms[..last];
      }
    }
  }

  lemma OfNameBelow(sorted: seq<MlModel>, m: MlModel, name: string)
    requires IsSorted(sorted) && sorted != [] && VersionLe(sorted[|sorted| - 1], m)
    ensures forall x :: x in OfName(sorted, name) ==> VersionLe(x, m)
  {
    hide VersionLe, OfName;
    forall x | x in OfName(sorted, name) ensures VersionLe(x, m) {
      var i :| 0 <= i < |sorted| && sorted[i] == x;
      VersionLeTotalPreorder(x, sorted[|sorted| - 1], m);
      assert i < |sorted| - 1 ==> VersionLe(sorted[i], sorted[|sorted| - 1]);
    }
  }

  /** A model appended to the sorted ones of its name is where Insert puts it. */
  lemma OfNameAppend(sorted: seq<MlModel>, m: MlModel, name: string)
    requires IsSorted(sorted) && sorted != [] && VersionLe(sorted[|sorted| - 1], m)
    ensures OfName(sorted + [m], name) == if m.name == name then Insert(OfName(sorted, name), m) else OfName(sorted, name)
  {
    OfNameBelow(sorted, m, name);
    hide VersionLe, OfName, IsSorted;
    OfNameStep(sorted, m, name);
    var f := OfName(sorted, name);
    assert f != [] ==> f[|f| - 1] in f;
  }

  lemma InsertBefore(front: seq<MlModel>, last: MlModel, m: MlModel)
    requires !VersionLe(last, m)
    ensures Insert(front + [last], m) == Insert(front, m) + [last]
  {
    hide VersionLe;
    assert (front + [last])[..|front|] == front;
  }

  lemma {:induction false} OfNameInsert(sorted: seq<MlModel>, m: MlModel, name: string)
    requires IsSorted(sorted)
    ensures OfName(Insert(sorted, m), name) == if m.name == name then Insert(OfName(sorted, name), m) else OfName(sorted, name)
    decreases |sorted|
  {
    hide VersionLe, OfName, Insert, IsSorted;
    if sorted == [] {
      OfNameStep([], m, name);
      OfNameNone(name);
      InsertNone(m);
    } else if VersionLe(sorted[|sorted| - 1], m) {
      InsertLast(sorted, m);
      OfNameAppend(sorted, m, name);
    } else {
      var front, last := sorted[..|sorted| - 1], sorted[|sorted| - 1];
      assert sorted == front + [last];
      SortedFront(sorted);
      OfNameInsert(front, m, name);
      InsertBefore(front, last, m);
      OfNameStep(Insert(front, m), last, name);
      OfNameStep(front, last, name);
      InsertBefore(OfName(front, name), last, m);
    }
  }

  lemma InsertNone(m: MlModel)
    ensures Insert([], m) == [] + [m]
  {
  }

  lemma InsertLast(sorted: seq<MlModel>, m: MlModel)
    requires sorted != [] && VersionLe(sorted[|sorted| - 1], m)
    ensures Insert(sorted, m) == sorted + [m]
  {
  }

  lemma SortedFront(sorted: seq<MlModel>)
    requires sorted != [] && IsSorted(sorted)
    ensures IsSorted(sorted[..|sorted| - 1])
  {
    hide VersionLe;
  }

  lemma OfNameNone(name: string)
    ensures OfName([], name) == []
  {
  }

  lemma LastOfInsert(f: seq<MlModel>, m: MlModel)
    ensures Insert(f, m) != []
    ensures var r := Insert(f, m);
            r[|r| - 1] == if f == [] || VersionLe(f[|f| - 1], m) then m else f[|f| - 1]
  {
  }

  /** One more listed model: it takes over if its version is at least the served one's. */
  lemma ServesAtExtended(front: seq<MlModel>, m: MlModel, k: nat)
    requires ServesAt(front, m.name, k)
    ensures ServesAt(front + [m], m.name, if VersionLe(front[k], m) then |front| else k)
  {
    hide VersionLe;
    var all := front + [m];
    VersionLeTotalPreorder(m, front[k], m);
    forall j | 0 <= j < |front| && front[j].name == m.name && VersionLe(front[k], m)
      ensures VersionLe(front[j], m)
    {
      VersionLeTotalPreorder(front[j], front[k], m);
    }
    assert forall j :: 0 <= j < |front| ==> all[j] == front[j];
  }

  lemma {:induction false} LatestServes(installed: seq<MlModel>, name: string) returns (i: nat)
    requires name in Names(installed)
    ensures ServesAt(installed, name, i) && installed[i] == Served(installed, name)
    decreases |installed|
  {
    hide VersionLe, Insert, OfName, Sort;
    var last := |installed| - 1;
    var front, m := installed[..last], installed[last];
    assert installed == front + [m];
    var before, after := OfName(Sort(front), name), OfName(Sort(installed), name);
    SortSorts(front);
    OfNameInsert(Sort(front), m, name);
    SortStep(installed);
    SortKeepsNames(front, name);
    SortKeepsNames(installed, name);
    LastOfInsert(before, m);
    if name in Names(front) {
      i := LatestServes(front, name);
      if m.name == name {
        ServesAtExtended(front, m, i);
        i := if VersionLe(front[i], m) then last else i;
      }
    } else {
      NameIsNew(front, m, name);
      i := last;
      VersionLeTotalPreorder(m, m, m);
    }
  }

  lemma SortStep(ms: seq<MlModel>)
    requires ms != []
    ensures Sort(ms) == Insert(Sort(ms[..|ms| - 1]), ms[|ms| - 1])
  {
    hide Insert;
  }

  lemma NameIsNew(front: seq<MlModel>, m: MlModel, name: string)
    requires name in Names(front + [m]) && name !in Names(front)
    ensures m.name == name
    ensures forall j :: 0 <= j < |front| ==> front[j].name != name
  {
    assert forall j :: 0 <= j < |front| ==> front[j] in front;
  }

  lemma ServesAtUnique(installed: seq<MlModel>, name: string, i: nat, j: nat)
    requires ServesAt(installed, name, i) && ServesAt(installed, name, j)
    ensures i == j
  {
    hide VersionLe;
    if i < j { assert false; }
    if j < i { assert false; }
  }

  lemma LatestKeyedByName(installed: seq<MlModel>)
    ensures LatestVersions(installed).Keys == Names(installed)
    ensures KeyedByName(LatestVersions(installed))
  {
    hide VersionLe, Served;
    forall n | n in Names(installed) ensures Served(installed, n).name == n {
      var i := LatestServes(installed, n);
    }
  }

  /** A model is served exactly if no version of its name is greater and no equal one is listed later. */
  lemma LatestIsLastMaximal(installed: seq<MlModel>, name: string, m: MlModel)
    ensures (name in LatestVersions(installed) && LatestVersions(installed)[name] == m)
            <==> exists i: nat :: ServesAt(installed, name, i) && installed[i] == m
  {
    hide VersionLe, Served;
    if name in Names(installed) {
      var i := LatestServes(installed, name);
      forall j: nat | ServesAt(installed, name, j) ensures j == i {
        ServesAtUnique(installed, name, i, j);
      }
    } else {
      forall j: nat | j < |installed| ensures installed[j].name != name {
        assert installed[j] in installed;
      }
    }
  }

  /** No listed version of its name is greater than this one. */
  predicate Maximal(installed: seq<MlModel>, m: MlModel) {
    m in installed && forall o :: o in installed && o.name == m.name ==> VersionLe(o, m)
  }

  /** The greatest version key of each name belongs to one model only. */
  ghost predicate OneLatestPerName(installed: seq<MlModel>) {
    forall a, b :: Maximal(installed, a) && Maximal(installed, b) && a.name == b.name ==> a == b
  }

  ghost predicate OrderIrrelevant(installed: seq<MlModel>) {
    forall other: seq<MlModel> :: multiset(other) == multiset(installed) ==>
      LatestVersions(other) == LatestVersions(installed)
  }

  lemma SameMembers(listing: seq<MlModel>, other: seq<MlModel>)
    requires multiset(listing) == multiset(other)
    ensures forall m :: m in listing <==> m in other
    ensures Names(listing) == Names(other)
  {
    forall m ensures m in listing <==> m in other {
      assert m in listing <==> m in multiset(listing);
      assert m in other <==> m in multiset(other);
    }
  }

  lemma ServedIsMaximal(installed: seq<MlModel>, name: string)
    requires name in Names(installed)
    ensures Maximal(installed, Served(installed, name)) && Served(installed, name).name == name
  {
    hide VersionLe, Served;
    var i := LatestServes(installed, name);
  }

  /** Whatever is listed last is served if it is maximal. */
  lemma MaximalLastIsServed(front: seq<MlModel>, m: MlModel)
    requires Maximal(front + [m], m)
    ensures m.name in Names(front + [m]) && Served(front + [m], m.name) == m
  {
    hide VersionLe, Served;
    var all := front + [m];
    assert m in all;
    assert forall j :: 0 <= j < |all| ==> all[j] in all;
    assert ServesAt(all, m.name, |front|);
    var i := LatestServes(all, m.name);
    ServesAtUnique(all, m.name, i, |front|);
  }

  lemma MoveToEnd(installed: seq<MlModel>, m: MlModel) returns (front: seq<MlModel>)
    requires m in installed
    ensures multiset(front + [m]) == multiset(installed)
  {
    var i :| 0 <= i < |installed| && installed[i] == m;
    front := installed[..i] + installed[i + 1..];
    assert installed == installed[..i] + [m] + installed[i + 1..];
  }

  lemma MaximalCanBeServed(installed: seq<MlModel>, m: MlModel)
    requires Maximal(installed, m) && OrderIrrelevant(installed)
    ensures m.name in Names(installed) && Served(installed, m.name) == m
  {
    hide VersionLe, Served;
    var front := MoveToEnd(installed, m);
    SameMembers(installed, front + [m]);
    MaximalLastIsServed(front, m);
    assert LatestVersions(front + [m])[m.name] == m;
  }

  /** The served versions are independent of the listing order exactly if no name has two latest models. */
  lemma ListingOrderIrrelevantIff(installed: seq<MlModel>)
    ensures OrderIrrelevant(installed) <==> OneLatestPerName(installed)
  {
    hide VersionLe, Served, Maximal;
    if OrderIrrelevant(installed) {
      forall a, b | Maximal(installed, a) && Maximal(installed, b) && a.name == b.name ensures a == b {
        MaximalCanBeServed(installed, a);
        MaximalCanBeServed(installed, b);
      }
    }
    if OneLatestPerName(installed) {
      forall other: seq<MlModel> | multiset(other) == multiset(installed)
        ensures LatestVersions(other) == LatestVersions(installed)
      {
        SameMembers(installed, other);
        forall name | name in Names(installed) ensures Served(other, name) == Served(installed, name) {
          ServedIsMaximal(installed, name);
          ServedIsMaximal(other, name);
          SameMaximal(installed, other, Served(other, name));
        }
      }
    }
  }

  lemma SameMaximal(installed: seq<MlModel>, other: seq<MlModel>, m: MlModel)
    requires forall x :: x in installed <==> x in other
    ensures Maximal(installed, m) <==> Maximal(other, m)
  {
    hide VersionLe;
  }

  lemma OneRun(s: string)
    requires s == "1" || s == "01"
    ensures Split(s) == ["", s, ""]
  {
    assert RunLength(s, false) == 0;
    assert s[0..] == s;
    assert RunLength(s, true) == |s| by { assert s[|s| - 1..] == "1"; assert RunLength("1", true) == 1; }
    assert s[..0] == "" && s[0..|s|] == s && s[|s|..] == "";
    assert Split("") == [""];
  }

  lemma OneAsInt(s: string)
    requires s == "1" || s == "01"
    ensures ToInt(s) == 1
  {
    assert "1"[..0] == "" && "01"[..1] == "0" && "0"[..0] == "";
    assert ToInt("0") == 0;
  }

  lemma KeyOfOne(m: MlModel)
    requires m.version == "1" || m.version == "01"
    ensures VersionKey(m) == [Str(""), Num(1), Str("")]
  {
    OneRun(m.version);
    OneAsInt(m.version);
  }

  /** Equal keys from different version texts: then the listing order decides. */
  lemma TieGoesToTheLaterListing(a: MlModel, b: MlModel)
    requires a.name == b.name
    requires (a.version == "1" && b.version == "01") || (a.version == "01" && b.version == "1")
    ensures LatestVersions([a, b]) == map[a.name := b]
  {
    KeyOfOne(a);
    KeyOfOne(b);
    hide VersionKey, Served;
    VersionLeTotalPreorder(a, b, a);
    VersionLeTotalPreorder(b, b, b);
    hide VersionLe;
    var ms := [a, b];
    assert ServesAt(ms, a.name, 1);
    LatestIsLastMaximal(ms, a.name, b);
    assert a in ms;
    assert Names(ms) == {a.name};
  }

  lemma OfNameStep(ms: seq<MlModel>, m: MlModel, name: string)
    ensures OfName(ms + [m], name) == if m.name == name then OfName(ms, name) + [m] else OfName(ms, name)
    ensures Names(ms + [m]) == Names(ms) + {m.name}
  {
    assert (ms + [m])[..|ms|] == ms;
    assert m in ms + [m];
  }

  /** The groups built from a prefix of the sorted models. */
  ghost predicate Grouped(groups: map<string, seq<MlModel>>, prefix: seq<MlModel>) {
    && groups.Keys == Names(prefix)
    && forall n :: n in groups ==> groups[n] == OfName(prefix, n)
  }

  lemma GroupedStep(groups: map<string, seq<MlModel>>, prefix: seq<MlModel>, m: MlModel)
    requires Grouped(groups, prefix)
    ensures Grouped(groups[m.name := (if m.name in groups then groups[m.name] else []) + [m]], prefix + [m])
  {
    hide Names, OfName;
    OfNameStep(prefix, m, m.name);
    if m.name !in groups { OfNameAbsent(prefix, m.name); }
    forall n | n in groups ensures OfName(prefix + [m], n) == if m.name == n then OfName(prefix, n) + [m] else OfName(prefix, n) {
      OfNameStep(prefix, m, n);
    }
  }

  /** _latest_versions as the source runs it: sort, append to the group of the name, take the last. */
  method ComputeLatestVersions(installed: seq<MlModel>) returns (latest: map<string, MlModel>)
    ensures latest == LatestVersions(installed)
  {
    hide *;
    var sorted := Sort(installed);
    var versionsByName: map<string, seq<MlModel>> := map[];
    GroupedNothing();
    assert sorted[..0] == [];
    for i := 0 to |sorted|
      invariant Grouped(versionsByName, sorted[..i])
    {
      var model := sorted[i];
      var group := if model.name in versionsByName then versionsByName[model.name] else [];
      GroupedStep(versionsByName, sorted[..i], model);
      assert sorted[..i + 1] == sorted[..i] + [model];
      versionsByName := versionsByName[model.name := group + [model]];
    }
    assert sorted[..|sorted|] == sorted;
    GroupsAreLatest(versionsByName, installed);
    latest := map name | name in versionsByName :: versionsByName[name][|versionsByName[name]| - 1];
    LatestFromServed(installed, latest);
  }

  lemma GroupedNothing()
    ensures Grouped(map[], [])
  {
  }

  lemma LatestFromServed(installed: seq<MlModel>, latest: map<string, MlModel>)
    requires latest.Keys == Names(installed)
    requires forall n :: n in latest ==> latest[n] == Served(installed, n)
    ensures latest == LatestVersions(installed)
  {
  }

  lemma GroupsAreLatest(groups: map<string, seq<MlModel>>, installed: seq<MlModel>)
    requires Grouped(groups, Sort(installed))
    ensures groups.Keys == Names(installed)
    ensures forall n :: n in groups ==> groups[n] != [] && groups[n][|groups[n]| - 1] == Served(installed, n)
  {
    hide VersionLe, Insert, Sort;
    forall n ensures n in groups <==> n in Names(installed) {
      SortKeepsNames(installed, n);
      if n !in groups {
        OfNameAbsent(Sort(installed), n);
      } else {
        var m :| m in Sort(installed) && m.name == n;
        assert m in OfName(Sort(installed), n);
      }
    }
    forall n | n in groups ensures groups[n] != [] {
      SortKeepsNames(installed, n);
    }
  }
}
