/**
 The server's post-processing of per-feature attributions (SHAP values)
 for one prediction: clean the transformer prefixes off the feature
 names, collapse repeated names as a Python `dict` does, round, sort by
 descending magnitude, keep the first ten.

 Amounts are integer hundredths after rounding; the rounding itself
 (`round(float(v), 2)`) is a parameter.
 */
module Attribution {
  import opened Json
  import opened Features

  /** One row of the summary the server returns: `{"feature", "shap_value"}`. */
  datatype ShapEntry = ShapEntry(feature: string, value: int)

  /** Python's `round(float(v), 2)`, as integer hundredths. */
  type Rounding = real -> int

  /** The prefixes the preprocessor puts on its output column names. */
  const Prefixes: seq<string> := ["num__", "cat__", "geo__"]

  predicate HasKnownPrefix(name: string) {
    |name| >= 5 && name[..5] in Prefixes
  }

  /** `re.sub(r'^(num__|cat__|geo__)', '', name)`: removes one known
      prefix at the start of the name, and nothing else. */
  function CleanPrefix(name: string): (r: string)
    ensures HasKnownPrefix(name) ==> r == name[5..]
    ensures !HasKnownPrefix(name) ==> r == name
    ensures r == name || exists p :: p in Prefixes && name == p + r
    ensures r == name <==> forall p :: p in Prefixes ==> !(p <= name)
  {
    if HasKnownPrefix(name) then
      assert name == name[..5] + name[5..];
      name[5..]
    else
      assert forall p :: p in Prefixes ==> !(p <= name) by {
        forall p | p in Prefixes ensures !(p <= name) {
          KnownPrefixStarts(p, name);
        }
      }
      name
  }

  /** A name starting with a known prefix has it in its first five characters. */
  lemma KnownPrefixStarts(p: string, name: string)
    requires p in Prefixes
    ensures p <= name ==> HasKnownPrefix(name)
  {
    assert |p| == 5;
    if p <= name {
      assert name[..5] == p;
    }
  }

  /** Exactly one known prefix is removed, whatever follows it: a second
      prefix behind the first stays. */
  lemma CleanPrefixOnce(p: string, x: string)
    requires p in Prefixes
    ensures CleanPrefix(p + x) == x
  {
    assert (p + x)[..5] == p;
    assert (p + x)[5..] == x;
  }

  /** The strip is not repeated: a second prefix behind the first stays. */
  lemma CleanPrefixExamples()
    ensures CleanPrefix("num__sqft") == "sqft"
    ensures CleanPrefix("num__cat__x") == "cat__x"
    ensures CleanPrefix("sqft") == "sqft"
    ensures CleanPrefix("onehot__zip") == "onehot__zip"
  {
    assert "num__sqft"[..5] == "num__";
    assert "num__cat__x"[..5] == "num__";
    assert "onehot__zip"[..5] == "oneho";
  }

  /** Name/value pairs, and a Python `dict` in insertion order. */
  type Pairs = seq<(string, real)>

  function KeySet(ps: Pairs): set<string> {
    set i | 0 <= i < |ps| :: ps[i].0
  }

  predicate DistinctKeys(ps: Pairs) {
    forall i, j :: 0 <= i < j < |ps| ==> ps[i].0 != ps[j].0
  }

  /** The position of the first pair with key `k`. */
  function FirstIndex(ps: Pairs, k: string): (r: nat)
    requires k in KeySet(ps)
    ensures r < |ps| && ps[r].0 == k
    ensures forall j :: 0 <= j < r ==> ps[j].0 != k
  {
    if ps[0].0 == k then 0
    else
      assert k in KeySet(ps[1..]) by {
        var i :| 0 <= i < |ps| && ps[i].0 == k;
        assert ps[1..][i - 1].0 == k;
      }
      1 + FirstIndex(ps[1..], k)
  }

  /** The value of the last pair with key `k`. */
  function LastValue(ps: Pairs, k: string): real
    requires k in KeySet(ps)
  {
    var n := |ps| - 1;
    if ps[n].0 == k then ps[n].1
    else
      assert k in KeySet(ps[..n]) by {
        var i :| 0 <= i < |ps| && ps[i].0 == k;
        assert ps[..n][i].0 == k;
      }
      LastValue(ps[..n], k)
  }

  /** The position of key `k` in a dict, if it is there. */
  function IndexOfKey(d: Pairs, k: string): (r: Option<nat>)
    ensures r.Some? ==> r.value < |d| && d[r.value].0 == k
    ensures r.None? ==> k !in KeySet(d)
  {
    if |d| == 0 then None
    else if d[|d| - 1].0 == k then Some(|d| - 1)
    else
      IndexOfKey(d[..|d| - 1], k)
  }

  /** `d[k] = v`: a present key keeps its position and takes the new
      value; a new key goes at the end. */
  function Put(d: Pairs, k: string, v: real): (r: Pairs)
    requires DistinctKeys(d)
    ensures DistinctKeys(r)
    ensures KeySet(r) == KeySet(d) + {k}
    ensures k in KeySet(d) ==> |r| == |d| && forall i :: 0 <= i < |d| ==> r[i] == if d[i].0 == k then (k, v) else d[i]
    ensures k !in KeySet(d) ==> r == d + [(k, v)]
  {
    match IndexOfKey(d, k)
    case Some(i) =>
      var r := d[i := (k, v)];
      assert KeySet(r) == KeySet(d) by {
        forall x | x in KeySet(d) ensures x in KeySet(r) {
          var j :| 0 <= j < |d| && d[j].0 == x;
          assert r[j].0 == x;
        }
      }
      r
    case None =>
      var r := d + [(k, v)];
      assert KeySet(r) == KeySet(d) + {k} by {
        assert r[|d|].0 == k;
        forall x | x in KeySet(d) ensures x in KeySet(r) {
          var j :| 0 <= j < |d| && d[j].0 == x;
          assert r[j].0 == x;
        }
      }
      r
  }

  /** The keys of a list are those of all but its last pair, plus the last key. */
  lemma KeySetSnoc(ps: Pairs)
    requires |ps| > 0
    ensures KeySet(ps) == KeySet(ps[..|ps| - 1]) + {ps[|ps| - 1].0}
  {
    var n := |ps| - 1;
    forall x | x in KeySet(ps) ensures x in KeySet(ps[..n]) + {ps[n].0} {
      var j :| 0 <= j < |ps| && ps[j].0 == x;
      if j < n { assert ps[..n][j].0 == x; }
    }
  }

  /** `dict(pairs)`: inserts the pairs in order. */
  function DictOf(ps: Pairs): (d: Pairs)
    ensures DistinctKeys(d)
    ensures KeySet(d) == KeySet(ps)
  {
    if |ps| == 0 then []
    else
      var n := |ps| - 1;
      KeySetSnoc(ps);
      Put(DictOf(ps[..n]), ps[n].0, ps[n].1)
  }

  /** Every key of the pairs without their last pair is still a key
      with the same first position, and, unless the last pair has it, the
      same last value. */
  lemma PrefixKeys(ps: Pairs, x: string)
    requires |ps| > 0 && x in KeySet(ps[..|ps| - 1])
    ensures x in KeySet(ps)
    ensures FirstIndex(ps, x) == FirstIndex(ps[..|ps| - 1], x) < |ps| - 1
    ensures x != ps[|ps| - 1].0 ==> LastValue(ps, x) == LastValue(ps[..|ps| - 1], x)
  {
    var q := ps[..|ps| - 1];
    var j := FirstIndex(q, x);
    assert ps[j].0 == x;
  }

  /** A key first seen in the last pair is first found there. */
  lemma FirstIndexOfNewKey(ps: Pairs)
    requires |ps| > 0 && ps[|ps| - 1].0 !in KeySet(ps[..|ps| - 1])
    ensures ps[|ps| - 1].0 in KeySet(ps)
    ensures FirstIndex(ps, ps[|ps| - 1].0) == |ps| - 1
  {
    var n := |ps| - 1;
    var q := ps[..n];
    var k := ps[n].0;
    assert k in KeySet(ps);
    forall j | 0 <= j < n ensures ps[j].0 != k {
      assert q[j].0 in KeySet(q);
    }
  }

  /** Each entry of `d` is a key of `ps` with the value of its last pair there. */
  predicate ValuesAreLast(d: Pairs, ps: Pairs) {
    forall i :: 0 <= i < |d| ==> d[i].0 in KeySet(ps) && d[i].1 == LastValue(ps, d[i].0)
  }

  /** The keys of `d` come in the order of their first pair in `ps`. */
  predicate OrderIsFirstSeen(d: Pairs, ps: Pairs) {
    && (forall i :: 0 <= i < |d| ==> d[i].0 in KeySet(ps))
    && (forall i, j :: 0 <= i < j < |d| ==> FirstIndex(ps, d[i].0) < FirstIndex(ps, d[j].0))
  }

  /** In a Python dict built from pairs, a repeated key holds the value of
      its last pair. */
  lemma {:induction false} DictValuesAreLast(ps: Pairs)
    ensures ValuesAreLast(DictOf(ps), ps)
  {
    if |ps| > 0 {
      var n := |ps| - 1;
      var q := ps[..n];
      var k, v := ps[n].0, ps[n].1;
      DictValuesAreLast(q);
      var dq := DictOf(q);
      var d := DictOf(ps);
      assert d == Put(dq, k, v);
      assert k in KeySet(ps) && LastValue(ps, k) == v by { assert ps[n].0 == k; }
      forall i | 0 <= i < |d| ensures d[i].0 in KeySet(ps) && d[i].1 == LastValue(ps, d[i].0) {
        if i < |dq| {
          var x := dq[i].0;
          assert x in KeySet(q) && dq[i].1 == LastValue(q, x) by {
            assert DictOf(q)[i].0 in KeySet(q);
          }
          PrefixKeys(ps, x);
          if x == k {
            assert d[i] == (k, v);
          } else {
            assert d[i] == dq[i];
          }
        } else {
          assert d[i] == (k, v);
        }
      }
    }
  }

  /** A Python dict built from pairs lists its keys in the order of their
      first occurrence. */
  lemma {:induction false} DictOrderIsFirstSeen(ps: Pairs)
    ensures OrderIsFirstSeen(DictOf(ps), ps)
  {
    if |ps| > 0 {
      var n := |ps| - 1;
      var q := ps[..n];
      var k, v := ps[n].0, ps[n].1;
      DictOrderIsFirstSeen(q);
      var dq := DictOf(q);
      var d := DictOf(ps);
      assert d == Put(dq, k, v);
      if k in KeySet(q) {
        OrderAfterUpdate(ps, dq, d);
      } else {
        OrderAfterAppend(ps, dq, d);
      }
    }
  }

  lemma OrderAfterUpdate(ps: Pairs, dq: Pairs, d: Pairs)
    requires |ps| > 0 && OrderIsFirstSeen(dq, ps[..|ps| - 1])
    requires |d| == |dq| && forall i :: 0 <= i < |d| ==> d[i].0 == dq[i].0
    ensures OrderIsFirstSeen(d, ps)
  {
    var q := ps[..|ps| - 1];
    forall i | 0 <= i < |d| ensures d[i].0 in KeySet(ps) && FirstIndex(ps, d[i].0) == FirstIndex(q, dq[i].0) {
      PrefixKeys(ps, dq[i].0);
    }
  }

  lemma OrderAfterAppend(ps: Pairs, dq: Pairs, d: Pairs)
    requires |ps| > 0 && OrderIsFirstSeen(dq, ps[..|ps| - 1])
    requires ps[|ps| - 1].0 !in KeySet(ps[..|ps| - 1])
    requires d == dq + [ps[|ps| - 1]]
    ensures OrderIsFirstSeen(d, ps)
  {
    var n := |ps| - 1;
    var q := ps[..n];
    FirstIndexOfNewKey(ps);
    forall i | 0 <= i < |dq|
      ensures d[i].0 in KeySet(ps) && FirstIndex(ps, d[i].0) == FirstIndex(q, dq[i].0) < n
    {
      PrefixKeys(ps, dq[i].0);
    }
  }

  /** Python's `zip`: pairs up to the shorter of the two lists. */
  function Zip(names: seq<string>, values: seq<real>): (r: Pairs)
    ensures |r| == if |names| < |values| then |names| else |values|
    ensures forall i :: 0 <= i < |r| ==> r[i] == (names[i], values[i])
  {
    var n := if |names| < |values| then |names| else |values|;
    seq(n, i requires 0 <= i < n => (names[i], values[i]))
  }

  function Abs(x: int): nat {
    if x < 0 then -x else x
  }

  /** The sort key: the magnitude of the rounded value. */
  function Magnitude(e: ShapEntry): nat {
    Abs(e.value)
  }

  /** Non-increasing magnitude. */
  predicate SortedByMagnitude(s: seq<ShapEntry>) {
    forall i, j :: 0 <= i < j < |s| ==> Magnitude(s[i]) >= Magnitude(s[j])
  }

  /** Places `x` in front of the first entry whose magnitude is not
      larger than its own. */
  function Insert(x: ShapEntry, t: seq<ShapEntry>): (r: seq<ShapEntry>)
    ensures multiset(r) == multiset(t) + multiset{x}
    ensures |r| == |t| + 1 && (r[0] == x || (|t| > 0 && r[0] == t[0]))
    ensures SortedByMagnitude(t) ==> SortedByMagnitude(r)
  {
    if |t| == 0 then [x]
    else if Magnitude(t[0]) > Magnitude(x) then
      var rest := Insert(x, t[1..]);
      InsertBehind(x, t, rest);
      [t[0]] + rest
    else
      SortedCons(x, t);
      [x] + t
  }

  /** Putting an entry at least as large as the first in front of a
      sorted list keeps it sorted. */
  lemma SortedCons(a: ShapEntry, s: seq<ShapEntry>)
    requires |s| > 0 ==> Magnitude(a) >= Magnitude(s[0])
    ensures SortedByMagnitude(s) ==> SortedByMagnitude([a] + s)
  {
    var r := [a] + s;
    if SortedByMagnitude(s) {
      forall i, j | 0 <= i < j < |r| ensures Magnitude(r[i]) >= Magnitude(r[j]) {
        if i == 0 && j > 1 {
          assert Magnitude(s[0]) >= Magnitude(s[j - 1]);
        }
      }
    }
  }

  /** The step of `Insert` that keeps the first entry in front. */
  lemma InsertBehind(x: ShapEntry, t: seq<ShapEntry>, rest: seq<ShapEntry>)
    requires |t| > 0 && Magnitude(t[0]) > Magnitude(x)
    requires multiset(rest) == multiset(t[1..]) + multiset{x}
    requires |rest| == |t| && (rest[0] == x || (|t| > 1 && rest[0] == t[1]))
    requires SortedByMagnitude(t[1..]) ==> SortedByMagnitude(rest)
    ensures multiset([t[0]] + rest) == multiset(t) + multiset{x}
    ensures SortedByMagnitude(t) ==> SortedByMagnitude([t[0]] + rest)
  {
    assert t == [t[0]] + t[1..];
    if SortedByMagnitude(t) {
      assert SortedByMagnitude(t[1..]) by {
        forall i, j | 0 <= i < j < |t| - 1 ensures Magnitude(t[1..][i]) >= Magnitude(t[1..][j]) {
          assert t[1..][i] == t[i + 1] && t[1..][j] == t[j + 1];
        }
      }
      assert |t| > 1 ==> Magnitude(t[0]) >= Magnitude(t[1]);
      SortedCons(t[0], rest);
    }
  }

  /** `sorted(items, key=lambda item: abs(item[1]), reverse=True)`: a
      permutation of the items in non-increasing magnitude. */
  function SortByMagnitude(s: seq<ShapEntry>): (r: seq<ShapEntry>)
    ensures multiset(r) == multiset(s)
    ensures SortedByMagnitude(r)
  {
    if |s| == 0 then []
    else
      assert s == [s[0]] + s[1..];
      Insert(s[0], SortByMagnitude(s[1..]))
  }

  /** The entries of `s` whose magnitude is `m`, in order. */
  function WithMagnitude(s: seq<ShapEntry>, m: nat): seq<ShapEntry> {
    if |s| == 0 then []
    else (if Magnitude(s[0]) == m then [s[0]] else []) + WithMagnitude(s[1..], m)
  }

  lemma WithMagnitudeCons(a: ShapEntry, s: seq<ShapEntry>, m: nat)
    ensures WithMagnitude([a] + s, m) == (if Magnitude(a) == m then [a] else []) + WithMagnitude(s, m)
  {
    assert ([a] + s)[1..] == s;
  }

  lemma {:induction false} InsertKeepsTies(x: ShapEntry, t: seq<ShapEntry>, m: nat)
    ensures WithMagnitude(Insert(x, t), m) == (if Magnitude(x) == m then [x] else []) + WithMagnitude(t, m)
    decreases |t|
  {
    if |t| == 0 {
      assert Insert(x, t) == [x] + [];
      WithMagnitudeCons(x, [], m);
    } else if Magnitude(t[0]) > Magnitude(x) {
      var rest := Insert(x, t[1..]);
      assert Insert(x, t) == [t[0]] + rest;
      InsertKeepsTies(x, t[1..], m);
      WithMagnitudeCons(t[0], rest, m);
      WithMagnitudeCons(t[0], t[1..], m);
      assert t == [t[0]] + t[1..];
      var tail := WithMagnitude(t[1..], m);
      if Magnitude(x) == m {
        assert WithMagnitude(rest, m) == [x] + tail;
        assert WithMagnitude(t, m) == tail;
      } else {
        assert WithMagnitude(rest, m) == tail;
      }
    } else {
      assert Insert(x, t) == [x] + t;
      WithMagnitudeCons(x, t, m);
    }
  }

  /** The sort is stable: entries of equal magnitude keep their relative
      order (Python's `sorted` stays stable with `reverse=True`). */
  lemma {:induction false} SortIsStable(s: seq<ShapEntry>, m: nat)
    ensures WithMagnitude(SortByMagnitude(s), m) == WithMagnitude(s, m)
    decreases |s|
  {
    if |s| > 0 {
      SortIsStable(s[1..], m);
      InsertKeepsTies(s[0], SortByMagnitude(s[1..]), m);
    }
  }

  /** The rounded dict items, in dict order. */
  function RoundAll(d: Pairs, round: Rounding): (r: seq<ShapEntry>)
    ensures |r| == |d|
    ensures forall i :: 0 <= i < |d| ==> r[i] == ShapEntry(d[i].0, round(d[i].1))
  {
    seq(|d|, i requires 0 <= i < |d| => ShapEntry(d[i].0, round(d[i].1)))
  }

  /** The number of entries the server returns at most. */
  const TopCount: nat := 10

  /** The cleaned name/value pairs the dict is built from. */
  function CleanedPairs(names: seq<string>, values: seq<real>): (ps: Pairs)
    ensures |ps| == if |names| < |values| then |names| else |values|
    ensures forall i :: 0 <= i < |ps| ==> ps[i] == (CleanPrefix(names[i]), values[i])
  {
    var z := Zip(names, values);
    seq(|z|, i requires 0 <= i < |z| => (CleanPrefix(z[i].0), z[i].1))
  }

  /** The rounded dict items sorted by magnitude, before truncation. */
  function RankedItems(names: seq<string>, values: seq<real>, round: Rounding): seq<ShapEntry> {
    SortByMagnitude(RoundAll(DictOf(CleanedPairs(names, values)), round))
  }

  /** `get_shap_values_for_prediction` after the explainer has run: one
      entry per distinct cleaned name, up to ten, each with the rounded
      value of the name's last occurrence, in non-increasing magnitude,
      and no name left out that is larger in magnitude than a kept one.
      Ties are settled by the dict's order: names of equal magnitude
      come in the order they were first seen, and a name left out ties
      only with kept names seen before it. */
  function ShapSummary(names: seq<string>, values: seq<real>, round: Rounding): (r: seq<ShapEntry>)
    ensures var ps := CleanedPairs(names, values);
            && |r| == (if |KeySet(ps)| < TopCount then |KeySet(ps)| else TopCount)
            && DistinctFeatures(r)
            && SortedByMagnitude(r)
            && EntriesFromPairs(r, ps, round)
            && NoLargerOmitted(r, ps, round)
            && TiesInOrder(r, ps)
            && TiesCutInOrder(r, ps, round)
  {
    var ranked := RankedItems(names, values, round);
    var r := ranked[..if |ranked| < TopCount then |ranked| else TopCount];
    TopOfRanked(names, values, round, r);
    r
  }

  /** A rounding that sends every value to one of two equal magnitudes. */
  function SignRounding(x: real): int {
    if x >= 0.0 then 100 else -100
  }

  /** Two names whose rounded values tie keep their first-seen order. */
  lemma TiedSummaryExample()
    ensures ShapSummary(["a", "b"], [1.0, -1.0], SignRounding) == [ShapEntry("a", 100), ShapEntry("b", -100)]
  {
    var ps := CleanedPairs(["a", "b"], [1.0, -1.0]);
    var r := ShapSummary(["a", "b"], [1.0, -1.0], SignRounding);
    TwoTiedPairs(ps);
    TiedEntries(r, ps);
  }

  /** Two entries of the tie example, ordered by first sight, are the summary. */
  lemma TiedEntries(r: seq<ShapEntry>, ps: Pairs)
    requires ps == [("a", 1.0), ("b", -1.0)] && KeySet(ps) == {"a", "b"}
    requires FirstIndex(ps, "a") == 0 && FirstIndex(ps, "b") == 1
    requires LastValue(ps, "a") == 1.0 && LastValue(ps, "b") == -1.0
    requires |r| == 2 && DistinctFeatures(r) && EntriesFromPairs(r, ps, SignRounding) && TiesInOrder(r, ps)
    ensures r == [ShapEntry("a", 100), ShapEntry("b", -100)]
  {
    assert r[0].feature in KeySet(ps) && r[1].feature in KeySet(ps);
    assert Magnitude(r[0]) == 100 && Magnitude(r[1]) == 100;
    assert FirstSeenBefore(ps, r[0].feature, r[1].feature);
    assert r[0].feature == "a" && r[1].feature == "b";
  }

  /** The cleaned pairs of the tie example, their keys, first positions and last values. */
  lemma TwoTiedPairs(ps: Pairs)
    requires ps == CleanedPairs(["a", "b"], [1.0, -1.0])
    ensures ps == [("a", 1.0), ("b", -1.0)]
    ensures KeySet(ps) == {"a", "b"}
    ensures FirstIndex(ps, "a") == 0 && FirstIndex(ps, "b") == 1
    ensures LastValue(ps, "a") == 1.0 && LastValue(ps, "b") == -1.0
  {
    assert CleanPrefix("a") == "a" && CleanPrefix("b") == "b";
    assert ps[0].0 == "a" && ps[1].0 == "b";
    assert KeySet(ps) == {"a", "b"} by {
      forall x | x in KeySet(ps) ensures x in {"a", "b"} {
        var i :| 0 <= i < |ps| && ps[i].0 == x;
      }
    }
    assert ps[1..] == [("b", -1.0)];
    assert ps[..1] == [("a", 1.0)];
  }

  /** The first ten ranked items have the properties of the summary. */
  lemma TopOfRanked(names: seq<string>, values: seq<real>, round: Rounding, r: seq<ShapEntry>)
    requires var ranked := RankedItems(names, values, round);
             r == ranked[..if |ranked| < TopCount then |ranked| else TopCount]
    ensures var ps := CleanedPairs(names, values);
            && |r| == (if |KeySet(ps)| < TopCount then |KeySet(ps)| else TopCount)
            && DistinctFeatures(r)
            && SortedByMagnitude(r)
            && EntriesFromPairs(r, ps, round)
            && NoLargerOmitted(r, ps, round)
            && TiesInOrder(r, ps)
            && TiesCutInOrder(r, ps, round)
  {
    var ps := CleanedPairs(names, values);
    var ranked := RankedItems(names, values, round);
    RankedPairsSemantics(ps, round);
    TopPrefix(ranked, r, ps, round);
    RankedTiesInOrder(ps, round);
    TopPrefixTies(ranked, r, ps, round);
  }

  /** Key `a` of `ps` first occurs before key `b`. */
  predicate FirstSeenBefore(ps: Pairs, a: string, b: string) {
    a in KeySet(ps) && b in KeySet(ps) && FirstIndex(ps, a) < FirstIndex(ps, b)
  }

  /** Entries of equal magnitude come in the order their names were first seen. */
  predicate TiesInOrder(s: seq<ShapEntry>, ps: Pairs) {
    forall i, j :: 0 <= i < j < |s| && Magnitude(s[i]) == Magnitude(s[j]) ==>
      FirstSeenBefore(ps, s[i].feature, s[j].feature)
  }

  /** A key of `ps` that `s` leaves out and that ties with a kept entry
      was first seen after that entry's name. */
  predicate TiesCutInOrder(s: seq<ShapEntry>, ps: Pairs, round: Rounding) {
    forall k :: k in KeySet(ps) && (forall i :: 0 <= i < |s| ==> s[i].feature != k) ==>
      forall i :: 0 <= i < |s| && Magnitude(s[i]) == Abs(round(LastValue(ps, k))) ==>
        FirstSeenBefore(ps, s[i].feature, k)
  }

  lemma TiesInOrderTail(s: seq<ShapEntry>, ps: Pairs)
    requires |s| > 0 && TiesInOrder(s, ps)
    ensures TiesInOrder(s[1..], ps)
  {
    forall i, j | 0 <= i < j < |s| - 1 && Magnitude(s[1..][i]) == Magnitude(s[1..][j])
      ensures FirstSeenBefore(ps, s[1..][i].feature, s[1..][j].feature)
    {
      assert s[1..][i] == s[i + 1] && s[1..][j] == s[j + 1];
    }
  }

  /** Inserting an entry that precedes every tie already in the list
      keeps the ties in order. */
  lemma {:induction false} InsertKeepsTieOrder(x: ShapEntry, t: seq<ShapEntry>, ps: Pairs)
    requires TiesInOrder(t, ps)
    requires forall y :: y in t && Magnitude(y) == Magnitude(x) ==> FirstSeenBefore(ps, x.feature, y.feature)
    ensures TiesInOrder(Insert(x, t), ps)
    decreases |t|
  {
    if |t| == 0 {
    } else if Magnitude(t[0]) > Magnitude(x) {
      var rest := Insert(x, t[1..]);
      TiesInOrderTail(t, ps);
      InsertKeepsTieOrder(x, t[1..], ps);
      InsertBehindTies(x, t, rest, ps);
    } else {
      var r := [x] + t;
      forall i, j | 0 <= i < j < |r| && Magnitude(r[i]) == Magnitude(r[j])
        ensures FirstSeenBefore(ps, r[i].feature, r[j].feature)
      {
        assert r[j] == t[j - 1];
        if i > 0 {
          assert r[i] == t[i - 1];
        }
      }
    }
  }

  /** The step of `InsertKeepsTieOrder` that keeps the first entry in front. */
  lemma InsertBehindTies(x: ShapEntry, t: seq<ShapEntry>, rest: seq<ShapEntry>, ps: Pairs)
    requires |t| > 0 && Magnitude(t[0]) > Magnitude(x)
    requires TiesInOrder(t, ps) && TiesInOrder(rest, ps)
    requires multiset(rest) == multiset(t[1..]) + multiset{x}
    ensures TiesInOrder([t[0]] + rest, ps)
  {
    var r := [t[0]] + rest;
    forall i, j | 0 <= i < j < |r| && Magnitude(r[i]) == Magnitude(r[j])
      ensures FirstSeenBefore(ps, r[i].feature, r[j].feature)
    {
      if i == 0 {
        var y := rest[j - 1];
        assert y in multiset(rest);
        assert y != x;
        assert y in multiset(t[1..]);
        var k :| 0 <= k < |t| - 1 && t[1..][k] == y;
        assert t[k + 1] == y;
      } else {
        assert r[i] == rest[i - 1] && r[j] == rest[j - 1];
      }
    }
  }

  /** The stable sort keeps the order of ties. */
  lemma {:induction false} SortKeepsTieOrder(s: seq<ShapEntry>, ps: Pairs)
    requires TiesInOrder(s, ps)
    ensures TiesInOrder(SortByMagnitude(s), ps)
    decreases |s|
  {
    if |s| > 0 {
      TiesInOrderTail(s, ps);
      SortKeepsTieOrder(s[1..], ps);
      var t := SortByMagnitude(s[1..]);
      forall y | y in t && Magnitude(y) == Magnitude(s[0])
        ensures FirstSeenBefore(ps, s[0].feature, y.feature)
      {
        assert y in multiset(t);
        assert y in multiset(s[1..]);
        var k :| 0 <= k < |s| - 1 && s[1..][k] == y;
        assert s[k + 1] == y;
      }
      InsertKeepsTieOrder(s[0], t, ps);
    }
  }

  /** The rounded dict items come in first-seen order, ties included. */
  lemma DictItemsInOrder(ps: Pairs, round: Rounding)
    ensures TiesInOrder(RoundAll(DictOf(ps), round), ps)
  {
    var d := DictOf(ps);
    DictOrderIsFirstSeen(ps);
    var items := RoundAll(d, round);
    forall i, j | 0 <= i < j < |items| && Magnitude(items[i]) == Magnitude(items[j])
      ensures FirstSeenBefore(ps, items[i].feature, items[j].feature)
    {
      assert items[i].feature == d[i].0 && items[j].feature == d[j].0;
    }
  }

  /** The ranked items list equal magnitudes in first-seen order. */
  lemma RankedTiesInOrder(ps: Pairs, round: Rounding)
    ensures TiesInOrder(SortByMagnitude(RoundAll(DictOf(ps), round)), ps)
  {
    DictItemsInOrder(ps, round);
    SortKeepsTieOrder(RoundAll(DictOf(ps), round), ps);
  }

  /** A prefix of the ranked items keeps ties in order, and a name it
      leaves out ties only with kept names seen before it. */
  lemma TopPrefixTies(ranked: seq<ShapEntry>, r: seq<ShapEntry>, ps: Pairs, round: Rounding)
    requires TiesInOrder(ranked, ps)
    requires EntriesFromPairs(ranked, ps, round) && CoversKeys(ranked, ps)
    requires |r| <= |ranked| && r == ranked[..|r|]
    ensures TiesInOrder(r, ps)
    ensures TiesCutInOrder(r, ps, round)
  {
    assert forall i :: 0 <= i < |r| ==> r[i] == ranked[i];
    forall k | k in KeySet(ps) && (forall i :: 0 <= i < |r| ==> r[i].feature != k)
      ensures forall i :: 0 <= i < |r| && Magnitude(r[i]) == Abs(round(LastValue(ps, k))) ==>
                FirstSeenBefore(ps, r[i].feature, k)
    {
      var p :| 0 <= p < |ranked| && ranked[p].feature == k;
      assert forall i :: 0 <= i < |r| ==> ranked[i].feature != k;
      assert |r| <= p;
      assert Magnitude(ranked[p]) == Abs(round(LastValue(ps, k)));
    }
  }

  /** An element of a permutation is an element of the original. */
  lemma PermutedEntry(items: seq<ShapEntry>, ranked: seq<ShapEntry>, i: nat) returns (j: nat)
    requires multiset(ranked) == multiset(items) && i < |ranked|
    ensures j < |items| && items[j] == ranked[i]
  {
    assert ranked[i] in multiset(items);
    j :| 0 <= j < |items| && items[j] == ranked[i];
  }

  /** No feature is named twice. */
  predicate DistinctFeatures(s: seq<ShapEntry>) {
    forall i, j :: 0 <= i < j < |s| ==> s[i].feature != s[j].feature
  }

  /** Each entry names a key of `ps` and carries the rounded value of the
      key's last pair. */
  predicate EntriesFromPairs(s: seq<ShapEntry>, ps: Pairs, round: Rounding) {
    forall i :: 0 <= i < |s| ==> s[i].feature in KeySet(ps) && s[i].value == round(LastValue(ps, s[i].feature))
  }

  /** Every key of `ps` is named by some entry. */
  predicate CoversKeys(s: seq<ShapEntry>, ps: Pairs) {
    forall k :: k in KeySet(ps) ==> exists i :: 0 <= i < |s| && s[i].feature == k
  }

  /** A key of `ps` that `s` leaves out is no larger in magnitude than any
      entry `s` keeps. */
  predicate NoLargerOmitted(s: seq<ShapEntry>, ps: Pairs, round: Rounding) {
    forall k :: k in KeySet(ps) && (forall i :: 0 <= i < |s| ==> s[i].feature != k) ==>
      forall i :: 0 <= i < |s| ==> Abs(round(LastValue(ps, k))) <= Magnitude(s[i])
  }

  /** Rounding and then permuting dict items keeps each entry's name
      and its rounded last value. */
  lemma PermutedValues(ps: Pairs, d: Pairs, round: Rounding, ranked: seq<ShapEntry>)
    requires ValuesAreLast(d, ps)
    requires multiset(ranked) == multiset(RoundAll(d, round))
    ensures EntriesFromPairs(ranked, ps, round)
  {
    var items := RoundAll(d, round);
    forall i | 0 <= i < |ranked|
      ensures ranked[i].feature in KeySet(ps) && ranked[i].value == round(LastValue(ps, ranked[i].feature))
    {
      var j := PermutedEntry(items, ranked, i);
    }
  }

  /** Every key of the dict is named by some entry of a permutation of its rounded items. */
  lemma PermutedKeys(d: Pairs, round: Rounding, ranked: seq<ShapEntry>)
    requires multiset(ranked) == multiset(RoundAll(d, round))
    ensures CoversKeys(ranked, d)
  {
    var items := RoundAll(d, round);
    forall k | k in KeySet(d) ensures exists i :: 0 <= i < |ranked| && ranked[i].feature == k {
      var j :| 0 <= j < |d| && d[j].0 == k;
      var p := PermutedEntry(ranked, items, j);
      assert ranked[p].feature == k;
    }
  }

  /** A permutation of the rounded items of a dict names each key once. */
  lemma PermutedDistinct(d: Pairs, round: Rounding, ranked: seq<ShapEntry>)
    requires DistinctKeys(d)
    requires multiset(ranked) == multiset(RoundAll(d, round))
    ensures DistinctFeatures(ranked)
  {
    var items := RoundAll(d, round);
    forall i, j | 0 <= i < j < |ranked| ensures ranked[i].feature != ranked[j].feature {
      FeaturesStayDistinct(items, ranked, i, j);
    }
  }

  /** The ranked items of a list of pairs hold one entry per distinct
      key, carrying the rounded value of the key's last pair, in
      non-increasing magnitude. */
  lemma {:induction false} RankedPairsSemantics(ps: Pairs, round: Rounding)
    ensures var ranked := SortByMagnitude(RoundAll(DictOf(ps), round));
            && |ranked| == |KeySet(ps)|
            && SortedByMagnitude(ranked)
            && DistinctFeatures(ranked)
            && EntriesFromPairs(ranked, ps, round)
            && CoversKeys(ranked, ps)
  {
    var d := DictOf(ps);
    DictValuesAreLast(ps);
    DistinctKeysCount(d);
    var items := RoundAll(d, round);
    var ranked := SortByMagnitude(items);
    assert |ranked| == |multiset(ranked)| == |multiset(items)| == |items|;
    PermutedValues(ps, d, round, ranked);
    PermutedKeys(d, round, ranked);
    PermutedDistinct(d, round, ranked);
  }

  /** A prefix of the ranked items keeps their properties, and what it
      leaves out is no larger than what it keeps. */
  lemma TopPrefix(ranked: seq<ShapEntry>, r: seq<ShapEntry>, ps: Pairs, round: Rounding)
    requires SortedByMagnitude(ranked) && DistinctFeatures(ranked)
    requires EntriesFromPairs(ranked, ps, round) && CoversKeys(ranked, ps)
    requires |r| <= |ranked| && r == ranked[..|r|]
    ensures SortedByMagnitude(r) && DistinctFeatures(r) && EntriesFromPairs(r, ps, round)
    ensures NoLargerOmitted(r, ps, round)
  {
    assert forall i :: 0 <= i < |r| ==> r[i] == ranked[i];
    forall k | k in KeySet(ps) && (forall i :: 0 <= i < |r| ==> r[i].feature != k)
      ensures forall i :: 0 <= i < |r| ==> Abs(round(LastValue(ps, k))) <= Magnitude(r[i])
    {
      var p :| 0 <= p < |ranked| && ranked[p].feature == k;
      OmittedIsBehind(ranked, r, k, p);
      assert Magnitude(ranked[p]) == Abs(round(LastValue(ps, k)));
    }
  }

  /** An entry of a sorted list that its prefix leaves out is no larger
      than any entry the prefix keeps. */
  lemma OmittedIsBehind(ranked: seq<ShapEntry>, r: seq<ShapEntry>, k: string, p: nat)
    requires SortedByMagnitude(ranked)
    requires |r| <= |ranked| && forall i :: 0 <= i < |r| ==> r[i] == ranked[i]
    requires p < |ranked| && ranked[p].feature == k
    requires forall i :: 0 <= i < |r| ==> r[i].feature != k
    ensures forall i :: 0 <= i < |r| ==> Magnitude(ranked[p]) <= Magnitude(r[i])
  {
    assert forall i :: 0 <= i < |r| ==> ranked[i].feature != k;
  }

  /** A list with pairwise different keys has as many entries as keys. */
  lemma {:induction false} DistinctKeysCount(d: Pairs)
    requires DistinctKeys(d)
    ensures |KeySet(d)| == |d|
    decreases |d|
  {
    if |d| > 0 {
      var n := |d| - 1;
      DistinctKeysCount(d[..n]);
      assert KeySet(d) == KeySet(d[..n]) + {d[n].0} by {
        forall x | x in KeySet(d) ensures x in KeySet(d[..n]) + {d[n].0} {
          var j :| 0 <= j < |d| && d[j].0 == x;
          if j < n { assert d[..n][j].0 == x; }
        }
      }
      assert d[n].0 !in KeySet(d[..n]);
    }
  }

  /** A permutation of entries with distinct features has distinct features. */
  lemma FeaturesStayDistinct(items: seq<ShapEntry>, sorted: seq<ShapEntry>, i: nat, j: nat)
    requires forall a, b :: 0 <= a < b < |items| ==> items[a].feature != items[b].feature
    requires multiset(sorted) == multiset(items)
    requires i < j < |sorted|
    ensures sorted[i].feature != sorted[j].feature
  {
    assert sorted[i] in multiset(items);
    assert sorted[j] in multiset(items);
    var a :| 0 <= a < |items| && items[a] == sorted[i];
    var b :| 0 <= b < |items| && items[b] == sorted[j];
    if a == b {
      assert multiset(sorted)[sorted[i]] >= 2 by {
        assert sorted == sorted[..j] + sorted[j..];
        assert multiset(sorted) == multiset(sorted[..j]) + multiset(sorted[j..]);
        assert sorted[i] in multiset(sorted[..j]);
        assert sorted[i] in multiset(sorted[j..]);
      }
      OccursOnce(items, a);
      assert false;
    }
  }

  /** An entry of a list with distinct features occurs in it once. */
  lemma {:induction false} OccursOnce(items: seq<ShapEntry>, a: nat)
    requires forall x, y :: 0 <= x < y < |items| ==> items[x].feature != items[y].feature
    requires a < |items|
    ensures multiset(items)[items[a]] == 1
    decreases |items|
  {
    var e := items[a];
    var n := |items| - 1;
    assert items == items[..n] + [items[n]];
    if a == n {
      assert e !in items[..n];
    } else {
      OccursOnce(items[..n], a);
      assert items[n] != e;
    }
  }
}
