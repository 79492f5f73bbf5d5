/** Python's stable `sorted(items, key=score)` (ascending or with
    `reverse=True`) on score entries, and `Recommender.top_k`
    (engine.py), which sorts by descending score and takes a prefix slice. */
module Ranking {
  import opened Dicts
  import opened Builtins
  import opened Normalize

  /** A `(name, score)` entry, as produced by `dict.items()`. */
  type Item = (string, real)

  /** `x` belongs strictly before `y`: a higher score when sorting in
      descending order, a lower one when sorting in ascending order. */
  predicate Precedes(x: Item, y: Item, desc: bool) {
    if desc then x.1 > y.1 else x.1 < y.1
  }

  /** No entry strictly precedes an entry placed before it. */
  predicate Ordered(s: seq<Item>, desc: bool) {
    forall i, j :: 0 <= i < j < |s| ==> !Precedes(s[j], s[i], desc)
  }

  /** The entries of `s` whose score is `v`, in their order in `s`. */
  function WithScore(s: seq<Item>, v: real): seq<Item> {
    if s == [] then [] else (if s[0].1 == v then [s[0]] else []) + WithScore(s[1..], v)
  }

  lemma {:induction false} WithScoreAppend(a: seq<Item>, b: seq<Item>, v: real)
    ensures WithScore(a + b, v) == WithScore(a, v) + WithScore(b, v)
  {
    if a == [] {
      assert a + b == b;
    } else {
      var h := if a[0].1 == v then [a[0]] else [];
      var ra, rb := WithScore(a[1..], v), WithScore(b, v);
      assert (a + b)[0] == a[0] && (a + b)[1..] == a[1..] + b;
      assert WithScore(a + b, v) == h + WithScore(a[1..] + b, v);
      WithScoreAppend(a[1..], b, v);
      assert WithScore(a, v) == h + ra;
      AppendAssoc(h, ra, rb);
    }
  }

  lemma WithScoreCons(a: Item, t: seq<Item>, v: real)
    ensures WithScore([a] + t, v) == (if a.1 == v then [a] else []) + WithScore(t, v)
  {
    assert ([a] + t)[1..] == t;
  }

  lemma {:induction false} WithScoreMembers(s: seq<Item>, v: real, x: Item)
    ensures x in WithScore(s, v) <==> x in s && x.1 == v
  {
    if s != [] {
      WithScoreMembers(s[1..], v, x);
      assert s == [s[0]] + s[1..];
    }
  }

  /** Inserts `x` into `s` after every entry it does not strictly precede. */
  function Insert(x: Item, s: seq<Item>, desc: bool): (r: seq<Item>)
    ensures multiset(r) == multiset(s) + multiset{x} && |r| == |s| + 1
  {
    if s == [] then [x]
    else if Precedes(x, s[0], desc) then [x] + s
    else
      assert s == [s[0]] + s[1..];
      [s[0]] + Insert(x, s[1..], desc)
  }

  lemma {:induction false} InsertOrdered(x: Item, s: seq<Item>, desc: bool)
    requires Ordered(s, desc)
    ensures Ordered(Insert(x, s, desc), desc)
  {
    if s != [] && !Precedes(x, s[0], desc) {
      var t := Insert(x, s[1..], desc);
      InsertOrdered(x, s[1..], desc);
      forall j | 0 <= j < |t| ensures !Precedes(t[j], s[0], desc) {
        assert t[j] in multiset(t);
        if t[j] != x {
          assert t[j] in s[1..];
        }
      }
    }
  }

  /** `x` passes an entry it does not strictly precede. */
  lemma InsertPasses(x: Item, s: seq<Item>, desc: bool)
    requires s != [] && !Precedes(x, s[0], desc)
    ensures Insert(x, s, desc) == [s[0]] + Insert(x, s[1..], desc)
  {
  }

  /** Entries of an ordered sequence that `x` strictly precedes have a score
      other than `x`'s. */
  lemma NoneTied(x: Item, s: seq<Item>, desc: bool)
    requires Ordered(s, desc) && s != [] && Precedes(x, s[0], desc)
    ensures WithScore(s, x.1) == []
  {
    var k := 0;
    while k < |s|
      invariant 0 <= k <= |s|
      invariant WithScore(s[|s| - k..], x.1) == []
    {
      var u := s[|s| - k - 1..];
      assert u == [s[|s| - k - 1]] + s[|s| - k..];
      k := k + 1;
    }
  }

  lemma OrderedTail(s: seq<Item>, desc: bool)
    requires Ordered(s, desc) && s != []
    ensures Ordered(s[1..], desc)
  {
    forall i, j | 0 <= i < j < |s| - 1 ensures !Precedes(s[1..][j], s[1..][i], desc) {
      assert s[1..][j] == s[j + 1] && s[1..][i] == s[i + 1];
    }
  }

  /** Inserting `x` at the front of entries it strictly precedes puts it
      after every entry with its score, since there are none. */
  lemma InsertStableFront(x: Item, s: seq<Item>, desc: bool, v: real)
    requires Ordered(s, desc) && s != [] && Precedes(x, s[0], desc)
    ensures WithScore(Insert(x, s, desc), v) == WithScore(s, v) + (if x.1 == v then [x] else [])
  {
    assert Insert(x, s, desc) == [x] + s;
    WithScoreCons(x, s, v);
    if x.1 == v {
      NoneTied(x, s, desc);
      assert [x] + [] == [] + [x];
    } else {
      assert [] + WithScore(s, v) == WithScore(s, v) + [];
    }
  }

  /** Inserting `x` puts it after every entry with the same score. */
  lemma {:induction false} InsertStable(x: Item, s: seq<Item>, desc: bool, v: real)
    requires Ordered(s, desc)
    ensures WithScore(Insert(x, s, desc), v) == WithScore(s, v) + (if x.1 == v then [x] else [])
  {
    var hx := if x.1 == v then [x] else [];
    if s == [] {
      WithScoreCons(x, [], v);
      assert Insert(x, s, desc) == [x] + [];
      assert hx + [] == [] + hx;
    } else if Precedes(x, s[0], desc) {
      InsertStableFront(x, s, desc, v);
    } else {
      var s0, tail := s[0], s[1..];
      var h0 := if s0.1 == v then [s0] else [];
      var t := Insert(x, tail, desc);
      assert WithScore(s, v) == h0 + WithScore(tail, v) by {
        assert s == [s0] + tail;
        WithScoreCons(s0, tail, v);
      }
      assert WithScore(tail, v) + hx == WithScore(t, v) by {
        OrderedTail(s, desc);
        InsertStable(x, tail, desc, v);
      }
      InsertPasses(x, s, desc);
      WithScoreCons(s0, t, v);
      AppendAssoc(h0, WithScore(tail, v), hx);
    }
  }

  /** Python's `sorted(s, key=score, reverse=desc)`: an insertion sort that
      inserts each entry after the entries already placed. */
  function SortBy(s: seq<Item>, desc: bool): (r: seq<Item>)
    ensures multiset(r) == multiset(s) && |r| == |s|
  {
    if s == [] then []
    else
      assert s == s[..|s| - 1] + [s[|s| - 1]];
      Insert(s[|s| - 1], SortBy(s[..|s| - 1], desc), desc)
  }

  lemma {:induction false} SortOrdered(s: seq<Item>, desc: bool)
    ensures Ordered(SortBy(s, desc), desc)
  {
    if s != [] {
      SortOrdered(s[..|s| - 1], desc);
      InsertOrdered(s[|s| - 1], SortBy(s[..|s| - 1], desc), desc);
    }
  }

  /** The sort is stable: entries with equal scores keep their relative
      order. */
  lemma {:induction false} SortStable(s: seq<Item>, desc: bool, v: real)
    ensures WithScore(SortBy(s, desc), v) == WithScore(s, v)
  {
    if s != [] {
      var p, x := s[..|s| - 1], s[|s| - 1];
      assert s == p + [x];
      var sp := SortBy(p, desc);
      assert SortBy(s, desc) == Insert(x, sp, desc);
      SortOrdered(p, desc);
      SortStable(p, desc, v);
      InsertStable(x, sp, desc, v);
      WithScoreAppend(p, [x], v);
      WithScoreCons(x, [], v);
      assert [x] + [] == [x];
    }
  }

  /** Whatever is ordered and keeps every score class in its original order
      is exactly `SortBy`: the sort is the one stable sort there is. */
  lemma {:induction false} SortUnique(s: seq<Item>, r: seq<Item>, desc: bool)
    requires Ordered(r, desc)
    requires forall v :: WithScore(r, v) == WithScore(s, v)
    ensures r == SortBy(s, desc)
  {
    var t := SortBy(s, desc);
    SortOrdered(s, desc);
    forall v ensures WithScore(r, v) == WithScore(t, v) {
      SortStable(s, desc, v);
    }
    SameClassesEqual(r, t, desc);
  }

  lemma {:induction false} SameClassesEqual(r: seq<Item>, t: seq<Item>, desc: bool)
    requires Ordered(r, desc) && Ordered(t, desc)
    requires forall v :: WithScore(r, v) == WithScore(t, v)
    ensures r == t
    decreases |r| + |t|
  {
    if r == [] || t == [] {
      if r != [] {
        WithScoreMembers(r, r[0].1, r[0]);
      } else if t != [] {
        WithScoreMembers(t, t[0].1, t[0]);
      }
    } else {
      var a, b := r[0].1, t[0].1;
      if a != b {
        WithScoreMembers(r, a, r[0]);
        WithScoreMembers(t, a, r[0]);
        WithScoreMembers(t, b, t[0]);
        WithScoreMembers(r, b, t[0]);
        assert false;
      }
      assert r == [r[0]] + r[1..] && t == [t[0]] + t[1..];
      WithScoreCons(r[0], r[1..], a);
      WithScoreCons(t[0], t[1..], a);
      assert WithScore(r, a)[0] == r[0] && WithScore(t, a)[0] == t[0];
      assert r[0] == t[0];
      forall v ensures WithScore(r[1..], v) == WithScore(t[1..], v) {
        WithScoreCons(r[0], r[1..], v);
        WithScoreCons(t[0], t[1..], v);
        var h := if r[0].1 == v then [r[0]] else [];
        assert h + WithScore(r[1..], v) == h + WithScore(t[1..], v);
        assert (h + WithScore(r[1..], v))[|h|..] == WithScore(r[1..], v);
        assert (h + WithScore(t[1..], v))[|h|..] == WithScore(t[1..], v);
      }
      OrderedTail(r, desc);
      OrderedTail(t, desc);
      SameClassesEqual(r[1..], t[1..], desc);
    }
  }

  /** `Recommender.top_k`: the entries sorted by descending score, then the
      Python slice `[:k]`. */
  function TopK(scores: seq<Item>, k: int): (r: seq<Item>)
  {
    SliceTo(SortBy(scores, true), k)
  }

  /** The length of `top_k`'s result: `min(k, n)` for a non-negative `k`, so
      `k = 0` gives nothing; a negative `k` drops the last `-k` entries. The
      result is in non-increasing score order and holds entries of `scores`. */
  lemma TopKShape(scores: seq<Item>, k: int)
    ensures var r := TopK(scores, k);
      && (k >= 0 ==> |r| == if k < |scores| then k else |scores|)
      && (k < 0 ==> |r| == if |scores| + k < 0 then 0 else |scores| + k)
      && (forall i, j :: 0 <= i < j < |r| ==> r[i].1 >= r[j].1)
      && multiset(r) <= multiset(scores)
  {
    var t := SortBy(scores, true);
    SortOrdered(scores, true);
    var r := TopK(scores, k);
    assert t == r + t[|r|..];
    assert multiset(t) == multiset(r) + multiset(t[|r|..]);
  }

  /** Every entry left out of `top_k` scores no higher than every entry it
      kept. */
  lemma TopKBest(scores: seq<Item>, k: int, x: Item, y: Item)
    requires x in multiset(scores) - multiset(TopK(scores, k))
    requires y in TopK(scores, k)
    ensures x.1 <= y.1
  {
    var t := SortBy(scores, true);
    SortOrdered(scores, true);
    var r := TopK(scores, k);
    var rest := t[|r|..];
    assert t == r + rest;
    assert multiset(t) == multiset(r) + multiset(rest);
    assert x in rest;
    var i :| 0 <= i < |r| && r[i] == y;
    var j :| 0 <= j < |rest| && rest[j] == x;
    assert t[i] == y && t[|r| + j] == x;
  }

  /** Ties keep the mapping's insertion order: for each score, the entries of
      `top_k` with that score are the first ones of `scores` with it. */
  lemma TopKTies(scores: seq<Item>, k: int, v: real)
    ensures var w := WithScore(TopK(scores, k), v);
      |w| <= |WithScore(scores, v)| && w == WithScore(scores, v)[..|w|]
  {
    var t := SortBy(scores, true);
    var r := TopK(scores, k);
    assert t == r + t[|r|..];
    WithScoreAppend(r, t[|r|..], v);
    SortStable(scores, true, v);
  }

  /** Replaces every score `v` with `f(v)`, keeping names and order. */
  function MapScores(s: seq<Item>, f: real -> real): (r: seq<Item>)
    ensures |r| == |s| && Keys(r) == Keys(s)
  {
    seq(|s|, i requires 0 <= i < |s| => (s[i].0, f(s[i].1)))
  }

  /** `f` keeps the strict order between the scores in `vals`. */
  ghost predicate KeepsOrder(vals: set<real>, f: real -> real) {
    forall u, w :: u in vals && w in vals ==> (u < w <==> f(u) < f(w))
  }

  lemma MapScoresCons(a: Item, t: seq<Item>, f: real -> real)
    ensures MapScores([a] + t, f) == [(a.0, f(a.1))] + MapScores(t, f)
  {
  }

  lemma PrecedesMap(x: Item, y: Item, desc: bool, f: real -> real, vals: set<real>)
    requires KeepsOrder(vals, f) && x.1 in vals && y.1 in vals
    ensures Precedes((x.0, f(x.1)), (y.0, f(y.1)), desc) <==> Precedes(x, y, desc)
  {
  }

  lemma {:induction false} InsertMap(x: Item, s: seq<Item>, desc: bool, f: real -> real, vals: set<real>)
    requires KeepsOrder(vals, f) && x.1 in vals
    requires forall y :: y in s ==> y.1 in vals
    ensures Insert((x.0, f(x.1)), MapScores(s, f), desc) == MapScores(Insert(x, s, desc), f)
  {
    if s != [] {
      var s0, tail := s[0], s[1..];
      assert s == [s0] + tail && s0 in s;
      MapScoresCons(s0, tail, f);
      PrecedesMap(x, s0, desc, f, vals);
      if Precedes(x, s0, desc) {
        MapScoresCons(x, s, f);
      } else {
        assert forall y :: y in tail ==> y in s;
        InsertMap(x, tail, desc, f, vals);
        MapScoresCons(s0, Insert(x, tail, desc), f);
      }
    }
  }

  /** Sorting commutes with a rescaling that keeps the order of the scores. */
  lemma {:induction false} SortMap(s: seq<Item>, desc: bool, f: real -> real, vals: set<real>)
    requires KeepsOrder(vals, f)
    requires forall y :: y in s ==> y.1 in vals
    ensures SortBy(MapScores(s, f), desc) == MapScores(SortBy(s, desc), f)
  {
    if s != [] {
      var p, x := s[..|s| - 1], s[|s| - 1];
      var m := MapScores(s, f);
      assert m[..|m| - 1] == MapScores(p, f);
      assert m[|m| - 1] == (x.0, f(x.1));
      assert forall y :: y in p ==> y in s;
      SortMap(p, desc, f, vals);
      forall y | y in SortBy(p, desc) ensures y.1 in vals {
        assert y in multiset(SortBy(p, desc));
      }
      InsertMap(x, SortBy(p, desc), desc, f, vals);
    }
  }

  lemma SliceMap(s: seq<Item>, k: int, f: real -> real)
    ensures SliceTo(MapScores(s, f), k) == MapScores(SliceTo(s, k), f)
  {
  }

  /** The set of scores occurring in `s`. */
  function ScoreSet(s: seq<Item>): set<real> {
    set i | 0 <= i < |s| :: s[i].1
  }

  /** When all scores are equal, min-max normalization replaces each by 1.0,
      which keeps their (trivial) order. */
  lemma NormalizeAllEqualAsMap(scores: Dict<string, real>) returns (f: real -> real)
    requires AllEqual(scores)
    ensures KeepsOrder(ScoreSet(scores), f) && MinMaxNormalize(scores) == MapScores(scores, f)
  {
    var r := MinMaxNormalize(scores);
    f := v => 1.0;
    forall u, w | u in ScoreSet(scores) && w in ScoreSet(scores) ensures u == w {
      var i :| 0 <= i < |scores| && scores[i].1 == u;
      var j :| 0 <= j < |scores| && scores[j].1 == w;
    }
    forall i | 0 <= i < |r| ensures r[i] == MapScores(scores, f)[i] {
      assert Keys(r)[i] == Keys(scores)[i];
    }
  }

  /** Otherwise min-max normalization applies one order-keeping rescaling to
      every score. */
  lemma NormalizeSpreadAsMap(scores: Dict<string, real>) returns (f: real -> real)
    requires !AllEqual(scores)
    ensures KeepsOrder(ScoreSet(scores), f) && MinMaxNormalize(scores) == MapScores(scores, f)
  {
    var r := MinMaxNormalize(scores);
    var mn, mx := MinOf(Values(scores)), MaxOf(Values(scores));
    NormalizedAt(scores, 0);
    f := v => Rescale(v, mn, mx);
    forall u, w ensures u < w <==> f(u) < f(w) {
      RescaleMonotone(u, w, mn, mx);
    }
    forall i | 0 <= i < |r| ensures r[i] == MapScores(scores, f)[i] {
      NormalizedAt(scores, i);
      assert Keys(r)[i] == Keys(scores)[i];
    }
  }

  /** Ranking the normalized scores gives the same names in the same order as
      ranking the raw scores, so the ranking can be taken from either. */
  lemma NormalizeKeepsRanking(scores: Dict<string, real>, k: int)
    ensures Keys(TopK(MinMaxNormalize(scores), k)) == Keys(TopK(scores, k))
  {
    var f: real -> real;
    if AllEqual(scores) {
      f := NormalizeAllEqualAsMap(scores);
    } else {
      f := NormalizeSpreadAsMap(scores);
    }
    forall y | y in scores ensures y.1 in ScoreSet(scores) {
      var i :| 0 <= i < |scores| && scores[i] == y;
    }
    SortMap(scores, true, f, ScoreSet(scores));
    SliceMap(SortBy(scores, true), k, f);
  }
}
