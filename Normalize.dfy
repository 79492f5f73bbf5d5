/** Min-max normalization of a score mapping for display (engine.py
    `minmax_normalize`). */
module Normalize {
  import opened Dicts
  import opened Builtins

  /** `min(xs)`: a value of `xs` no larger than any other. */
  function MinOf(xs: seq<real>): (m: real)
    requires |xs| > 0
    ensures m in xs
    ensures forall i :: 0 <= i < |xs| ==> m <= xs[i]
  {
    if |xs| == 1 then xs[0]
    else
      var rest := MinOf(xs[1..]);
      if xs[0] <= rest then xs[0] else rest
  }

  /** `max(xs)`: a value of `xs` no smaller than any other. */
  function MaxOf(xs: seq<real>): (m: real)
    requires |xs| > 0
    ensures m in xs
    ensures forall i :: 0 <= i < |xs| ==> xs[i] <= m
  {
    if |xs| == 1 then xs[0]
    else
      var rest := MaxOf(xs[1..]);
      if xs[0] >= rest then xs[0] else rest
  }

  /** All scores are equal (vacuously so for an empty mapping). */
  predicate AllEqual(scores: seq<(string, real)>) {
    forall i, j :: 0 <= i < |scores| && 0 <= j < |scores| ==> scores[i].1 == scores[j].1
  }

  /** The smallest and the largest score coincide exactly when all scores are
      equal. */
  lemma MinMaxEqualIffAllEqual(scores: seq<(string, real)>)
    requires |scores| > 0
    ensures MinOf(Values(scores)) == MaxOf(Values(scores)) <==> AllEqual(scores)
  {
    var vals := Values(scores);
    if MinOf(vals) == MaxOf(vals) {
      forall i, j | 0 <= i < |scores| && 0 <= j < |scores| ensures scores[i].1 == scores[j].1 {
        assert vals[i] == scores[i].1 && vals[j] == scores[j].1;
      }
    } else {
      var m :| 0 <= m < |vals| && vals[m] == MinOf(vals);
      var n :| 0 <= n < |vals| && vals[n] == MaxOf(vals);
      assert scores[m].1 != scores[n].1;
    }
  }

  /** One score rescaled so that `mn` maps to 0 and `mx` to 1. */
  function Rescale(v: real, mn: real, mx: real): real
    requires mn < mx
  {
    (v - mn) / (mx - mn)
  }

  /** The mapping with the same keys, in the same order, holding `vals`. */
  function WithValues(scores: Dict<string, real>, vals: seq<real>): (r: Dict<string, real>)
    requires |vals| == |scores|
    ensures Keys(r) == Keys(scores) && Values(r) == vals
  {
    assert forall i :: 0 <= i < |scores| ==> Keys(scores)[i] == scores[i].0;
    seq(|scores|, i requires 0 <= i < |scores| => (scores[i].0, vals[i]))
  }

  /** `minmax_normalize`: an empty mapping stays empty; when all scores are
      equal every key maps to 1.0; otherwise each score `v` becomes
      `(v - min) / (max - min)`.  Keys and their order are always kept. */
  function MinMaxNormalize(scores: Dict<string, real>): (r: Dict<string, real>)
    ensures Keys(r) == Keys(scores)
    ensures scores == [] ==> r == []
    ensures AllEqual(scores) ==> forall i :: 0 <= i < |r| ==> r[i].1 == 1.0
  {
    if scores == [] then []
    else
      var vals := Values(scores);
      var mn, mx := MinOf(vals), MaxOf(vals);
      MinMaxEqualIffAllEqual(scores);
      if mx == mn then
        WithValues(scores, seq(|scores|, i => 1.0))
      else
        WithValues(scores, seq(|scores|, i requires 0 <= i < |scores| => Rescale(vals[i], mn, mx)))
  }

  /** When the scores are not all equal, entry `i` is its score rescaled by the
      smallest and largest score. */
  lemma NormalizedAt(scores: Dict<string, real>, i: nat)
    requires !AllEqual(scores) && i < |scores|
    ensures var mn, mx := MinOf(Values(scores)), MaxOf(Values(scores));
      && mn < mx
      && MinMaxNormalize(scores)[i].1 == Rescale(scores[i].1, mn, mx)
  {
    MinMaxEqualIffAllEqual(scores);
    assert MinOf(Values(scores)) <= Values(scores)[0] <= MaxOf(Values(scores));
  }

  /** A value between `mn` and `mx` rescales into [0, 1]; `mn` itself to 0
      and `mx` itself to 1. */
  lemma RescaleRange(v: real, mn: real, mx: real)
    requires mn <= v <= mx && mn < mx
    ensures 0.0 <= Rescale(v, mn, mx) <= 1.0
    ensures v == mn ==> Rescale(v, mn, mx) == 0.0
    ensures v == mx ==> Rescale(v, mn, mx) == 1.0
  {
    DivUnitInterval(v - mn, mx - mn);
    if v == mx {
      DivSelf(mx - mn);
    }
  }

  /** Rescaling keeps the order of two values, strictly and non-strictly. */
  lemma RescaleMonotone(a: real, b: real, mn: real, mx: real)
    requires mn < mx
    ensures a <= b <==> Rescale(a, mn, mx) <= Rescale(b, mn, mx)
    ensures a < b <==> Rescale(a, mn, mx) < Rescale(b, mn, mx)
  {
    DivMonotone(a - mn, b - mn, mx - mn);
  }

  /** When the scores are not all equal, every normalized score lies in
      [0, 1], an entry holding the smallest score maps to 0 and one holding
      the largest score to 1. */
  lemma NormalizeRange(scores: Dict<string, real>)
    requires !AllEqual(scores)
    ensures var r, vals := MinMaxNormalize(scores), Values(scores);
      && (forall i :: 0 <= i < |r| ==> 0.0 <= r[i].1 <= 1.0)
      && (forall i :: 0 <= i < |r| && scores[i].1 == MinOf(vals) ==> r[i].1 == 0.0)
      && (forall i :: 0 <= i < |r| && scores[i].1 == MaxOf(vals) ==> r[i].1 == 1.0)
  {
    var r, vals := MinMaxNormalize(scores), Values(scores);
    forall i | 0 <= i < |r|
      ensures 0.0 <= r[i].1 <= 1.0
      ensures scores[i].1 == MinOf(vals) ==> r[i].1 == 0.0
      ensures scores[i].1 == MaxOf(vals) ==> r[i].1 == 1.0
    {
      NormalizedAt(scores, i);
      assert vals[i] == scores[i].1;
      RescaleRange(scores[i].1, MinOf(vals), MaxOf(vals));
    }
  }

  /** When the scores are not all equal, normalization keeps the order between
      any two entries, strictly and non-strictly. */
  lemma NormalizeKeepsOrder(scores: Dict<string, real>, i: nat, j: nat)
    requires !AllEqual(scores) && i < |scores| && j < |scores|
    ensures var r := MinMaxNormalize(scores);
      && (scores[i].1 <= scores[j].1 <==> r[i].1 <= r[j].1)
      && (scores[i].1 < scores[j].1 <==> r[i].1 < r[j].1)
  {
    NormalizedAt(scores, i);
    NormalizedAt(scores, j);
    RescaleMonotone(scores[i].1, scores[j].1, MinOf(Values(scores)), MaxOf(Values(scores)));
  }

  /** A mapping whose smallest score is 0 and largest is 1 is already
      normalized: normalizing it again changes nothing. */
  lemma NormalizeIdempotent(scores: Dict<string, real>)
    requires |scores| > 0
    requires MinOf(Values(scores)) == 0.0 && MaxOf(Values(scores)) == 1.0
    ensures MinMaxNormalize(scores) == scores
  {
    MinMaxEqualIffAllEqual(scores);
    var r := MinMaxNormalize(scores);
    forall i | 0 <= i < |scores| ensures r[i] == scores[i] {
      NormalizedAt(scores, i);
      DivByOne(scores[i].1);
      assert Keys(r)[i] == Keys(scores)[i];
    }
  }

  /** Normalizing a normalized mapping changes nothing. */
  lemma NormalizeTwice(scores: Dict<string, real>)
    ensures MinMaxNormalize(MinMaxNormalize(scores)) == MinMaxNormalize(scores)
  {
    var r := MinMaxNormalize(scores);
    if scores == [] {
    } else if AllEqual(scores) {
      assert AllEqual(r);
      forall i | 0 <= i < |r| ensures MinMaxNormalize(r)[i] == r[i] {
        assert Keys(MinMaxNormalize(r))[i] == Keys(r)[i];
      }
    } else {
      NormalizeRange(scores);
      var vals := Values(scores);
      var m :| 0 <= m < |vals| && vals[m] == MinOf(vals);
      var n :| 0 <= n < |vals| && vals[n] == MaxOf(vals);
      var rv := Values(r);
      assert rv[m] == 0.0 && rv[n] == 1.0;
      assert MinOf(rv) <= 0.0 && MaxOf(rv) >= 1.0;
      assert MinOf(rv) in rv && MaxOf(rv) in rv;
      NormalizeIdempotent(r);
    }
  }
}
