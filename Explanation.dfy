/** The explanation `Recommender.explain` (engine.py) builds for one ranked
    career: per-trait contributions, up to two strengths, one watch-out and
    an optional preference note.  The label texts are not modelled, so an
    explanation is the sequence of its segments. */
module Explanation {
  import opened Wrappers
  import opened Dicts
  import opened Builtins
  import opened Scoring
  import opened Ranking

  /** A career record: its name as written, its trait weights and its
      preference emphasis (an absent `weights` or `preferences` entry is the
      empty mapping). */
  datatype Career = Career(name: string, weights: Dict<string, real>, preferences: Dict<string, real>)

  /** One part of an explanation, in place of its text. */
  datatype Segment =
    | Fits(strengths: seq<string>)     // "Why it fits: <label>: <strength>; ..."
    | GenericFit                       // "Why it fits: your overall profile aligns ..."
    | Watch(t: string, conflict: bool) // "Watch-out: ..." when `conflict`, else "Potential growth: ..."
    | Pref(key: string)                // "In addition, this career values ..."

  /** Index of the first entry with the largest score: Python's `max` with a
      key, which keeps the earlier entry on ties. */
  function FirstMaxIndex(s: seq<Item>): (m: nat)
    requires |s| > 0
    ensures m < |s|
    ensures forall i :: 0 <= i < |s| ==> s[i].1 <= s[m].1
    ensures forall i :: 0 <= i < m ==> s[i].1 < s[m].1
  {
    if |s| == 1 then 0
    else
      var j := FirstMaxIndex(s[..|s| - 1]);
      if s[|s| - 1].1 > s[j].1 then |s| - 1 else j
  }

  /** Index of the first entry with the smallest score. */
  function FirstMinIndex(s: seq<Item>): (m: nat)
    requires |s| > 0
    ensures m < |s|
    ensures forall i :: 0 <= i < |s| ==> s[m].1 <= s[i].1
    ensures forall i :: 0 <= i < m ==> s[m].1 < s[i].1
  {
    if |s| == 1 then 0
    else
      var j := FirstMinIndex(s[..|s| - 1]);
      if s[|s| - 1].1 < s[j].1 then |s| - 1 else j
  }

  /** `{t: traits.get(t, 0.0) * w for t, w in weights.items()}`: what each
      weighted trait adds to the weighted score. */
  function Contributions(traits: Dict<string, real>, weights: seq<(string, real)>): (c: seq<Item>)
    ensures Keys(c) == Keys(weights)
  {
    seq(|weights|, i requires 0 <= i < |weights| => (weights[i].0, TraitOf(traits, weights[i].0) * weights[i].1))
  }

  /** The contributions add up to the weighted score. */
  lemma {:induction false} ContributionsSumToScore(traits: Dict<string, real>, weights: seq<(string, real)>)
    ensures Sum(Values(Contributions(traits, weights))) == Dot(traits, weights)
  {
    if weights != [] {
      var vs, ws := Values(Contributions(traits, weights)), Values(Contributions(traits, weights[1..]));
      assert vs[1..] == ws by {
        forall i | 0 <= i < |ws| ensures vs[1..][i] == ws[i] {
          assert weights[1..][i] == weights[i + 1];
        }
      }
      ContributionsSumToScore(traits, weights[1..]);
      assert vs[0] == TraitOf(traits, weights[0].0) * weights[0].1;
      assert Sum(vs) == vs[0] + Sum(vs[1..]);
    }
  }

  /** The entries of `s` with a strictly positive score, in order. */
  function Positives(s: seq<Item>): (r: seq<Item>)
    ensures |r| <= |s|
    ensures forall i :: 0 <= i < |r| ==> r[i].1 > 0.0
  {
    if s == [] then []
    else (if s[0].1 > 0.0 then [s[0]] else []) + Positives(s[1..])
  }

  /** `Positives` keeps every positive entry as often as it occurs, and no
      other entry. */
  lemma {:induction false} PositivesCount(s: seq<Item>, x: Item)
    ensures multiset(Positives(s))[x] == if x.1 > 0.0 then multiset(s)[x] else 0
  {
    if s != [] {
      assert s == [s[0]] + s[1..];
      PositivesCount(s[1..], x);
    }
  }

  lemma PositivesPermutation(s: seq<Item>, t: seq<Item>)
    requires multiset(s) == multiset(t)
    ensures multiset(Positives(s)) == multiset(Positives(t))
  {
    forall x ensures multiset(Positives(s))[x] == multiset(Positives(t))[x] {
      PositivesCount(s, x);
      PositivesCount(t, x);
    }
  }

  lemma {:induction false} PositivesOrdered(s: seq<Item>)
    requires Ordered(s, true)
    ensures Ordered(Positives(s), true)
  {
    if s != [] {
      OrderedTail(s, true);
      PositivesOrdered(s[1..]);
      var p := Positives(s[1..]);
      forall j | 0 <= j < |p| ensures p[j].1 <= s[0].1 {
        PositivesCount(s[1..], p[j]);
        assert p[j] in multiset(p);
        assert p[j] in s[1..];
      }
    }
  }

  /** `[(t, v) for t, v in pos_sorted if v > 0][:2]`. */
  function StrengthsOf(contrib: seq<Item>): seq<Item> {
    SliceTo(Positives(SortBy(contrib, true)), 2)
  }

  lemma StrengthsCount(contrib: seq<Item>)
    ensures |Positives(SortBy(contrib, true))| == |Positives(contrib)|
  {
    var p := Positives(SortBy(contrib, true));
    PositivesPermutation(SortBy(contrib, true), contrib);
    assert |p| == |multiset(p)| == |multiset(Positives(contrib))| == |Positives(contrib)|;
  }

  lemma StrengthsOrdered(contrib: seq<Item>)
    ensures var r := StrengthsOf(contrib);
      forall i, j :: 0 <= i < j < |r| ==> r[i].1 >= r[j].1
  {
    var sorted := SortBy(contrib, true);
    var p := Positives(sorted);
    var r := StrengthsOf(contrib);
    SortOrdered(contrib, true);
    PositivesOrdered(sorted);
    forall i, j | 0 <= i < j < |r| ensures r[i].1 >= r[j].1 {
      assert r[i] == p[i] && r[j] == p[j];
    }
  }

  lemma StrengthsWithin(contrib: seq<Item>)
    ensures multiset(StrengthsOf(contrib)) <= multiset(contrib)
  {
    var sorted := SortBy(contrib, true);
    var p := Positives(sorted);
    var r := StrengthsOf(contrib);
    assert p == r + p[|r|..];
    assert multiset(p) == multiset(r) + multiset(p[|r|..]);
    forall x ensures multiset(r)[x] <= multiset(contrib)[x] {
      PositivesCount(sorted, x);
    }
  }

  /** The strengths are at most two entries of the contributions, all strictly
      positive, highest first; there are two unless fewer contributions are
      positive. */
  lemma StrengthsSpec(contrib: seq<Item>)
    ensures var r := StrengthsOf(contrib);
      && |r| == (if |Positives(contrib)| < 2 then |Positives(contrib)| else 2)
      && (forall i :: 0 <= i < |r| ==> r[i].1 > 0.0)
      && (forall i, j :: 0 <= i < j < |r| ==> r[i].1 >= r[j].1)
      && multiset(r) <= multiset(contrib)
  {
    StrengthsCount(contrib);
    StrengthsOrdered(contrib);
    StrengthsWithin(contrib);
  }

  lemma PositivesSortedAt(contrib: seq<Item>, i: nat, k: nat)
    requires i < k < |Positives(SortBy(contrib, true))|
    ensures Positives(SortBy(contrib, true))[i].1 >= Positives(SortBy(contrib, true))[k].1
  {
    SortOrdered(contrib, true);
    PositivesOrdered(SortBy(contrib, true));
  }

  /** An entry occurring more often in `p` than in its prefix `r` occurs
      after that prefix. */
  lemma LeftOutAt(p: seq<Item>, r: seq<Item>, x: Item) returns (k: nat)
    requires |r| <= |p| && r == p[..|r|]
    requires multiset(p)[x] > multiset(r)[x]
    ensures |r| <= k < |p| && p[k] == x
  {
    var rest := p[|r|..];
    assert p == r + rest;
    assert x in rest;
    var j :| 0 <= j < |rest| && rest[j] == x;
    k := |r| + j;
  }

  /** Every contribution left out of the strengths is no higher than every
      strength. */
  lemma StrengthsBest(contrib: seq<Item>, x: Item, y: Item)
    requires x in multiset(contrib) - multiset(StrengthsOf(contrib))
    requires y in StrengthsOf(contrib)
    ensures x.1 <= y.1
  {
    var r := StrengthsOf(contrib);
    var i :| 0 <= i < |r| && r[i] == y;
    assert Positives(SortBy(contrib, true))[i] == y;
    if x.1 > 0.0 {
      var p := Positives(SortBy(contrib, true));
      PositivesCount(SortBy(contrib, true), x);
      var k := LeftOutAt(p, r, x);
      PositivesSortedAt(contrib, i, k);
    }
  }

  /** `neg_sorted[0] if neg_sorted else None`: the first entry of the
      contributions sorted by ascending score. */
  function WatchOf(contrib: seq<Item>): Option<Item> {
    if contrib == [] then None else Some(SortBy(contrib, false)[0])
  }

  lemma {:induction false} WithScoreFirst(s: seq<Item>, m: nat)
    requires m < |s|
    requires forall i :: 0 <= i < m ==> s[i].1 != s[m].1
    ensures |WithScore(s, s[m].1)| > 0 && WithScore(s, s[m].1)[0] == s[m]
  {
    var v := s[m].1;
    assert s == s[..m] + ([s[m]] + s[m + 1..]);
    WithScoreAppend(s[..m], [s[m]] + s[m + 1..], v);
    WithScoreCons(s[m], s[m + 1..], v);
    assert WithScore(s[..m], v) == [] by {
      var k := 0;
      while k < m
        invariant 0 <= k <= m
        invariant WithScore(s[m - k..m], v) == []
      {
        assert s[m - k - 1..m] == [s[m - k - 1]] + s[m - k..m];
        WithScoreCons(s[m - k - 1], s[m - k..m], v);
        k := k + 1;
      }
      assert s[m - k..m] == s[..m];
    }
  }

  /** The watch-out is absent only for an empty weight mapping; otherwise it
      is the first contribution, in weight order, with the smallest value. */
  lemma WatchIsFirstMin(contrib: seq<Item>)
    ensures WatchOf(contrib).None? <==> contrib == []
    ensures contrib != [] ==> WatchOf(contrib).value == contrib[FirstMinIndex(contrib)]
  {
    if contrib != [] {
      var t := SortBy(contrib, false);
      var m := FirstMinIndex(contrib);
      var v := contrib[m].1;
      SortOrdered(contrib, false);
      assert t[0] in multiset(contrib);
      assert contrib[m] in multiset(t);
      var j :| 0 <= j < |t| && t[j] == contrib[m];
      assert t[0].1 == v;
      SortStable(contrib, false, v);
      WithScoreFirst(contrib, m);
      WithScoreFirst(t, 0);
    }
  }

  /** `preference_blurb`'s choice: nothing for an empty preference mapping,
      otherwise the first key with the largest emphasis. */
  function TopPreference(prefs: Dict<string, real>): (k: Option<string>)
    ensures k.None? <==> prefs == []
    ensures k.Some? ==> exists i :: (0 <= i < |prefs| && prefs[i].0 == k.value
      && (forall j :: 0 <= j < |prefs| ==> prefs[j].1 <= prefs[i].1)
      && (forall j :: 0 <= j < i ==> prefs[j].1 < prefs[i].1))
  {
    if prefs == [] then None else Some(prefs[FirstMaxIndex(prefs)].0)
  }

  /** The opening segment: the strengths' traits, or the generic text when
      there are none. */
  function FitSegment(contrib: seq<Item>): Segment {
    var strengths := StrengthsOf(contrib);
    if strengths != [] then Fits(Keys(strengths)) else GenericFit
  }

  /** The fit segment is generic exactly when no contribution is positive;
      otherwise it names one or two traits. */
  lemma FitSegmentSpec(contrib: seq<Item>)
    ensures FitSegment(contrib) == GenericFit <==> forall i :: 0 <= i < |contrib| ==> contrib[i].1 <= 0.0
    ensures FitSegment(contrib).Fits? ==>
      FitSegment(contrib).strengths == Keys(StrengthsOf(contrib)) && 1 <= |FitSegment(contrib).strengths| <= 2
  {
    StrengthsSpec(contrib);
    var p := Positives(contrib);
    if p == [] {
      forall i | 0 <= i < |contrib| ensures contrib[i].1 <= 0.0 {
        PositivesCount(contrib, contrib[i]);
        assert contrib[i] in multiset(contrib);
      }
    } else {
      PositivesCount(contrib, p[0]);
      assert p[0] in multiset(p);
      assert p[0] in contrib;
    }
  }

  /** The watch-out or growth segment, when there is a contribution. */
  function WatchSegments(contrib: seq<Item>): seq<Segment> {
    match WatchOf(contrib)
    case None => []
    case Some(w) => [Watch(w.0, w.1 <= 0.0)]
  }

  /** There is a watch segment exactly when there is a contribution; it
      names the first smallest contribution and is a conflict exactly when
      that contribution is not positive. */
  lemma WatchSegmentsSpec(contrib: seq<Item>)
    ensures |WatchSegments(contrib)| == if contrib == [] then 0 else 1
    ensures contrib != [] ==> var m := FirstMinIndex(contrib);
      WatchSegments(contrib)[0] == Watch(contrib[m].0, contrib[m].1 <= 0.0)
  {
    WatchIsFirstMin(contrib);
  }

  /** The preference note, when the career has preferences. */
  function PrefSegments(prefs: Dict<string, real>): seq<Segment> {
    match TopPreference(prefs)
    case None => []
    case Some(k) => [Pref(k)]
  }

  /** The segments `explain` joins with single spaces for one career. */
  function CareerExplanation(career: Career, traits: Dict<string, real>): seq<Segment>
  {
    var contrib := Contributions(traits, career.weights);
    [FitSegment(contrib)] + WatchSegments(contrib) + PrefSegments(career.preferences)
  }

  lemma ExplanationParts(career: Career, traits: Dict<string, real>)
    ensures var segs, contrib := CareerExplanation(career, traits), Contributions(traits, career.weights);
      && |segs| == 1 + |WatchSegments(contrib)| + |PrefSegments(career.preferences)|
      && segs[0] == FitSegment(contrib)
      && (forall i :: 0 <= i < |WatchSegments(contrib)| ==> segs[1 + i] == WatchSegments(contrib)[i])
      && (forall i :: 0 <= i < |PrefSegments(career.preferences)| ==>
            segs[1 + |WatchSegments(contrib)| + i] == PrefSegments(career.preferences)[i])
  {
  }

  lemma ExplanationTail(career: Career, traits: Dict<string, real>)
    ensures var segs := CareerExplanation(career, traits);
      forall i :: 0 < i < |segs| ==> !segs[i].Fits? && !segs[i].GenericFit?
  {
    var contrib := Contributions(traits, career.weights);
    var watch, pref := WatchSegments(contrib), PrefSegments(career.preferences);
    ExplanationParts(career, traits);
    var segs := CareerExplanation(career, traits);
    forall i | 0 < i < |segs| ensures !segs[i].Fits? && !segs[i].GenericFit? {
      if i <= |watch| {
        assert segs[i] == watch[i - 1];
      } else {
        assert segs[i] == pref[i - 1 - |watch|];
      }
    }
  }

  lemma ExplanationWatch(career: Career, traits: Dict<string, real>)
    requires career.weights != []
    ensures var contrib := Contributions(traits, career.weights);
      var m := FirstMinIndex(contrib);
      CareerExplanation(career, traits)[1] == Watch(career.weights[m].0, contrib[m].1 <= 0.0)
  {
    var contrib := Contributions(traits, career.weights);
    ExplanationParts(career, traits);
    WatchSegmentsSpec(contrib);
    assert Keys(contrib)[FirstMinIndex(contrib)] == Keys(career.weights)[FirstMinIndex(contrib)];
  }

  /** An explanation opens with the fit segment (the generic one exactly when
      no contribution is positive), then holds a watch-out exactly when the
      career has weights, naming the first smallest contribution as a conflict
      exactly when it is not positive, and ends with a preference note exactly
      when the career has preferences. */
  lemma ExplanationShape(career: Career, traits: Dict<string, real>)
    ensures var segs, contrib := CareerExplanation(career, traits), Contributions(traits, career.weights);
      && |segs| == 1 + (if career.weights == [] then 0 else 1) + (if career.preferences == [] then 0 else 1)
      && (segs[0] == GenericFit <==> forall i :: 0 <= i < |contrib| ==> contrib[i].1 <= 0.0)
      && (segs[0].Fits? ==> segs[0].strengths == Keys(StrengthsOf(contrib)) && 1 <= |segs[0].strengths| <= 2)
      && (career.weights != [] ==>
            var m := FirstMinIndex(contrib);
            segs[1] == Watch(career.weights[m].0, contrib[m].1 <= 0.0))
      && (career.preferences != [] ==>
            segs[|segs| - 1] == Pref(TopPreference(career.preferences).value))
      && (forall i :: 0 < i < |segs| ==> !segs[i].Fits? && !segs[i].GenericFit?)
  {
    var segs := CareerExplanation(career, traits);
    var contrib := Contributions(traits, career.weights);
    var watch, pref := WatchSegments(contrib), PrefSegments(career.preferences);
    ExplanationParts(career, traits);
    assert |watch| == (if career.weights == [] then 0 else 1) by {
      WatchSegmentsSpec(contrib);
      assert |contrib| == |Keys(contrib)| == |Keys(career.weights)|;
    }
    assert |pref| == (if career.preferences == [] then 0 else 1);
    FitSegmentSpec(contrib);
    ExplanationTail(career, traits);
    if career.weights != [] {
      ExplanationWatch(career, traits);
    }
    if career.preferences != [] {
      assert segs[|segs| - 1] == pref[0];
    }
  }
}
