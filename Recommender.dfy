/** The `Recommender` class of engine.py: it scores every career for a user
    profile, with a light tie-break from the user's preference weights, and
    explains a ranked list by looking each name up among its careers. */
module Recommender {
  import opened Wrappers
  import opened Dicts
  import opened Builtins
  import opened Models
  import opened Scoring
  import opened Ranking
  import opened Explanation

  /** The factor of the preference tie-break in a career's score. */
  const TIE_BREAK_FACTOR: real := 0.05

  /** `sum(pref_w.get(k, 0.0) * float(prefs.get(k, 0.0)) for k in pref_w)`. */
  function TieBreak(prefW: seq<(string, real)>, prefs: Dict<string, real>): real {
    if prefW == [] then 0.0
    else prefW[0].1 * Get(prefs, prefW[0].0, 0.0) + TieBreak(prefW[1..], prefs)
  }

  /** Only the preference keys count: two careers whose preferences agree on
      the keys of `prefW` get the same tie-break, whatever else they hold. */
  lemma {:induction false} TieBreakOnlyPreferenceKeys(prefW: seq<(string, real)>, prefs: Dict<string, real>, prefs': Dict<string, real>)
    requires forall i :: 0 <= i < |prefW| ==> Get(prefs, prefW[i].0, 0.0) == Get(prefs', prefW[i].0, 0.0)
    ensures TieBreak(prefW, prefs) == TieBreak(prefW, prefs')
  {
    if prefW != [] {
      assert forall i :: 0 <= i < |prefW| - 1 ==> prefW[1..][i] == prefW[i + 1];
      TieBreakOnlyPreferenceKeys(prefW[1..], prefs, prefs');
    }
  }

  /** One more weighted term keeps the tie-break bound. */
  lemma ScaledBounds(w: real, v: real, m: real, tb: real, rest: real)
    requires w >= 0.0 && 0.0 <= v <= m
    requires 0.0 <= tb <= m * rest
    ensures 0.0 <= w * v + tb <= m * (w + rest)
  {
    assert 0.0 <= w * v <= m * w;
    assert m * (w + rest) == m * w + m * rest;
  }

  /** With non-negative weights and preference values between 0 and `m`, the
      tie-break lies between 0 and `m` times the total weight. */
  lemma {:induction false} TieBreakBounded(prefW: seq<(string, real)>, prefs: Dict<string, real>, m: real)
    requires forall i :: 0 <= i < |prefW| ==> prefW[i].1 >= 0.0
    requires forall i :: 0 <= i < |prefW| ==> 0.0 <= Get(prefs, prefW[i].0, 0.0) <= m
    ensures 0.0 <= TieBreak(prefW, prefs) <= m * Sum(Values(prefW))
  {
    if prefW != [] {
      var w, v := prefW[0].1, Get(prefs, prefW[0].0, 0.0);
      var tb, rest := TieBreak(prefW[1..], prefs), Sum(Values(prefW[1..]));
      assert 0.0 <= tb <= m * rest by {
        assert forall i :: 0 <= i < |prefW| - 1 ==> prefW[1..][i] == prefW[i + 1];
        TieBreakBounded(prefW[1..], prefs, m);
      }
      assert Sum(Values(prefW)) == w + rest by {
        assert Values(prefW)[1..] == Values(prefW[1..]);
      }
      assert TieBreak(prefW, prefs) == w * v + tb;
      ScaledBounds(w, v, m, tb, rest);
    }
  }

  /** For the weights of any preference ratings, a career whose four
      preference values lie in [0, m] gets a tie-break in [0, m], so its score
      moves by at most `0.05 * m`. */
  lemma PreferenceTieBreakBounded(p: Preferences, prefs: Dict<string, real>, m: real)
    requires forall k :: k in PREFERENCE_KEYS ==> 0.0 <= Get(prefs, k, 0.0) <= m
    ensures 0.0 <= TieBreak(ToWeights(p), prefs) <= m
  {
    var w := ToWeights(p);
    WeightsProportional(p);
    WeightsSumToOne(p);
    forall i | 0 <= i < |w| ensures 0.0 <= Get(prefs, w[i].0, 0.0) <= m {
      assert w[i].0 == Keys(w)[i];
    }
    TieBreakBounded(w, prefs, m);
  }

  /** `base + 0.05 * tb` for one career.  A career the user's traits give no
      base score is ranked by its preference tie-break alone. */
  function CareerScore(scorer: Scorer, prefW: Dict<string, real>, c: Career, traits: Dict<string, real>, sqrt: real -> real): (r: real)
    ensures IsSqrt(sqrt) && (ZeroWeights(c.weights) || ZeroTraitsOn(traits, c.weights)) ==>
      r == TIE_BREAK_FACTOR * TieBreak(prefW, c.preferences)
  {
    Score(scorer, traits, c.weights, sqrt) + TIE_BREAK_FACTOR * TieBreak(prefW, c.preferences)
  }

  /** The assignments `score` makes, in order: each career's score under its
      trimmed name. */
  function ScoreItems(scorer: Scorer, prefW: Dict<string, real>, careers: seq<Career>, traits: Dict<string, real>, sqrt: real -> real): (items: seq<Item>)
    ensures |items| == |careers|
    ensures forall i :: 0 <= i < |careers| ==>
      items[i] == (Strip(careers[i].name), CareerScore(scorer, prefW, careers[i], traits, sqrt))
  {
    seq(|careers|, i requires 0 <= i < |careers| => (Strip(careers[i].name), CareerScore(scorer, prefW, careers[i], traits, sqrt)))
  }

  /** The mapping `Recommender.score` builds. */
  function ScoresOf(scorer: Scorer, prefW: Dict<string, real>, careers: seq<Career>, traits: Dict<string, real>, sqrt: real -> real): Dict<string, real> {
    FromItems(ScoreItems(scorer, prefW, careers, traits, sqrt))
  }

  /** The careers' names as `score` writes them. */
  function TrimmedNames(careers: seq<Career>): (ns: seq<string>)
    ensures |ns| == |careers|
  {
    seq(|careers|, i requires 0 <= i < |careers| => Strip(careers[i].name))
  }

  /** The scores hold one key per distinct trimmed career name, in order of
      first occurrence. */
  lemma ScoresKeys(scorer: Scorer, prefW: Dict<string, real>, careers: seq<Career>, traits: Dict<string, real>, sqrt: real -> real)
    ensures Keys(ScoresOf(scorer, prefW, careers, traits, sqrt)) == Distinct(TrimmedNames(careers))
  {
    var items := ScoreItems(scorer, prefW, careers, traits, sqrt);
    FromItemsKeys(items);
    assert Keys(items) == TrimmedNames(careers);
  }

  /** The value under a trimmed name is the score of the last career with that
      trimmed name. */
  lemma ScoresLastWins(scorer: Scorer, prefW: Dict<string, real>, careers: seq<Career>, traits: Dict<string, real>, sqrt: real -> real, i: nat)
    requires i < |careers|
    requires forall j :: i < j < |careers| ==> Strip(careers[j].name) != Strip(careers[i].name)
    ensures var scores := ScoresOf(scorer, prefW, careers, traits, sqrt);
      Get(scores, Strip(careers[i].name), 0.0) == CareerScore(scorer, prefW, careers[i], traits, sqrt)
  {
    var items := ScoreItems(scorer, prefW, careers, traits, sqrt);
    FromItemsLastWins(items, i, 0.0);
  }

  /** Index of the first career whose name equals `name` exactly:
      `next(c for c in careers if c["name"] == name)`, or nothing. */
  function FirstNamed(careers: seq<Career>, name: string): (r: Option<nat>)
    ensures r.None? <==> forall i :: 0 <= i < |careers| ==> careers[i].name != name
    ensures r.Some? ==> (r.value < |careers| && careers[r.value].name == name
      && forall j :: 0 <= j < r.value ==> careers[j].name != name)
  {
    if careers == [] then None
    else if careers[0].name == name then Some(0)
    else
      match FirstNamed(careers[1..], name)
      case None => None
      case Some(i) => Some(i + 1)
  }

  /** Index of the last career whose trimmed name is `name`: the career
      whose score `score` kept under that name. */
  function LastTrimmed(careers: seq<Career>, name: string): (r: Option<nat>)
    ensures r.None? <==> forall i :: 0 <= i < |careers| ==> TrimmedNames(careers)[i] != name
    ensures r.Some? ==> (r.value < |careers| && TrimmedNames(careers)[r.value] == name
      && forall j :: r.value < j < |careers| ==> TrimmedNames(careers)[j] != name)
  {
    if careers == [] then None
    else
      var n := |careers| - 1;
      assert forall i :: 0 <= i < n ==> TrimmedNames(careers[..n])[i] == TrimmedNames(careers)[i];
      if TrimmedNames(careers)[n] == name then Some(n)
      else LastTrimmed(careers[..n], name)
  }

  /** How a ranked name is matched to a career: by exact name, as `explain`
      does, or by the trimmed name `score` recorded it under. */
  datatype NameLookup = Exact | Trimmed

  function Find(lookup: NameLookup, careers: seq<Career>, name: string): Option<nat> {
    match lookup
    case Exact => FirstNamed(careers, name)
    case Trimmed => LastTrimmed(careers, name)
  }

  /** Position of the first ranked name that no career matches, if any. */
  function FirstMissing(lookup: NameLookup, careers: seq<Career>, topk: seq<Item>): (r: Option<nat>)
    ensures r.None? <==> forall i :: 0 <= i < |topk| ==> Find(lookup, careers, topk[i].0).Some?
    ensures r.Some? ==> (r.value < |topk| && Find(lookup, careers, topk[r.value].0).None?
      && forall j :: 0 <= j < r.value ==> Find(lookup, careers, topk[j].0).Some?)
  {
    if topk == [] then None
    else
      var n := |topk| - 1;
      assert forall j :: 0 <= j < n ==> topk[..n][j] == topk[j];
      match FirstMissing(lookup, careers, topk[..n])
      case Some(i) => Some(i)
      case None => if Find(lookup, careers, topk[n].0).None? then Some(n) else None
  }

  /** A ranked name that no career matches, after a prefix of names that all
      match, is the first missing one. */
  lemma FirstMissingAt(lookup: NameLookup, careers: seq<Career>, topk: seq<Item>, i: nat)
    requires i < |topk| && Find(lookup, careers, topk[i].0).None?
    requires forall j :: 0 <= j < i ==> Find(lookup, careers, topk[j].0).Some?
    ensures FirstMissing(lookup, careers, topk) == Some(i)
  {
    var m := FirstMissing(lookup, careers, topk);
    assert m.Some?;
  }

  /** The assignments `explanations[name] = ...` of a run in which every
      ranked name is found: each name with `explain` of the career it is
      matched to. */
  function ExplanationItems<V>(lookup: NameLookup, careers: seq<Career>, topk: seq<Item>, explain: Career -> V): (items: seq<(string, V)>)
    requires FirstMissing(lookup, careers, topk).None?
    ensures |items| == |topk|
  {
    seq(|topk|, i requires 0 <= i < |topk| =>
      (topk[i].0, explain(careers[Find(lookup, careers, topk[i].0).value])))
  }

  lemma FirstMissingSnoc(lookup: NameLookup, careers: seq<Career>, p: seq<Item>, x: Item)
    ensures FirstMissing(lookup, careers, p + [x]).None? <==>
      FirstMissing(lookup, careers, p).None? && Find(lookup, careers, x.0).Some?
  {
    var q := p + [x];
    assert forall j :: 0 <= j < |p| ==> q[j] == p[j];
    assert q[|p|] == x;
  }

  lemma ExplanationItemsSnoc<V>(lookup: NameLookup, careers: seq<Career>, p: seq<Item>, x: Item, explain: Career -> V)
    requires FirstMissing(lookup, careers, p + [x]).None?
    ensures FirstMissing(lookup, careers, p).None? && Find(lookup, careers, x.0).Some?
    ensures ExplanationItems(lookup, careers, p + [x], explain) ==
      ExplanationItems(lookup, careers, p, explain) + [(x.0, explain(careers[Find(lookup, careers, x.0).value]))]
  {
    FirstMissingSnoc(lookup, careers, p, x);
    var q := p + [x];
    var a := ExplanationItems(lookup, careers, q, explain);
    var b := ExplanationItems(lookup, careers, p, explain) + [(x.0, explain(careers[Find(lookup, careers, x.0).value]))];
    forall j | 0 <= j < |q| ensures a[j] == b[j] {
      if j < |p| {
        assert q[j] == p[j];
      }
    }
    assert a == b;
  }

  /** The explanation `explain` builds for a career. */
  function Explainer(traits: Dict<string, real>): Career -> seq<Segment> {
    c => CareerExplanation(c, traits)
  }

  /** `explain` gives up, as Python's `next` does with nothing left, when a
      ranked name has no career to match. */
  datatype ExplainError = NoCareerNamed(name: string)

  /** What `explain` returns for the ranked entries `topk`: an error naming
      the first ranked name that no career matches, or else the dictionary
      its assignments build. */
  function ExplanationsOf(lookup: NameLookup, careers: seq<Career>, topk: seq<Item>, traits: Dict<string, real>): Result<Dict<string, seq<Segment>>, ExplainError> {
    match FirstMissing(lookup, careers, topk)
    case Some(i) => Err(NoCareerNamed(topk[i].0))
    case None => Ok(FromItems(ExplanationItems(lookup, careers, topk, Explainer(traits))))
  }

  /** When `explain` succeeds, the names it records are the distinct ranked
      names, in ranked order. */
  lemma ExplanationsOkKeys(lookup: NameLookup, careers: seq<Career>, topk: seq<Item>, traits: Dict<string, real>)
    requires ExplanationsOf(lookup, careers, topk, traits).Ok?
    ensures Keys(ExplanationsOf(lookup, careers, topk, traits).value) == Distinct(Keys(topk))
  {
    var items := ExplanationItems(lookup, careers, topk, Explainer(traits));
    FromItemsKeys(items);
    assert Keys(items) == Keys(topk);
  }

  /** When `explain` succeeds, every ranked name maps to the explanation of
      the career it is matched to: with the exact lookup, the FIRST career of
      exactly that name, even when `score` kept the score of a later career
      of the same trimmed name. */
  lemma ExplanationsOkValues(lookup: NameLookup, careers: seq<Career>, topk: seq<Item>, traits: Dict<string, real>)
    requires ExplanationsOf(lookup, careers, topk, traits).Ok?
    ensures forall i :: 0 <= i < |topk| ==>
      Find(lookup, careers, topk[i].0).Some?
      && Get(ExplanationsOf(lookup, careers, topk, traits).value, topk[i].0, [])
         == CareerExplanation(careers[Find(lookup, careers, topk[i].0).value], traits)
  {
    var items := ExplanationItems(lookup, careers, topk, Explainer(traits));
    forall i | 0 <= i < |topk|
      ensures Get(FromItems(items), topk[i].0, []) == CareerExplanation(careers[Find(lookup, careers, topk[i].0).value], traits)
    {
      FromItemsFunctional(items, i, []);
    }
  }

  lemma ExplainMissing(careers: seq<Career>, topk: seq<Item>, i: nat)
    requires i < |topk| && FirstMissing(Exact, careers, topk[..i]).None?
    requires FirstNamed(careers, topk[i].0).None?
    ensures FirstMissing(Exact, careers, topk) == Some(i)
  {
    assert forall j :: 0 <= j < i ==> topk[..i][j] == topk[j];
    FirstMissingAt(Exact, careers, topk, i);
  }

  lemma ExplainStep(careers: seq<Career>, topk: seq<Item>, traits: Dict<string, real>, i: nat)
    requires i < |topk| && FirstMissing(Exact, careers, topk[..i]).None?
    requires FirstNamed(careers, topk[i].0).Some?
    ensures FirstMissing(Exact, careers, topk[..i + 1]).None?
    ensures FromItems(ExplanationItems(Exact, careers, topk[..i + 1], Explainer(traits)))
      == Put(FromItems(ExplanationItems(Exact, careers, topk[..i], Explainer(traits))),
             topk[i].0, CareerExplanation(careers[FirstNamed(careers, topk[i].0).value], traits))
  {
    var items := ExplanationItems(Exact, careers, topk[..i], Explainer(traits));
    PrefixSnoc(topk, i);
    FirstMissingSnoc(Exact, careers, topk[..i], topk[i]);
    ExplanationItemsSnoc(Exact, careers, topk[..i], topk[i], Explainer(traits));
    FromItemsAppend(items, (topk[i].0, Explainer(traits)(careers[FirstNamed(careers, topk[i].0).value])));
  }

  /** The recommender: its careers, the preference weights for the
      tie-break and the scoring strategy, all fixed at construction. */
  class Recommender {
    const careers: seq<Career>
    const prefW: Dict<string, real>
    const scorer: Scorer

    /** `Recommender(careers, mode, preferences)`: the weighted scorer exactly
        for mode "weighted", the cosine scorer for any other mode; omitted
        preferences are the default ratings. */
    constructor (careers: seq<Career>, mode: string, preferences: Option<Preferences>)
      ensures this.careers == careers
      ensures scorer == if mode == "weighted" then WeightedScorer else CosineScorer
      ensures prefW == ToWeights(if preferences.Some? then preferences.value else DEFAULT_PREFERENCES)
      ensures Keys(prefW) == PREFERENCE_KEYS
    {
      this.careers := careers;
      this.prefW := ToWeights(if preferences.Some? then preferences.value else DEFAULT_PREFERENCES);
      this.scorer := if mode == "weighted" then WeightedScorer else CosineScorer;
    }

    /** `score(user_traits)`: for each career in order, writes its score under
        its trimmed name, overwriting the score of an earlier career with the
        same trimmed name. */
    method Score(userTraits: Dict<string, real>, sqrt: real -> real) returns (scores: Dict<string, real>)
      ensures scores == ScoresOf(scorer, prefW, careers, userTraits, sqrt)
    {
      ghost var items := ScoreItems(scorer, prefW, careers, userTraits, sqrt);
      scores := [];
      var i := 0;
      while i < |careers|
        invariant 0 <= i <= |careers|
        invariant scores == FromItems(items[..i])
      {
        var c := careers[i];
        var name := Strip(c.name);
        var base := Scoring.Score(scorer, userTraits, c.weights, sqrt);
        var tb := TieBreak(prefW, c.preferences);
        ghost var v := base + TIE_BREAK_FACTOR * tb;
        assert items[i].0 == name && items[i].1 == v by {
          assert items[i] == (name, CareerScore(scorer, prefW, c, userTraits, sqrt));
        }
        FromItemsStep(items, i);
        assert FromItems(items[..i + 1]) == Put(FromItems(items[..i]), items[i].0, items[i].1);
        assert FromItems(items[..i + 1]) == Put(scores, name, v);
        scores := Put(scores, name, base + TIE_BREAK_FACTOR * tb);
        i := i + 1;
      }
      assert items[..i] == items;
    }

    /** `explain(topk, traits)`: looks up each ranked name among the careers
        by exact name and records that career's explanation under the name;
        stops with an error at the first name it cannot find. */
    method Explain(topk: seq<Item>, traits: Dict<string, real>) returns (r: Result<Dict<string, seq<Segment>>, ExplainError>)
      ensures r == ExplanationsOf(Exact, careers, topk, traits)
    {
      var explanations: Dict<string, seq<Segment>> := [];
      var i := 0;
      while i < |topk|
        invariant 0 <= i <= |topk|
        invariant FirstMissing(Exact, careers, topk[..i]).None?
        invariant explanations == FromItems(ExplanationItems(Exact, careers, topk[..i], Explainer(traits)))
      {
        var name := topk[i].0;
        var found := FirstNamed(careers, name);
        if found.None? {
          ExplainMissing(careers, topk, i);
          return Err(NoCareerNamed(name));
        }
        ExplainStep(careers, topk, traits, i);
        explanations := Put(explanations, name, CareerExplanation(careers[found.value], traits));
        i := i + 1;
      }
      assert topk[..i] == topk;
      return Ok(explanations);
    }
  }

  /** The one career " Nurse" is scored under the name "Nurse". */
  lemma NurseScores(scorer: Scorer, prefW: Dict<string, real>, traits: Dict<string, real>, sqrt: real -> real)
    ensures var careers := [Career(" Nurse", [("E", 1.0)], [])];
      ScoresOf(scorer, prefW, careers, traits, sqrt) == [("Nurse", CareerScore(scorer, prefW, careers[0], traits, sqrt))]
  {
    var careers := [Career(" Nurse", [("E", 1.0)], [])];
    assert Strip(" Nurse") == "Nurse" by {
      assert " Nurse"[1..] == "Nurse";
      assert !IsSpace('N') && !IsSpace('e');
    }
    var x := ("Nurse", CareerScore(scorer, prefW, careers[0], traits, sqrt));
    var items := ScoreItems(scorer, prefW, careers, traits, sqrt);
    assert items == [x];
    FromItemsStep(items, 0);
    assert items[..1] == items && items[..0] == [];
  }

  /** Ranking a single score keeps it. */
  lemma TopKSingle(x: Item, k: int)
    requires k >= 1
    ensures TopK([x], k) == [x]
  {
    assert SortBy([x], true) == [x] by {
      assert [x][..0] == [];
    }
  }

  /** A career whose name carries surrounding spaces is scored under its
      trimmed name, and `explain` then cannot find that name among the
      careers: ranking it and explaining the ranking fails. */
  lemma TrimmedNameNotFound(scorer: Scorer, prefW: Dict<string, real>, traits: Dict<string, real>, sqrt: real -> real)
    ensures var careers := [Career(" Nurse", [("E", 1.0)], [])];
      var topk := TopK(ScoresOf(scorer, prefW, careers, traits, sqrt), 3);
      ExplanationsOf(Exact, careers, topk, traits) == Err(NoCareerNamed("Nurse"))
  {
    var careers := [Career(" Nurse", [("E", 1.0)], [])];
    var x := ("Nurse", CareerScore(scorer, prefW, careers[0], traits, sqrt));
    NurseScores(scorer, prefW, traits, sqrt);
    TopKSingle(x, 3);
    assert FirstNamed(careers, "Nurse").None?;
    FirstMissingAt(Exact, careers, [x], 0);
  }

  /** A ranked entry is a score entry, so its name is a trimmed career name
      and its score is that of the last career with that trimmed name. */
  lemma RankedEntryScored(scorer: Scorer, prefW: Dict<string, real>, careers: seq<Career>,
                          traits: Dict<string, real>, sqrt: real -> real, x: Item)
    requires x in ScoresOf(scorer, prefW, careers, traits, sqrt)
    ensures x.0 in TrimmedNames(careers)
    ensures LastTrimmed(careers, x.0).Some?
      && x.1 == CareerScore(scorer, prefW, careers[LastTrimmed(careers, x.0).value], traits, sqrt)
  {
    var scores := ScoresOf(scorer, prefW, careers, traits, sqrt);
    ScoresKeys(scorer, prefW, careers, traits, sqrt);
    DistinctMembers(TrimmedNames(careers));
    var j :| 0 <= j < |scores| && scores[j] == x;
    assert Keys(scores)[j] == x.0;
    GetAt(scores, j, 0.0);
    var names := TrimmedNames(careers);
    var m := LastTrimmed(careers, x.0).value;
    assert Strip(careers[m].name) == names[m] == x.0;
    forall j | m < j < |careers| ensures Strip(careers[j].name) != x.0 {
      assert Strip(careers[j].name) == names[j];
    }
    ScoresLastWins(scorer, prefW, careers, traits, sqrt, m);
  }

  /** With the trimmed-name lookup, explaining the top `k` of the scores never
      fails, for any careers and any `k`, and each explanation is built from
      the career whose score was ranked. */
  lemma ScoredLookupNeverFails(scorer: Scorer, prefW: Dict<string, real>, careers: seq<Career>,
                               traits: Dict<string, real>, sqrt: real -> real, k: int)
    ensures var topk := TopK(ScoresOf(scorer, prefW, careers, traits, sqrt), k);
      && ExplanationsOf(Trimmed, careers, topk, traits).Ok?
      && forall i :: 0 <= i < |topk| ==>
           LastTrimmed(careers, topk[i].0).Some?
           && topk[i].1 == CareerScore(scorer, prefW, careers[LastTrimmed(careers, topk[i].0).value], traits, sqrt)
  {
    var scores := ScoresOf(scorer, prefW, careers, traits, sqrt);
    var topk := TopK(scores, k);
    assert multiset(topk) <= multiset(scores) by {
      TopKShape(scores, k);
    }
    forall i | 0 <= i < |topk|
      ensures LastTrimmed(careers, topk[i].0).Some?
        && topk[i].1 == CareerScore(scorer, prefW, careers[LastTrimmed(careers, topk[i].0).value], traits, sqrt)
    {
      assert topk[i] in multiset(scores);
      RankedEntryScored(scorer, prefW, careers, traits, sqrt, topk[i]);
    }
    assert FirstMissing(Trimmed, careers, topk).None?;
  }
}
