/** The user's trait profile and preference weights (models.py). */
module Models {
  import opened Dicts
  import opened Builtins

  /** The six trait codes, in the order a fresh profile lists them: Extraversion,
      Conscientiousness, Openness, Agreeableness, Neuroticism (emotional
      stability) and analytical Mindset. */
  const TRAITS: seq<string> := ["E", "C", "O", "A", "N", "M"]

  /** A Likert answer after reverse scoring: a reverse-scored statement counts
      `6 - score`.  Reverse scoring keeps an answer on the 1..5 scale and undoes
      itself. */
  function Adjusted(score: int, reverse: bool): (v: int)
    ensures 1 <= score <= 5 ==> 1 <= v <= 5
    ensures reverse ==> 6 - v == score
    ensures !reverse ==> v == score
  {
    if reverse then 6 - score else score
  }

  /** The sums a fresh profile starts with: 0 for each of the six traits. */
  function InitialSums(): (raw: Dict<string, real>)
    ensures Keys(raw) == TRAITS
    ensures forall i :: 0 <= i < |raw| ==> raw[i].1 == 0.0
  {
    [("E", 0.0), ("C", 0.0), ("O", 0.0), ("A", 0.0), ("N", 0.0), ("M", 0.0)]
  }

  /** The counts a fresh profile starts with: 0 for each of the six traits. */
  function InitialCounts(): (cnt: Dict<string, nat>)
    ensures Keys(cnt) == TRAITS
    ensures forall i :: 0 <= i < |cnt| ==> cnt[i].1 == 0
  {
    [("E", 0), ("C", 0), ("O", 0), ("A", 0), ("N", 0), ("M", 0)]
  }

  /** What recording one adjusted answer `v` for `trait` does to the sums and
      counts: a trait not yet present first gets a sum and a count of 0, then
      its sum grows by `v` and its count by 1. */
  function Record(raw: Dict<string, real>, cnt: Dict<string, nat>, t: string, v: int)
    : (Dict<string, real>, Dict<string, nat>)
  {
    (Put(raw, t, Get(raw, t, 0.0) + v as real), Put(cnt, t, Get(cnt, t, 0) + 1))
  }

  /** Recording adds `v` to the trait's sum and 1 to its count, and no other
      trait's sum or count changes. */
  lemma RecordEffect(raw: Dict<string, real>, cnt: Dict<string, nat>, t: string, v: int, other: string)
    requires Keys(raw) == Keys(cnt)
    ensures Keys(Record(raw, cnt, t, v).0) == Keys(Record(raw, cnt, t, v).1)
    ensures Get(Record(raw, cnt, t, v).0, t, 0.0) == Get(raw, t, 0.0) + v as real
    ensures Get(Record(raw, cnt, t, v).1, t, 0) == Get(cnt, t, 0) + 1
    ensures other != t ==> Get(Record(raw, cnt, t, v).0, other, 0.0) == Get(raw, other, 0.0)
    ensures other != t ==> Get(Record(raw, cnt, t, v).1, other, 0) == Get(cnt, other, 0)
  {
    var sum, count := Get(raw, t, 0.0) + v as real, Get(cnt, t, 0) + 1;
    assert Record(raw, cnt, t, v) == (Put(raw, t, sum), Put(cnt, t, count));
    PutGet(raw, t, sum, t, 0.0);
    PutGet(cnt, t, count, t, 0);
    PutGet(raw, t, sum, other, 0.0);
    PutGet(cnt, t, count, other, 0);
  }

  /** For a trait not yet present, first storing a sum and count of 0 and
      then recording is the same as recording. */
  lemma RecordFromZero(raw: Dict<string, real>, cnt: Dict<string, nat>, t: string, v: int)
    requires t !in Keys(raw) && Keys(raw) == Keys(cnt)
    ensures var raw0, cnt0 := Put(raw, t, 0.0), Put(cnt, t, 0);
      Record(raw0, cnt0, t, v) == Record(raw, cnt, t, v)
  {
    PutGet(raw, t, 0.0, t, 0.0);
    PutGet(cnt, t, 0, t, 0);
    PutTwice(raw, t, 0.0, 0.0 + v as real);
    PutTwice(cnt, t, 0, 0 + 1);
  }

  /** A trait seen for the first time is appended with count 1 and sum `v`. */
  lemma RecordNewTrait(raw: Dict<string, real>, cnt: Dict<string, nat>, t: string, v: int)
    requires Keys(raw) == Keys(cnt)
    requires t !in Keys(raw)
    ensures Keys(Record(raw, cnt, t, v).0) == Keys(raw) + [t]
    ensures Record(raw, cnt, t, v).0[|raw|] == (t, v as real)
    ensures Record(raw, cnt, t, v).1[|cnt|] == (t, 1)
  {
    var raw' := Record(raw, cnt, t, v).0;
    var cnt' := Record(raw, cnt, t, v).1;
    assert Keys(raw')[|raw|] == t;
    GetAt(raw', |raw|, 0.0);
    GetAt(cnt', |cnt|, 0);
    PutGet(raw, t, Get(raw, t, 0.0) + v as real, t, 0.0);
    PutGet(cnt, t, Get(cnt, t, 0) + 1, t, 0);
  }

  /** Every sum lies between 1 and 5 times its count: the state reached when
      every answer recorded for a trait was on the 1..5 scale. */
  ghost predicate LikertSums(raw: Dict<string, real>, cnt: Dict<string, nat>) {
    |raw| == |cnt| && forall i :: 0 <= i < |raw| ==> cnt[i].1 as real <= raw[i].1 <= 5.0 * cnt[i].1 as real
  }

  /** Position by position, recording changes only the entry of `t`. */
  lemma RecordAt(raw: Dict<string, real>, cnt: Dict<string, nat>, t: string, v: int, i: nat)
    requires Keys(raw) == Keys(cnt)
    requires i < |Record(raw, cnt, t, v).0|
    ensures var (raw', cnt') := Record(raw, cnt, t, v);
      && i < |cnt'| && raw'[i].0 == cnt'[i].0
      && (raw'[i].0 == t ==> raw'[i].1 == Get(raw, t, 0.0) + v as real && cnt'[i].1 == Get(cnt, t, 0) + 1)
      && (raw'[i].0 != t ==> i < |raw| && raw'[i] == raw[i] && cnt'[i] == cnt[i])
  {
    var raw' := Record(raw, cnt, t, v).0;
    var cnt' := Record(raw, cnt, t, v).1;
    assert Keys(raw')[i] == Keys(cnt')[i];
    if t in Keys(raw) {
      var j := IndexOf(raw, t);
      assert Keys(raw)[j] == Keys(cnt)[j];
      GetAt(cnt, j, 0);
      assert raw' == raw[j := (t, Get(raw, t, 0.0) + v as real)];
      assert cnt' == cnt[j := (t, Get(cnt, t, 0) + 1)];
    } else {
      assert raw' == raw + [(t, Get(raw, t, 0.0) + v as real)];
      assert cnt' == cnt + [(t, Get(cnt, t, 0) + 1)];
    }
  }

  /** Recording an answer on the 1..5 scale keeps every sum between 1 and 5
      times its count. */
  lemma RecordKeepsLikertSums(raw: Dict<string, real>, cnt: Dict<string, nat>, t: string, v: int)
    requires Keys(raw) == Keys(cnt) && LikertSums(raw, cnt)
    requires 1 <= v <= 5
    ensures LikertSums(Record(raw, cnt, t, v).0, Record(raw, cnt, t, v).1)
  {
    var raw' := Record(raw, cnt, t, v).0;
    var cnt' := Record(raw, cnt, t, v).1;
    assert |raw'| == |cnt'| by {
      assert Keys(raw') == Keys(cnt');
    }
    forall i | 0 <= i < |raw'|
      ensures cnt'[i].1 as real <= raw'[i].1 <= 5.0 * cnt'[i].1 as real
    {
      RecordAt(raw, cnt, t, v, i);
      if raw'[i].0 == t && t in Keys(raw) {
        var j := IndexOf(raw, t);
        assert Keys(raw)[j] == Keys(cnt)[j];
        GetAt(raw, j, 0.0);
        GetAt(cnt, j, 0);
      }
    }
  }

  /** The finalized value of one trait: `(avg - 1) / 4`, where the average is
      `sum / count`, or 3 when the trait got no answers.  An unanswered trait
      is exactly 0.5 and an average on the 1..5 scale lands in [0, 1]. */
  function TraitValue(sum: real, count: nat): (x: real)
    ensures count == 0 ==> x == 0.5
    ensures count > 0 && count as real <= sum <= 5.0 * count as real ==> 0.0 <= x <= 1.0
  {
    var avg := if count == 0 then 3.0 else sum / count as real;
    (avg - 1.0) / 4.0
  }

  /** The `traits` mapping `finalize` builds: one entry per key of `raw`, in
      the same order. */
  function Finalized(raw: Dict<string, real>, cnt: Dict<string, nat>): (traits: Dict<string, real>)
    requires Keys(raw) == Keys(cnt)
    ensures Keys(traits) == Keys(raw)
    ensures forall i :: 0 <= i < |traits| && cnt[i].1 == 0 ==> traits[i].1 == 0.5
    ensures LikertSums(raw, cnt) ==> forall i :: 0 <= i < |traits| ==> 0.0 <= traits[i].1 <= 1.0
  {
    assert forall i :: 0 <= i < |raw| ==> Keys(raw)[i] == raw[i].0;
    seq(|raw|, i requires 0 <= i < |raw| => (raw[i].0, TraitValue(raw[i].1, cnt[i].1)))
  }

  /** One step of `finalize`'s loop: the `i`-th key of `raw` is new to the
      traits built so far, its lookups find the `i`-th sum and count, and it
      extends the traits by one entry. */
  lemma FinalizeStep(raw: Dict<string, real>, cnt: Dict<string, nat>, i: nat)
    requires Keys(raw) == Keys(cnt) && i < |raw|
    requires Keys(raw[..i]) == Keys(cnt[..i])
    ensures Keys(raw[..i + 1]) == Keys(cnt[..i + 1])
    ensures Get(raw, raw[i].0, 0.0) == raw[i].1 && Get(cnt, raw[i].0, 0) == cnt[i].1
    ensures raw[i].0 !in Keys(Finalized(raw[..i], cnt[..i]))
    ensures Finalized(raw[..i + 1], cnt[..i + 1])
            == Finalized(raw[..i], cnt[..i]) + [(raw[i].0, TraitValue(raw[i].1, cnt[i].1))]
  {
    assert Keys(raw)[i] == Keys(cnt)[i];
    assert Keys(raw[..i + 1]) == Keys(raw)[..i + 1] && Keys(cnt[..i + 1]) == Keys(cnt)[..i + 1];
    GetAt(raw, i, 0.0);
    GetAt(cnt, i, 0);
    assert forall j :: 0 <= j < i ==> Keys(raw[..i])[j] == raw[j].0;
  }

  /** A profile nobody answered finalizes to 0.5 for each of the six traits. */
  lemma FinalizeFresh()
    ensures Keys(Finalized(InitialSums(), InitialCounts())) == TRAITS
    ensures forall i :: 0 <= i < 6 ==> Finalized(InitialSums(), InitialCounts())[i].1 == 0.5
  {
  }

  /** The survey state (the `UserProfile` dataclass): per-trait answer sums and
      counts, and the normalized traits computed from them by `Finalize`. */
  class UserProfile {
    var raw: Dict<string, real>
    var cnt: Dict<string, nat>
    var traits: Dict<string, real>

    /** `raw` and `cnt` always hold the same keys in the same order. */
    ghost predicate Valid()
      reads this
    {
      Keys(raw) == Keys(cnt)
    }

    /** A fresh profile: the six traits with sum and count 0, no traits yet. */
    constructor ()
      ensures Valid()
      ensures raw == InitialSums() && cnt == InitialCounts() && traits == []
    {
      raw := InitialSums();
      cnt := InitialCounts();
      traits := [];
    }

    /** Records one answer for `trait`, reverse-scored when `reverse` holds. */
    method UpdateTrait(t: string, score: int, reverse: bool)
      requires Valid()
      modifies this
      ensures Valid()
      ensures (raw, cnt) == Record(old(raw), old(cnt), t, Adjusted(score, reverse))
      ensures traits == old(traits)
    {
      var v := Adjusted(score, reverse);
      var sums, counts := raw, cnt;
      ghost var target := Record(sums, counts, t, v);
      assert Keys(target.0) == Keys(target.1) by {
        RecordEffect(sums, counts, t, v, t);
      }
      if t !in Keys(sums) {
        RecordFromZero(sums, counts, t, v);
        sums := Put(sums, t, 0.0);
        counts := Put(counts, t, 0);
      }
      assert Record(sums, counts, t, v) == target;
      sums := Put(sums, t, Get(sums, t, 0.0) + v as real);
      counts := Put(counts, t, Get(counts, t, 0) + 1);
      raw, cnt := sums, counts;
    }

    /** Rebuilds `traits` from the sums and counts, which it leaves as they
        were; calling it again therefore rebuilds the same `traits`. */
    method Finalize()
      requires Valid()
      modifies this`traits
      ensures traits == Finalized(raw, cnt)
    {
      traits := [];
      var i := 0;
      while i < |raw|
        invariant 0 <= i <= |raw|
        invariant Keys(raw[..i]) == Keys(cnt[..i])
        invariant traits == Finalized(raw[..i], cnt[..i])
      {
        var t := raw[i].0;
        FinalizeStep(raw, cnt, i);
        var c := Get(cnt, t, 0);
        var avg := if c == 0 then 3.0 else Get(raw, t, 0.0) / c as real;
        traits := Put(traits, t, (avg - 1.0) / 4.0);
        i := i + 1;
      }
      assert raw[..i] == raw && cnt[..i] == cnt;
    }
  }

  /** The four preference ratings a user gives (1..5 each, default 3). */
  datatype Preferences = Preferences(salary: int, stability: int, creativity: int, social: int)

  /** Neutral preferences, used when none are given. */
  const DEFAULT_PREFERENCES := Preferences(3, 3, 3, 3)

  /** The preference keys, in the order `to_weights` lists them. */
  const PREFERENCE_KEYS: seq<string> := ["salary", "stability", "creativity", "social"]

  function Max(a: int, b: int): int { if a < b then b else a }

  /** The ratings with anything below 1 counted as 1, in key order. */
  function Floored(p: Preferences): (vals: seq<int>)
    ensures |vals| == 4 && forall i :: 0 <= i < 4 ==> vals[i] >= 1
  {
    [Max(1, p.salary), Max(1, p.stability), Max(1, p.creativity), Max(1, p.social)]
  }

  /** The sum of the floored ratings (at least 4). */
  function FlooredTotal(p: Preferences): (s: int)
    ensures s >= 4
  {
    var vals := Floored(p);
    vals[0] + vals[1] + vals[2] + vals[3]
  }

  /** `to_weights`: each floored rating divided by the sum of the four. */
  function ToWeights(p: Preferences): (w: Dict<string, real>)
    ensures Keys(w) == PREFERENCE_KEYS
  {
    var vals := Floored(p);
    var s := FlooredTotal(p) as real;
    [("salary", vals[0] as real / s), ("stability", vals[1] as real / s),
     ("creativity", vals[2] as real / s), ("social", vals[3] as real / s)]
  }

  /** The weight at position `i` is the `i`-th floored rating over their total. */
  lemma WeightAt(p: Preferences, i: nat)
    requires i < 4
    ensures ToWeights(p)[i].1 == Floored(p)[i] as real / FlooredTotal(p) as real
  {
  }

  /** Every weight is positive and proportional to its rating floored at 1. */
  lemma WeightsProportional(p: Preferences)
    ensures forall i :: 0 <= i < 4 ==> ToWeights(p)[i].1 > 0.0
    ensures forall i :: 0 <= i < 4 ==>
      ToWeights(p)[i].1 * FlooredTotal(p) as real == Floored(p)[i] as real
  {
    forall i | 0 <= i < 4
      ensures ToWeights(p)[i].1 > 0.0
      ensures ToWeights(p)[i].1 * FlooredTotal(p) as real == Floored(p)[i] as real
    {
      var x := Floored(p)[i] as real;
      var s := FlooredTotal(p) as real;
      WeightAt(p, i);
      DivPositive(x, s);
      DivTimes(x, s);
    }
  }

  /** The four weights sum to 1. */
  lemma WeightsSumToOne(p: Preferences)
    ensures Sum(Values(ToWeights(p))) == 1.0
  {
    var vals := Floored(p);
    var s := FlooredTotal(p) as real;
    var (a, b, c, d) := (vals[0] as real, vals[1] as real, vals[2] as real, vals[3] as real);
    assert Values(ToWeights(p)) == [a / s, b / s, c / s, d / s];
    SumFour(a / s, b / s, c / s, d / s);
    DivAdd(a, b, s);
    DivAdd(a + b, c, s);
    DivAdd(a + b + c, d, s);
    assert a + b + c + d == s;
    DivSelf(s);
    assert (a + b + c + d) / s == s / s;
  }

  /** A rating below 1 weighs the same as a rating of 1. */
  lemma ToWeightsFloorsAtOne(p: Preferences)
    ensures ToWeights(p) == ToWeights(Preferences(Max(1, p.salary), Max(1, p.stability),
                                                  Max(1, p.creativity), Max(1, p.social)))
  {
  }

  /** Neutral preferences weigh each key 0.25. */
  lemma DefaultWeights()
    ensures ToWeights(DEFAULT_PREFERENCES) ==
      [("salary", 0.25), ("stability", 0.25), ("creativity", 0.25), ("social", 0.25)]
  {
  }
}
