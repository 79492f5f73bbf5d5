/** The personality survey (main.py): turning validated question records into
    questions, asking for a Likert answer until one is in range, and folding
    the answers into a user profile. */
module Survey {
  import opened Wrappers
  import opened Dicts
  import opened Models
  import opened Validation

  /** Python's truth value of a JSON value: `null`, `false`, zero, and empty
      strings, lists and objects are false. */
  predicate Truthy(j: Json) {
    match j
    case JNull => false
    case JBool(b) => b
    case JNum(n) => n != 0.0
    case JStr(s) => s != []
    case JArr(xs) => xs != []
    case JObj(f) => f != []
  }

  /** A survey statement (the `Question` dataclass; `code` is its `trait`
      field, a word Dafny reserves).  Only `text`, `code`
      and `reverse` are used; `reverse` is kept as the truth value that
      `update_trait` tests. */
  datatype Question = Question(id: Json, text: Json, code: string, reverse: bool)

  /** What taking the survey can raise: `Question(**q)` rejects a key the
      dataclass does not declare (`TypeError`), and reading past the last
      line of input raises `EOFError`. */
  datatype SurveyError = UnexpectedKey(index: nat, key: string) | EndOfInput

  /** The first key of `f` from position `k` on that is not a question field. */
  function ExtraKey(f: Dict<string, Json>, k: nat): (r: Option<string>)
    requires k <= |f|
    decreases |f| - k
    ensures r.None? <==> forall j :: k <= j < |f| ==> f[j].0 in REQUIRED_QUESTION_KEYS
    ensures r.Some? ==> r.value in Keys(f) && r.value !in REQUIRED_QUESTION_KEYS
  {
    if k == |f| then None
    else if f[k].0 !in REQUIRED_QUESTION_KEYS then
      assert Keys(f)[k] == f[k].0;
      Some(f[k].0)
    else ExtraKey(f, k + 1)
  }

  /** `Question(**q)` for the `i`-th validated record. */
  function MakeQuestion(q: Json, i: nat): (r: Result<Question, SurveyError>)
    requires WellFormedQuestion(q)
    ensures r.Ok? <==> forall k :: k in Keys(q.fields) ==> k in REQUIRED_QUESTION_KEYS
    ensures r.Ok? ==> && r.value.code in VALID_TRAITS
                      && r.value.text == Get(q.fields, "text", JNull)
                      && r.value.reverse == Truthy(Get(q.fields, "reverse", JNull))
    ensures r.Err? ==> r.error.UnexpectedKey? && r.error.index == i
    ensures r.Ok? <==> ExtraKey(q.fields, 0).None?
  {
    var f := q.fields;
    assert forall k :: k in Keys(f) <==> exists j :: 0 <= j < |f| && f[j].0 == k by {
      assert forall j :: 0 <= j < |f| ==> Keys(f)[j] == f[j].0;
    }
    match ExtraKey(f, 0)
    case Some(k) => Err(UnexpectedKey(i, k))
    case None =>
      Ok(Question(Get(f, "id", JNull), Get(f, "text", JNull), Get(f, "trait", JNull).s,
                  Truthy(Get(f, "reverse", JNull))))
  }

  /** The first record from position `k` on that has a key `Question`
      does not declare. */
  function FirstWithExtraKey(data: seq<Json>, k: nat): (r: Option<nat>)
    requires k <= |data|
    requires forall i :: 0 <= i < |data| ==> data[i].JObj?
    decreases |data| - k
    ensures r.None? <==> forall j :: k <= j < |data| ==> ExtraKey(data[j].fields, 0).None?
    ensures r.Some? ==> && k <= r.value < |data| && ExtraKey(data[r.value].fields, 0).Some?
                        && forall j :: k <= j < r.value ==> ExtraKey(data[j].fields, 0).None?
  {
    if k == |data| then None
    else if ExtraKey(data[k].fields, 0).Some? then Some(k)
    else FirstWithExtraKey(data, k + 1)
  }

  /** `[Question(**q) for q in questions_data]`: every record becomes a
      question, or the first record with an extra key stops the
      comprehension. */
  function MakeQuestions(data: seq<Json>): (r: Result<seq<Question>, SurveyError>)
    requires forall i :: 0 <= i < |data| ==> WellFormedQuestion(data[i])
    ensures r.Ok? ==> |r.value| == |data|
    ensures r.Ok? ==> forall i :: 0 <= i < |data| ==> MakeQuestion(data[i], i) == Ok(r.value[i])
    ensures r.Err? ==> exists i :: && 0 <= i < |data| && MakeQuestion(data[i], i) == Err(r.error)
                                   && forall j :: 0 <= j < i ==> MakeQuestion(data[j], j).Ok?
  {
    assert forall i :: 0 <= i < |data| ==> data[i].JObj? by {
      forall i | 0 <= i < |data|
        ensures data[i].JObj?
      {
        assert WellFormedQuestion(data[i]);
      }
    }
    match FirstWithExtraKey(data, 0)
    case Some(i) => Err(MakeQuestion(data[i], i).error)
    case None => Ok(seq(|data|, i requires 0 <= i < |data| => MakeQuestion(data[i], i).value))
  }

  // ---------------------------------------------------------------------------
  // Reading answers
  // ---------------------------------------------------------------------------

  /** A line of input that `int()` parses to a value in `[low, high]`. */
  predicate InRange(line: Option<int>, low: int, high: int) {
    line.Some? && low <= line.value <= high
  }

  /** The position of the first line `ask_likert` accepts. */
  function FirstInRange(lines: seq<Option<int>>, low: int, high: int): (r: Option<nat>)
    ensures r.None? <==> forall k :: 0 <= k < |lines| ==> !InRange(lines[k], low, high)
    ensures r.Some? ==> && r.value < |lines| && InRange(lines[r.value], low, high)
                        && forall k :: 0 <= k < r.value ==> !InRange(lines[k], low, high)
  {
    if lines == [] then None
    else if InRange(lines[0], low, high) then Some(0)
    else
      match FirstInRange(lines[1..], low, high)
      case None =>
        assert forall k :: 1 <= k < |lines| ==> lines[k] == lines[1..][k - 1];
        None
      case Some(k) =>
        assert forall j :: 1 <= j < k + 1 ==> lines[j] == lines[1..][j - 1];
        Some(k + 1)
  }

  /** One call of `ask_likert`: the first accepted answer and the lines left
      after it, or `None` when the input ends first. */
  function Ask(lines: seq<Option<int>>, low: int, high: int): (r: Option<(int, seq<Option<int>>)>)
    ensures r.Some? ==> low <= r.value.0 <= high && |r.value.1| < |lines|
  {
    match FirstInRange(lines, low, high)
    case None => None
    case Some(k) => Some((lines[k].value, lines[k + 1..]))
  }

  /** `n` successive calls of `ask_likert`: the answers in order and the lines
      left, or `None` when the input ends before the `n`-th answer. */
  function Answers(lines: seq<Option<int>>, n: nat, low: int, high: int)
    : (r: Option<(seq<int>, seq<Option<int>>)>)
    ensures r.Some? ==> |r.value.0| == n
    ensures r.Some? ==> forall k :: 0 <= k < n ==> low <= r.value.0[k] <= high
  {
    if n == 0 then Some(([], lines))
    else
      match Answers(lines, n - 1, low, high)
      case None => None
      case Some((xs, rest)) =>
        match Ask(rest, low, high)
        case None => None
        case Some((v, rest')) => Some((xs + [v], rest'))
  }

  /** Asking once more after `i` answers extends them by the next accepted
      line. */
  lemma AnswersStep(lines: seq<Option<int>>, i: nat, xs: seq<int>, rest: seq<Option<int>>, low: int, high: int)
    requires Answers(lines, i, low, high) == Some((xs, rest))
    ensures Answers(lines, i + 1, low, high)
            == match Ask(rest, low, high)
               case None => None
               case Some((v, rest')) => Some((xs + [v], rest'))
  {
  }

  /** Once the input has run out, every later question fails as well. */
  lemma {:induction false} AnswersStayMissing(lines: seq<Option<int>>, n: nat, m: nat, low: int, high: int)
    requires n <= m && Answers(lines, n, low, high).None?
    ensures Answers(lines, m, low, high).None?
    decreases m
  {
    if n < m {
      AnswersStayMissing(lines, n, m - 1, low, high);
    }
  }

  /** The user at the terminal: the lines still to be typed, each already
      passed through `int()` (`None` where `int()` raises `ValueError`). */
  class Terminal {
    var lines: seq<Option<int>>

    constructor (lines: seq<Option<int>>)
      ensures this.lines == lines
    {
      this.lines := lines;
    }

    /** `ask_likert`: reads lines until one holds an integer in
        `[low, high]`; a line out of range or not an integer is skipped after
        a complaint.  `None` stands for the `EOFError` raised when the lines
        run out. */
    method AskLikert(low: int, high: int) returns (r: Option<int>)
      modifies this
      ensures match Ask(old(lines), low, high)
              case None => r.None? && lines == []
              case Some((v, rest)) => r == Some(v) && lines == rest
      ensures r.Some? ==> low <= r.value <= high
    {
      ghost var start := lines;
      while lines != []
        invariant |lines| <= |start| && lines == start[|start| - |lines|..]
        invariant forall k :: 0 <= k < |start| - |lines| ==> !InRange(start[k], low, high)
        decreases |lines|
      {
        var line := lines[0];
        assert start[|start| - |lines|] == line;
        lines := lines[1..];
        if line.Some? && low <= line.value <= high {
          assert FirstInRange(start, low, high) == Some(|start| - |lines| - 1);
          return Some(line.value);
        }
      }
      assert FirstInRange(start, low, high).None?;
      return None;
    }
  }

  // ---------------------------------------------------------------------------
  // Folding the answers into a profile
  // ---------------------------------------------------------------------------

  /** The sums and counts after recording the answers to `qs` in order,
      starting from a fresh profile. */
  function Recorded(qs: seq<Question>, answers: seq<int>): (r: (Dict<string, real>, Dict<string, nat>))
    requires |answers| == |qs|
    ensures Keys(r.0) == Keys(r.1)
  {
    if qs == [] then (InitialSums(), InitialCounts())
    else
      var n := |qs| - 1;
      var prev := Recorded(qs[..n], answers[..n]);
      RecordEffect(prev.0, prev.1, qs[n].code, Adjusted(answers[n], qs[n].reverse), qs[n].code);
      Record(prev.0, prev.1, qs[n].code, Adjusted(answers[n], qs[n].reverse))
  }

  /** Recording one more answer extends the fold by one step. */
  lemma RecordedStep(qs: seq<Question>, xs: seq<int>, v: int, i: nat)
    requires |xs| == i < |qs|
    ensures Recorded(qs[..i + 1], xs + [v])
            == Record(Recorded(qs[..i], xs).0, Recorded(qs[..i], xs).1, qs[i].code, Adjusted(v, qs[i].reverse))
  {
    var q1, a1 := qs[..i + 1], xs + [v];
    assert q1[..i] == qs[..i] && a1[..i] == xs;
    assert q1[i] == qs[i] && a1[i] == v;
    assert Recorded(q1, a1)
           == Record(Recorded(q1[..i], a1[..i]).0, Recorded(q1[..i], a1[..i]).1,
                     q1[i].code, Adjusted(a1[i], q1[i].reverse));
  }

  /** How many of the questions are about trait `t`. */
  function TraitCount(qs: seq<Question>, t: string): (n: nat)
    ensures n <= |qs|
  {
    if qs == [] then 0
    else TraitCount(qs[..|qs| - 1], t) + (if qs[|qs| - 1].code == t then 1 else 0)
  }

  /** The sum of the reverse-scored answers to the questions about `t`. */
  function TraitSum(qs: seq<Question>, answers: seq<int>, t: string): real
    requires |answers| == |qs|
  {
    if qs == [] then 0.0
    else
      var n := |qs| - 1;
      TraitSum(qs[..n], answers[..n], t)
      + (if qs[n].code == t then Adjusted(answers[n], qs[n].reverse) as real else 0.0)
  }

  /** A fresh profile has sum 0 and count 0 for every trait, listed or not. */
  lemma FreshTotals(t: string)
    ensures Get(InitialSums(), t, 0.0) == 0.0 && Get(InitialCounts(), t, 0) == 0
  {
    if t in Keys(InitialSums()) {
      GetAt(InitialSums(), IndexOf(InitialSums(), t), 0.0);
      GetAt(InitialCounts(), IndexOf(InitialCounts(), t), 0);
    }
  }

  /** `take_survey` applies `update_trait` once per question: each trait's
      count is the number of its questions and its sum is the sum of their
      reverse-scored answers. */
  lemma {:induction false} RecordedTotals(qs: seq<Question>, answers: seq<int>, t: string)
    requires |answers| == |qs|
    ensures Get(Recorded(qs, answers).1, t, 0) == TraitCount(qs, t)
    ensures Get(Recorded(qs, answers).0, t, 0.0) == TraitSum(qs, answers, t)
  {
    if qs == [] {
      FreshTotals(t);
    } else {
      var n := |qs| - 1;
      var prev := Recorded(qs[..n], answers[..n]);
      var v := Adjusted(answers[n], qs[n].reverse);
      assert Recorded(qs, answers) == Record(prev.0, prev.1, qs[n].code, v);
      assert TraitCount(qs, t) == TraitCount(qs[..n], t) + (if qs[n].code == t then 1 else 0);
      assert TraitSum(qs, answers, t) == TraitSum(qs[..n], answers[..n], t) + (if qs[n].code == t then v as real else 0.0);
      RecordedTotals(qs[..n], answers[..n], t);
      RecordEffect(prev.0, prev.1, qs[n].code, v, t);
    }
  }

  /** Questions about the six traits add no key: the profile lists exactly
      the six traits, in their fixed order. */
  lemma {:induction false} RecordedKeys(qs: seq<Question>, answers: seq<int>)
    requires |answers| == |qs|
    requires forall i :: 0 <= i < |qs| ==> qs[i].code in VALID_TRAITS
    ensures Keys(Recorded(qs, answers).0) == TRAITS
  {
    if qs != [] {
      var n := |qs| - 1;
      RecordedKeys(qs[..n], answers[..n]);
      ValidTraitsAreProfileTraits();
    }
  }

  /** Answers on the 1..5 scale keep every sum between 1 and 5 times its
      count. */
  lemma {:induction false} RecordedLikert(qs: seq<Question>, answers: seq<int>)
    requires |answers| == |qs|
    requires forall i :: 0 <= i < |answers| ==> 1 <= answers[i] <= 5
    ensures LikertSums(Recorded(qs, answers).0, Recorded(qs, answers).1)
  {
    if qs != [] {
      var n := |qs| - 1;
      var prev := Recorded(qs[..n], answers[..n]);
      RecordedLikert(qs[..n], answers[..n]);
      RecordKeepsLikertSums(prev.0, prev.1, qs[n].code, Adjusted(answers[n], qs[n].reverse));
    }
  }

  /** The finalized value of each trait is `(avg - 1) / 4` of the average
      reverse-scored answer to its questions (0.5 when it had none), and it
      lies in [0, 1]. */
  lemma SurveyTraitValue(qs: seq<Question>, answers: seq<int>, t: string)
    requires |answers| == |qs|
    requires forall i :: 0 <= i < |answers| ==> 1 <= answers[i] <= 5
    requires t in Keys(Recorded(qs, answers).0)
    ensures var (raw, cnt) := Recorded(qs, answers);
      && Get(Finalized(raw, cnt), t, 0.0) == TraitValue(TraitSum(qs, answers, t), TraitCount(qs, t))
      && 0.0 <= Get(Finalized(raw, cnt), t, 0.0) <= 1.0
  {
    var (raw, cnt) := Recorded(qs, answers);
    var traits := Finalized(raw, cnt);
    var i := IndexOf(raw, t);
    assert Keys(raw)[i] == Keys(cnt)[i] && Keys(traits)[i] == Keys(raw)[i];
    GetAt(raw, i, 0.0);
    GetAt(cnt, i, 0);
    GetAt(traits, i, 0.0);
    RecordedTotals(qs, answers, t);
    RecordedLikert(qs, answers);
  }

  /** A survey of questions about the six traits, answered on the 1..5
      scale, finalizes to the six traits in order, each in [0, 1]. */
  lemma SurveyProfile(qs: seq<Question>, answers: seq<int>)
    requires |answers| == |qs|
    requires forall i :: 0 <= i < |qs| ==> qs[i].code in VALID_TRAITS
    requires forall i :: 0 <= i < |answers| ==> 1 <= answers[i] <= 5
    ensures var (raw, cnt) := Recorded(qs, answers);
      && Keys(Finalized(raw, cnt)) == TRAITS
      && forall i :: 0 <= i < |Finalized(raw, cnt)| ==> 0.0 <= Finalized(raw, cnt)[i].1 <= 1.0
  {
    RecordedKeys(qs, answers);
    RecordedLikert(qs, answers);
  }

  /** The loop of `take_survey`: asks each question in order and records
      the answer in `profile`, stopping with `false` when the input runs out. */
  method AskAll(qs: seq<Question>, term: Terminal, profile: UserProfile) returns (answered: bool)
    requires profile.Valid() && profile.raw == InitialSums() && profile.cnt == InitialCounts()
    modifies term, profile
    ensures profile.Valid() && profile.traits == old(profile.traits)
    ensures match Answers(old(term.lines), |qs|, 1, 5)
      case None => !answered && term.lines == []
      case Some((xs, rest)) =>
        && answered && term.lines == rest
        && (profile.raw, profile.cnt) == Recorded(qs, xs)
  {
    ghost var xs: seq<int> := [];
    var i := 0;
    while i < |qs|
      invariant 0 <= i <= |qs|
      invariant profile.Valid() && profile.traits == old(profile.traits)
      invariant Answers(old(term.lines), i, 1, 5) == Some((xs, term.lines))
      invariant |xs| == i
      invariant (profile.raw, profile.cnt) == Recorded(qs[..i], xs)
    {
      ghost var before := term.lines;
      var score := term.AskLikert(1, 5);
      AnswersStep(old(term.lines), i, xs, before, 1, 5);
      if score.None? {
        AnswersStayMissing(old(term.lines), i + 1, |qs|, 1, 5);
        return false;
      }
      profile.UpdateTrait(qs[i].code, score.value, qs[i].reverse);
      RecordedStep(qs, xs, score.value, i);
      xs := xs + [score.value];
      i := i + 1;
    }
    assert qs[..i] == qs;
    return true;
  }

  /** The second half of `take_survey`: asks the built questions with a
      fresh profile and normalizes it once every answer is in. */
  method Interview(qs: seq<Question>, term: Terminal) returns (r: Result<UserProfile, SurveyError>)
    requires forall k :: 0 <= k < |qs| ==> qs[k].code in VALID_TRAITS
    modifies term
    ensures match Answers(old(term.lines), |qs|, 1, 5)
      case None => r == Err(EndOfInput) && term.lines == []
      case Some((xs, rest)) =>
        && r.Ok? && fresh(r.value) && term.lines == rest
        && (r.value.raw, r.value.cnt) == Recorded(qs, xs)
        && r.value.traits == Finalized(r.value.raw, r.value.cnt)
    ensures r.Ok? ==> Keys(r.value.traits) == TRAITS
    ensures r.Ok? ==> forall i :: 0 <= i < |r.value.traits| ==> 0.0 <= r.value.traits[i].1 <= 1.0
  {
    ghost var answers := Answers(term.lines, |qs|, 1, 5);
    var profile := new UserProfile();
    var answered := AskAll(qs, term, profile);
    if !answered {
      return Err(EndOfInput);
    }
    profile.Finalize();
    SurveyProfile(qs, answers.value.0);
    return Ok(profile);
  }

  /** `take_survey`: builds every question first, then asks each one in
      order, records the answer and finally normalizes the profile. */
  method TakeSurvey(data: seq<Json>, term: Terminal) returns (r: Result<UserProfile, SurveyError>)
    requires forall i :: 0 <= i < |data| ==> WellFormedQuestion(data[i])
    modifies term
    ensures match MakeQuestions(data)
      case Err(e) => r == Err(e) && term.lines == old(term.lines)
      case Ok(qs) =>
        match Answers(old(term.lines), |qs|, 1, 5)
        case None => r == Err(EndOfInput) && term.lines == []
        case Some((xs, rest)) =>
          && r.Ok? && fresh(r.value) && term.lines == rest
          && (r.value.raw, r.value.cnt) == Recorded(qs, xs)
          && r.value.traits == Finalized(r.value.raw, r.value.cnt)
    ensures r.Ok? ==> Keys(r.value.traits) == TRAITS
    ensures r.Ok? ==> forall i :: 0 <= i < |r.value.traits| ==> 0.0 <= r.value.traits[i].1 <= 1.0
  {
    var made := MakeQuestions(data);
    if made.Err? {
      return Err(made.error);
    }
    var qs := made.value;
    assert forall k :: 0 <= k < |qs| ==> qs[k].code in VALID_TRAITS by {
      assert forall k :: 0 <= k < |qs| ==> MakeQuestion(data[k], k) == Ok(qs[k]);
    }
    r := Interview(qs, term);
  }
}
