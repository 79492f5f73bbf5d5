/** The checks the command-line entry point runs on the two data files before
    any survey starts (main.py).  The files are parsed JSON, so the checks take
    an arbitrary JSON value; each either passes or stops at the first problem
    with the error Python would raise there. */
module Validation {
  import opened Wrappers
  import opened Dicts
  import opened Builtins
  import Models

  /** A value `json.load` can return.  Objects keep their keys in file order. */
  datatype Json =
    | JNull
    | JBool(b: bool)
    | JNum(n: real)
    | JStr(s: string)
    | JArr(items: seq<Json>)
    | JObj(fields: Dict<string, Json>)

  /** What a check raises.  `index` is the position of the offending item;
      `TypeError` and `AttributeError` are the exceptions Python raises when
      an item has a shape the checks do not expect. */
  datatype ValidationError =
    | NotNonEmptyList
    | BadItem(index: nat)
    | UnknownTrait(index: nat)
    | UnknownWeightKey(index: nat, key: string)
    | NotNumeric(index: nat, key: string)
    | TypeError(index: nat)
    | AttributeError(index: nat)

  /** The item an error is about (every error but `NotNonEmptyList`). */
  predicate AboutItem(e: ValidationError, i: nat) {
    !e.NotNonEmptyList? && e.index == i
  }

  /** The six trait codes the checks accept. */
  const VALID_TRAITS: set<string> := {"E", "C", "O", "A", "N", "M"}

  /** The keys every question must have. */
  const REQUIRED_QUESTION_KEYS: seq<string> := ["id", "text", "trait", "reverse"]

  /** The accepted trait codes are exactly the traits a fresh profile lists. */
  lemma ValidTraitsAreProfileTraits()
    ensures forall t :: t in VALID_TRAITS <==> t in Models.TRAITS
  {
  }

  /** Lists and objects cannot be set members or dictionary keys. */
  predicate Hashable(j: Json) {
    !j.JArr? && !j.JObj?
  }

  /** The first error of a sequence of per-item outcomes: the check raises at
      the first failing item and never looks at the rest. */
  function FirstError(es: seq<Option<ValidationError>>): (r: Option<ValidationError>)
    ensures r.None? <==> forall i :: 0 <= i < |es| ==> es[i].None?
    ensures r.Some? ==> exists i :: 0 <= i < |es| && es[i] == r && forall j :: 0 <= j < i ==> es[j].None?
  {
    if es == [] then None
    else if es[0].Some? then
      es[0]
    else
      var r := FirstError(es[1..]);
      if r.Some? then
        var i :| 0 <= i < |es[1..]| && es[1..][i] == r && forall j :: 0 <= j < i ==> es[1..][j].None?;
        assert es[i + 1] == r && forall j :: 0 <= j < i + 1 ==> es[j].None?;
        r
      else
        assert forall i :: 1 <= i < |es| ==> es[i] == es[1..][i - 1];
        r
  }

  // ---------------------------------------------------------------------------
  // Questions
  // ---------------------------------------------------------------------------

  /** `required.issubset(x)`: Python builds a set from whatever iterating `x`
      yields (an object's keys, a list's elements, a string's characters) and
      raises `TypeError` (`None` here) when `x` is not iterable or yields a list
      or object. */
  function IsSubsetOf(keys: seq<string>, x: Json): Option<bool> {
    match x
    case JObj(f) => Some(forall k :: k in keys ==> k in Keys(f))
    case JArr(xs) =>
      if exists y :: y in xs && !Hashable(y) then None
      else Some(forall k :: k in keys ==> JStr(k) in xs)
    case JStr(s) => Some(forall k :: k in keys ==> |k| == 1 && k[0] in s)
    case _ => None
  }

  /** `q["trait"] not in valid_traits` for a question that has the key: a list
      or object cannot be looked up in a set. */
  function TraitCheck(v: Json, i: nat): (r: Option<ValidationError>)
    ensures r.None? <==> v.JStr? && v.s in VALID_TRAITS
    ensures r.Some? ==> AboutItem(r.value, i)
  {
    if !Hashable(v) then Some(TypeError(i))
    else if v.JStr? && v.s in VALID_TRAITS then None
    else Some(UnknownTrait(i))
  }

  /** The loop body of `validate_questions` for item `i`. */
  function QuestionCheck(q: Json, i: nat): (r: Option<ValidationError>)
    ensures r.Some? ==> AboutItem(r.value, i)
  {
    match IsSubsetOf(REQUIRED_QUESTION_KEYS, q)
    case None => Some(TypeError(i))
    case Some(false) => Some(BadItem(i))
    case Some(true) =>
      match q
      case JObj(f) => TraitCheck(Get(f, "trait", JNull), i)
      case _ => Some(TypeError(i))
  }

  /** `validate_questions`: `None` when it returns, else what it raises.  It
      rejects up front exactly what is not a non-empty list. */
  function ValidateQuestions(questions: Json): (r: Option<ValidationError>)
    ensures r == Some(NotNonEmptyList) <==> !questions.JArr? || questions.items == []
  {
    if !questions.JArr? || questions.items == [] then Some(NotNonEmptyList)
    else
      var qs := questions.items;
      var es := seq(|qs|, i requires 0 <= i < |qs| => QuestionCheck(qs[i], i));
      var r := FirstError(es);
      assert r != Some(NotNonEmptyList) by {
        if r.Some? {
          var i :| 0 <= i < |es| && es[i] == r;
          assert AboutItem(es[i].value, i);
        }
      }
      r
  }

  /** A question that passes: an object with the four keys whose `trait` is
      one of the six codes. */
  predicate WellFormedQuestion(q: Json) {
    && q.JObj?
    && (forall k :: k in REQUIRED_QUESTION_KEYS ==> k in Keys(q.fields))
    && Get(q.fields, "trait", JNull).JStr?
    && Get(q.fields, "trait", JNull).s in VALID_TRAITS
  }

  /** One question passes exactly when it is well formed. */
  lemma QuestionCheckSpec(q: Json, i: nat)
    ensures QuestionCheck(q, i).None? <==> WellFormedQuestion(q)
  {
    if q.JArr? {
      assert QuestionCheck(q, i).Some?;
    } else if q.JStr? {
      assert "id" in REQUIRED_QUESTION_KEYS;
      assert QuestionCheck(q, i) == Some(BadItem(i));
    }
  }

  /** `validate_questions` returns exactly when the input is a non-empty list
      of well-formed questions. */
  lemma QuestionsAccepted(questions: Json)
    ensures ValidateQuestions(questions).None?
            <==> && questions.JArr? && questions.items != []
                 && forall i :: 0 <= i < |questions.items| ==> WellFormedQuestion(questions.items[i])
  {
    if questions.JArr? && questions.items != [] {
      var qs := questions.items;
      var es := seq(|qs|, i requires 0 <= i < |qs| => QuestionCheck(qs[i], i));
      forall i | 0 <= i < |qs|
        ensures es[i].None? <==> WellFormedQuestion(qs[i])
      {
        QuestionCheckSpec(qs[i], i);
      }
    }
  }

  /** When `validate_questions` rejects an item, it is the first ill-formed
      question and every question before it is well formed. */
  lemma FirstBadQuestion(questions: Json, e: ValidationError)
    requires ValidateQuestions(questions) == Some(e) && !e.NotNonEmptyList?
    ensures questions.JArr? && e.index < |questions.items|
    ensures !WellFormedQuestion(questions.items[e.index])
    ensures forall j :: 0 <= j < e.index ==> WellFormedQuestion(questions.items[j])
  {
    var qs := questions.items;
    var es := seq(|qs|, i requires 0 <= i < |qs| => QuestionCheck(qs[i], i));
    var i :| 0 <= i < |es| && es[i] == Some(e) && forall j :: 0 <= j < i ==> es[j].None?;
    QuestionCheckSpec(qs[i], i);
    forall j | 0 <= j < i
      ensures WellFormedQuestion(qs[j])
    {
      assert es[j].None?;
      QuestionCheckSpec(qs[j], j);
    }
  }

  // ---------------------------------------------------------------------------
  // Careers
  // ---------------------------------------------------------------------------

  /** Values the `in` operator can search: objects (their keys), lists (their
      elements) and strings (their substrings). */
  predicate Searchable(x: Json) {
    x.JObj? || x.JArr? || x.JStr?
  }

  /** `s` occurs in `t` as a contiguous piece. */
  predicate IsSubstring(s: string, t: string) {
    exists k: nat :: k <= |t| && OccursAt(s, t, k)
  }

  /** `s` occurs in `t` starting at position `k`. */
  predicate OccursAt(s: string, t: string, k: nat) {
    k + |s| <= |t| && t[k..k + |s|] == s
  }

  /** `key in x` for a searchable `x`. */
  function Has(x: Json, key: string): bool
    requires Searchable(x)
  {
    match x
    case JObj(f) => key in Keys(f)
    case JArr(xs) => JStr(key) in xs
    case JStr(s) => IsSubstring(key, s)
  }

  /** ASCII digits, the digits `float()` accepts in the model. */
  predicate IsDigit(c: char) {
    '0' <= c <= '9'
  }

  /** Digits with single underscores between them, as in `1_000`. */
  predicate DigitPart(s: string) {
    && |s| > 0 && IsDigit(s[0]) && IsDigit(s[|s| - 1])
    && (forall k :: 0 <= k < |s| ==> IsDigit(s[k]) || s[k] == '_')
    && (forall k :: 0 <= k < |s| - 1 && s[k] == '_' ==> s[k + 1] != '_')
  }

  /** `s` with ASCII capitals turned into small letters. */
  function LowerAscii(s: string): (r: string)
    ensures |r| == |s|
  {
    seq(|s|, k requires 0 <= k < |s| => if 'A' <= s[k] <= 'Z' then (s[k] as int + 32) as char else s[k])
  }

  /** The position of the first character of `s` that is in `cs`, or `|s|`. */
  function FirstOf(s: string, cs: set<char>): (k: nat)
    ensures k <= |s|
    ensures forall j :: 0 <= j < k ==> s[j] !in cs
    ensures k < |s| ==> s[k] in cs
  {
    if s == [] || s[0] in cs then 0 else 1 + FirstOf(s[1..], cs)
  }

  /** `s` without one leading `+` or `-`. */
  function Unsigned(s: string): string {
    if |s| > 0 && (s[0] == '+' || s[0] == '-') then s[1..] else s
  }

  /** The part before an exponent: `digits`, `digits.`, `.digits` or
      `digits.digits`. */
  predicate Mantissa(m: string) {
    var d := FirstOf(m, {'.'});
    if d == |m| then DigitPart(m)
    else
      var whole, frac := m[..d], m[d + 1..];
      || (DigitPart(whole) && (frac == [] || DigitPart(frac)))
      || (whole == [] && DigitPart(frac))
  }

  /** The strings `float()` accepts once surrounding whitespace is removed:
      an optional sign, then `inf`, `infinity` or `nan` in any letter case, or
      a mantissa with an optional exponent `e`/`E`, optional sign, digits. */
  predicate FloatLiteral(s: string) {
    var t := Unsigned(s);
    if LowerAscii(t) in {"inf", "infinity", "nan"} then true
    else
      var k := FirstOf(t, {'e', 'E'});
      Mantissa(t[..k]) && (k == |t| || DigitPart(Unsigned(t[k + 1..])))
  }

  /** The JSON values `float()` converts. */
  predicate Numeric(w: Json) {
    w.JNum? || w.JBool? || (w.JStr? && FloatLiteral(Strip(w.s)))
  }

  /** `float(w)` for the weight `w` stored under trait `t`: numbers and
      booleans convert, a string converts when it spells a number (else
      `ValueError`), and anything else raises `TypeError`. */
  function NumberCheck(w: Json, i: nat, t: string): (r: Option<ValidationError>)
    ensures r.None? <==> Numeric(w)
    ensures r.Some? ==> AboutItem(r.value, i)
  {
    match w
    case JNum(_) => None
    case JBool(_) => None
    case JStr(s) => if FloatLiteral(Strip(s)) then None else Some(NotNumeric(i, t))
    case _ => Some(TypeError(i))
  }

  /** One pass of the inner loop over `c["weights"].items()`. */
  function WeightCheck(t: string, w: Json, i: nat): (r: Option<ValidationError>)
    ensures r.Some? ==> AboutItem(r.value, i)
  {
    if t !in VALID_TRAITS then Some(UnknownWeightKey(i, t)) else NumberCheck(w, i, t)
  }

  /** The inner loop over the weights, which must be an object (anything else
      has no `items` method). */
  function WeightsCheck(weights: Json, i: nat): (r: Option<ValidationError>)
    ensures r.Some? ==> AboutItem(r.value, i)
  {
    match weights
    case JObj(f) =>
      var es := seq(|f|, k requires 0 <= k < |f| => WeightCheck(f[k].0, f[k].1, i));
      var r := FirstError(es);
      assert r.Some? ==> exists k :: 0 <= k < |es| && es[k] == r;
      r
    case _ => Some(AttributeError(i))
  }

  /** The loop body of `validate_careers` for item `i`. */
  function CareerCheck(c: Json, i: nat): (r: Option<ValidationError>)
    ensures r.Some? ==> AboutItem(r.value, i)
  {
    if !Searchable(c) then Some(TypeError(i))
    else if !Has(c, "name") || !Has(c, "weights") then Some(BadItem(i))
    else
      match c
      case JObj(f) => WeightsCheck(Get(f, "weights", JNull), i)
      case _ => Some(TypeError(i))
  }

  /** `validate_careers`: `None` when it returns, else what it raises.  It
      rejects up front exactly what is not a non-empty list. */
  function ValidateCareers(careers: Json): (r: Option<ValidationError>)
    ensures r == Some(NotNonEmptyList) <==> !careers.JArr? || careers.items == []
  {
    if !careers.JArr? || careers.items == [] then Some(NotNonEmptyList)
    else
      var cs := careers.items;
      var es := seq(|cs|, i requires 0 <= i < |cs| => CareerCheck(cs[i], i));
      var r := FirstError(es);
      assert r != Some(NotNonEmptyList) by {
        if r.Some? {
          var i :| 0 <= i < |es| && es[i] == r;
          assert AboutItem(es[i].value, i);
        }
      }
      r
  }

  /** Weights that pass: every key is a trait code and every value converts
      to a number. */
  predicate WellFormedWeights(weights: Json) {
    && weights.JObj?
    && forall k :: 0 <= k < |weights.fields| ==>
         weights.fields[k].0 in VALID_TRAITS && Numeric(weights.fields[k].1)
  }

  /** A career that passes: an object with `name` and well-formed `weights`.
      Nothing else about it is looked at. */
  predicate WellFormedCareer(c: Json) {
    && c.JObj?
    && "name" in Keys(c.fields)
    && "weights" in Keys(c.fields)
    && WellFormedWeights(Get(c.fields, "weights", JNull))
  }

  /** One career passes exactly when it is well formed. */
  lemma CareerCheckSpec(c: Json, i: nat)
    ensures CareerCheck(c, i).None? <==> WellFormedCareer(c)
  {
    if c.JObj? && "name" in Keys(c.fields) && "weights" in Keys(c.fields) {
      var w := Get(c.fields, "weights", JNull);
      if w.JObj? {
        var f := w.fields;
        var es := seq(|f|, k requires 0 <= k < |f| => WeightCheck(f[k].0, f[k].1, i));
        assert forall k :: 0 <= k < |f| ==> (es[k].None? <==> f[k].0 in VALID_TRAITS && Numeric(f[k].1));
      }
    }
  }

  /** `validate_careers` returns exactly when the input is a non-empty list
      of well-formed careers. */
  lemma CareersAccepted(careers: Json)
    ensures ValidateCareers(careers).None?
            <==> && careers.JArr? && careers.items != []
                 && forall i :: 0 <= i < |careers.items| ==> WellFormedCareer(careers.items[i])
  {
    if careers.JArr? && careers.items != [] {
      var cs := careers.items;
      var es := seq(|cs|, i requires 0 <= i < |cs| => CareerCheck(cs[i], i));
      forall i | 0 <= i < |cs|
        ensures es[i].None? <==> WellFormedCareer(cs[i])
      {
        CareerCheckSpec(cs[i], i);
      }
    }
  }

  /** When `validate_careers` rejects an item, it is the first ill-formed
      career and every career before it is well formed. */
  lemma FirstBadCareer(careers: Json, e: ValidationError)
    requires ValidateCareers(careers) == Some(e) && !e.NotNonEmptyList?
    ensures careers.JArr? && e.index < |careers.items|
    ensures !WellFormedCareer(careers.items[e.index])
    ensures forall j :: 0 <= j < e.index ==> WellFormedCareer(careers.items[j])
  {
    var cs := careers.items;
    var es := seq(|cs|, i requires 0 <= i < |cs| => CareerCheck(cs[i], i));
    var i :| 0 <= i < |es| && es[i] == Some(e) && forall j :: 0 <= j < i ==> es[j].None?;
    CareerCheckSpec(cs[i], i);
    forall j | 0 <= j < i
      ensures WellFormedCareer(cs[j])
    {
      assert es[j].None?;
      CareerCheckSpec(cs[j], j);
    }
  }

  /** Only `name` (its presence) and `weights` of a career are inspected:
      setting any other field, such as `preferences`, to any value, or changing
      the value of `name`, leaves the outcome as it was. */
  lemma OnlyWeightsInspected(f: Dict<string, Json>, k: string, v: Json, i: nat)
    requires k != "weights"
    requires k == "name" ==> "name" in Keys(f)
    ensures CareerCheck(JObj(Put(f, k, v)), i) == CareerCheck(JObj(f), i)
  {
    PutGet(f, k, v, "weights", JNull);
  }
}
