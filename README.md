# Career matcher, modelled in Dafny

A model of the scoring pipeline of a small personality-to-career recommender
(Sydney career matcher, written in Python), with proofs of what each step
promises.

The pipeline has three parts.

- **Survey.** A user answers Likert statements (1 to 5). Some statements are
  reverse-scored. The answers are summed and counted per trait and then
  normalized into a profile with a value in [0, 1] for each of six traits:
  E, C, O, A, N and M. Four preference ratings become tie-break weights that
  sum to 1.
- **Ranking.** Each career is scored against the profile, either by a
  weighted sum or by cosine similarity. A small preference tie-break is
  added. Careers are ranked by a stable descending sort followed by a Python
  slice. Scores can be min-max normalized for display.
- **Explanation.** Each ranked career gets an explanation: up to two
  strengths, one watch-out or growth note, and an optional preference note.
  Before any of this, the question and career files are validated.

Modules, one per concern of the source:

- `Dicts`: Python dictionaries as association lists that keep insertion
  order. Assigning to a present key keeps its position.
- `Builtins`: `sum`, `str.strip()` and the slice `xs[:k]`.
- `Models` (models.py): the `UserProfile` class with `UpdateTrait` and
  `Finalize`, plus the preference weights.
- `Scoring`, `Normalize`, `Ranking`, `Explanation` and `Recommender`
  (engine.py).
  - `Recommender` is a class whose `Score` and `Explain` methods are loops.
    Each is proved against a specification function.
- `Validation` and `Survey` (main.py).
  - `Validation` holds the two validators, over a JSON datatype.
  - `Survey` builds the questions and models `ask_likert` on a `Terminal`
    object that holds the lines still to be typed. It also holds the survey
    loop.

Python exceptions become error values:

- `ValidationError` for the validators.
- `SurveyError` for `Question(**q)` and for running out of input.
- `ExplainError` for `next()` finding no career.

Floats are modelled as `real`. `math.sqrt` is a function parameter. The model
only assumes that it is non-negative on non-negative input and is 0 exactly
at 0.

## Model

| member | source | states |
|---|---|---|
| Dicts.Put | engine.py:92 | assigning to a present key keeps the key list unchanged; a new key is appended at the end |
| Dicts.PutGet | engine.py:92 | after an assignment, the assigned key reads the new value and every other key reads what it read before |
| Dicts.FromItemsKeys | engine.py:84-93 | a dictionary filled by a sequence of assignments lists each assigned key once, in order of first assignment |
| Dicts.FromItemsLastWins | engine.py:84-93 | a key's value is the one given by its last assignment |
| Builtins.StripWithSpec | engine.py:86 | stripping removes exactly the characters of the given class at both ends: the result is a contiguous piece of the input that neither starts nor ends with such a character, and only such characters surround it |
| Builtins.StripSpec | engine.py:86 | `str.strip()` removes exactly the whitespace at both ends of the name |
| Models.Adjusted | models.py:23 | a reverse-scored answer is `6 - score`, otherwise the score itself; an answer on the 1..5 scale stays on it |
| Models.InitialSums | models.py:15 | a fresh profile's sums list exactly the six traits, in order, each 0 |
| Models.InitialCounts | models.py:16 | a fresh profile's counts list exactly the six traits, in order, each 0 |
| Models.RecordEffect | models.py:19-25 | recording adds the adjusted value to the trait's sum and 1 to its count; every other trait's sum and count are unchanged; sums and counts keep the same keys |
| Models.Record | models.py:19-25 | one `update_trait` step on the sums and counts; what it does is stated by Models.RecordEffect, Models.RecordFromZero and Models.RecordNewTrait |
| Models.RecordFromZero | models.py:20-22 | creating zero entries for an absent trait before recording gives the same state as recording straight away |
| Models.RecordNewTrait | models.py:20-25 | a trait seen for the first time is appended with sum equal to the adjusted value and count 1 |
| Models.RecordAt | models.py:19-25 | position by position, recording changes only the recorded trait's entry |
| Models.RecordKeepsLikertSums | models.py:23-25 | recording an answer in 1..5 keeps every sum between 1 and 5 times its count |
| Models.TraitValue | models.py:30-34 | a trait with no answers gets exactly 0.5; an average on the 1..5 scale gives a value in [0, 1] |
| Models.Finalized | models.py:27-34 | the finalized traits have exactly the keys of the sums, in order; unanswered traits are 0.5; with sums on the Likert scale every value is in [0, 1] |
| Models.FinalizeStep | models.py:29-34 | each loop step looks up the i-th sum and count, adds a key not yet present, and extends the traits by one entry |
| Models.FinalizeFresh | models.py:27-34 | a profile nobody answered finalizes to 0.5 for each of the six traits |
| Models.UserProfile.constructor | models.py:13-17 | a new profile holds the six traits with sum and count 0 and no finalized traits |
| Models.UserProfile.UpdateTrait | models.py:19-25 | the new sums and counts are those of recording the adjusted answer; `traits` is untouched; sums and counts keep equal key lists |
| Models.UserProfile.Finalize | models.py:27-34 | only `traits` changes and it becomes the finalized mapping of the unchanged sums and counts, so a second call rebuilds the same mapping |
| Models.Floored | models.py:44-49 | the four ratings in key order, each at least 1 |
| Models.FlooredTotal | models.py:50 | the sum of the floored ratings is at least 4 |
| Models.ToWeights | models.py:43-51 | the weights have exactly the keys salary, stability, creativity, social, in that order |
| Models.WeightsProportional | models.py:44-51 | every weight is strictly positive, and the weight times the total gives back the floored rating |
| Models.WeightsSumToOne | models.py:50-51 | the four weights sum to 1 |
| Models.ToWeightsFloorsAtOne | models.py:44-49 | a rating below 1 weighs the same as a rating of 1 |
| Models.DefaultWeights | models.py:38-51 | the default ratings 3/3/3/3 give each key the weight 0.25 |
| Scoring.Dot | engine.py:52-54 | the weighted score is 0 for empty or all-zero weights and for a user whose traits on the weight keys are all 0 |
| Scoring.Squared | engine.py:59-60 | a square is never negative, and is 0 exactly for 0 |
| Scoring.TraitNormSquared | engine.py:59 | the squared trait norm is never negative and is 0 exactly when the user's traits on the weight keys are all 0 |
| Scoring.WeightNormSquared | engine.py:60 | the squared weight norm is never negative and is 0 exactly when every weight is 0 |
| Scoring.Cosine | engine.py:56-63 | the cosine score is 0.0 for all-zero weights or all-zero relevant traits; otherwise it is the dot product over a positive denominator, with the dot product's sign |
| Scoring.Score | engine.py:47-63 | either scorer gives 0.0 for empty or all-zero weights and for a user whose traits on the weight keys are all 0; per strategy, Scoring.Dot and Scoring.Cosine state the rest |
| Normalize.MinOf | engine.py:70 | `min` returns a member no larger than any other |
| Normalize.MaxOf | engine.py:70 | `max` returns a member no smaller than any other |
| Normalize.MinMaxEqualIffAllEqual | engine.py:70-73 | the minimum equals the maximum exactly when all scores are equal |
| Normalize.MinMaxNormalize | engine.py:66-74 | keys and their order are kept; an empty mapping stays empty; when all scores are equal every key maps to 1.0 |
| Normalize.NormalizedAt | engine.py:74 | when the scores are not all equal, each entry becomes its score rescaled by the minimum and maximum |
| Normalize.RescaleRange | engine.py:74 | a value between min and max rescales into [0, 1], with min going to 0 and max to 1 |
| Normalize.Rescale | engine.py:74 | `(v - mn) / (mx - mn)`; its range and monotonicity are stated by Normalize.RescaleRange and Normalize.RescaleMonotone |
| Normalize.RescaleMonotone | engine.py:74 | rescaling keeps both the strict and the non-strict order |
| Normalize.NormalizeRange | engine.py:69-74 | when the scores are not all equal, every normalized score is in [0, 1], a minimal entry maps to 0 and a maximal entry to 1 |
| Normalize.NormalizeKeepsOrder | engine.py:69-74 | normalization keeps the order between any two entries, strictly and non-strictly |
| Normalize.NormalizeIdempotent | engine.py:69-74 | a mapping with minimum 0 and maximum 1 is returned unchanged |
| Normalize.NormalizeTwice | engine.py:66-74 | normalizing a normalized mapping changes nothing |
| Ranking.Insert | engine.py:96 | inserting into the sorted prefix is a permutation that adds exactly one entry |
| Ranking.InsertOrdered | engine.py:96 | inserting into an ordered sequence keeps it ordered |
| Ranking.InsertStable | engine.py:96 | the inserted entry lands after every entry with the same score |
| Ranking.SortBy | engine.py:96 | `sorted` returns a permutation of its input |
| Ranking.SortOrdered | engine.py:96 | `sorted` output is ordered by the key, descending when `reverse=True` |
| Ranking.SortStable | engine.py:96 | entries with equal scores keep their input order, also with `reverse=True` |
| Ranking.SortUnique | engine.py:96 | any ordered sequence that keeps every score class in input order is exactly the sort's output |
| Ranking.TopKShape | engine.py:95-96 | `top_k` returns min(k, n) entries for k >= 0 and drops the last -k entries for negative k; the result is in non-increasing score order and holds only entries of the scores |
| Ranking.TopK | engine.py:95-96 | `top_k`; its length, order and contents are stated by Ranking.TopKShape, the choice of entries by Ranking.TopKBest and the order of ties by Ranking.TopKTies |
| Ranking.TopKBest | engine.py:95-96 | every entry left out scores no higher than every entry kept |
| Ranking.TopKTies | engine.py:95-96 | for each score, the kept entries with that score are the first ones of the mapping with it, in insertion order |
| Ranking.SortMap | engine.py:96 | sorting commutes with any rescaling that keeps the order of the scores |
| Ranking.NormalizeAllEqualAsMap | engine.py:71-73 | when all scores are equal, normalization is an order-keeping rescaling of every score |
| Ranking.NormalizeSpreadAsMap | engine.py:74 | otherwise normalization is one order-keeping rescaling of every score |
| Ranking.NormalizeKeepsRanking | engine.py:66-96 | ranking the normalized scores gives the same names in the same order as ranking the raw scores |
| Explanation.FirstMaxIndex | engine.py:111 | `max` with a key returns the first entry with the largest value |
| Explanation.FirstMinIndex | engine.py:122-125 | the position of the first entry with the smallest value |
| Explanation.Contributions | engine.py:120 | the contributions have exactly the weight keys, in weight order |
| Explanation.ContributionsSumToScore | engine.py:120 | the contributions add up to the weighted score |
| Explanation.Positives | engine.py:124 | the filter keeps only strictly positive entries |
| Explanation.PositivesCount | engine.py:124 | the filter keeps every positive entry as often as it occurs and drops every other entry |
| Explanation.PositivesOrdered | engine.py:121-124 | filtering a descending sequence keeps it descending |
| Explanation.StrengthsSpec | engine.py:121-124 | the strengths are min(2, number of positive contributions) entries, all strictly positive, highest first, taken from the contributions |
| Explanation.StrengthsOf | engine.py:121-124 | the strengths; stated by Explanation.StrengthsSpec and Explanation.StrengthsBest |
| Explanation.StrengthsBest | engine.py:121-124 | every contribution left out of the strengths scores no higher than every strength |
| Explanation.WatchIsFirstMin | engine.py:122-125 | the watch-out is absent exactly for empty weights; otherwise it is the first minimal contribution |
| Explanation.WatchOf | engine.py:122-125 | the watch-out; stated by Explanation.WatchIsFirstMin |
| Explanation.TopPreference | engine.py:107-111 | there is no preference note exactly when the preferences are empty; otherwise the note names the first key with maximal emphasis |
| Explanation.FitSegmentSpec | engine.py:130-134 | the fit segment is the generic one exactly when no contribution is positive; otherwise it names one or two strengths |
| Explanation.WatchSegmentsSpec | engine.py:136-148 | there is a watch segment exactly when there is a contribution; it names the first minimal contribution and is a conflict exactly when that contribution is not positive |
| Explanation.ExplanationShape | engine.py:127-155 | an explanation opens with the fit segment; a watch segment follows exactly when the career has weights; a preference note ends it exactly when the career has preferences; no later segment is a fit segment |
| Explanation.CareerExplanation | engine.py:117-155 | the explanation of one career; its segments are stated by Explanation.ExplanationShape |
| Recommender.TieBreakOnlyPreferenceKeys | engine.py:91 | only the preference keys count: careers whose preferences agree on them get the same tie-break |
| Recommender.TieBreakBounded | engine.py:91 | with non-negative weights and preference values in [0, m], the tie-break is between 0 and m times the total weight |
| Recommender.TieBreak | engine.py:91 | the preference tie-break `tb`; its bounds are stated by Recommender.TieBreakBounded and Recommender.PreferenceTieBreakBounded, and that it reads only the preference keys by Recommender.TieBreakOnlyPreferenceKeys |
| Recommender.CareerScore | engine.py:86-92 | a career with no base score (zero weights, or zero traits on its weight keys) scores exactly its scaled preference tie-break |
| Recommender.PreferenceTieBreakBounded | engine.py:80-92 | with the user's preference weights, a career whose four preference values lie in [0, m] gets a tie-break in [0, m] |
| Recommender.ScoresKeys | engine.py:84-93 | the scores hold one key per distinct trimmed career name, in order of first occurrence |
| Recommender.ScoresOf | engine.py:83-93 | the mapping `score` returns; its keys are stated by Recommender.ScoresKeys, its values by Recommender.ScoresLastWins |
| Recommender.ScoresLastWins | engine.py:84-93 | the value under a trimmed name is the score of the last career with that trimmed name |
| Recommender.FirstNamed | engine.py:116 | the lookup finds the first career whose name equals the ranked name exactly, or nothing when none does |
| Recommender.LastTrimmed | engine.py:86 | the corrected lookup finds the last career whose trimmed name is the ranked name, or nothing when none does |
| Recommender.FirstMissing | engine.py:115-116 | the first ranked name that no career matches, with every earlier name matched; nothing exactly when all are matched |
| Recommender.ExplanationsOkKeys | engine.py:105-157 | a successful `explain` records the distinct ranked names, in ranked order |
| Recommender.ExplanationsOkValues | engine.py:115-157 | a successful `explain` maps every ranked name to the explanation of the career the lookup matched |
| Recommender.ExplanationsOf | engine.py:98-157 | what `explain` returns or raises: the error for the first ranked name no career matches (Recommender.FirstMissing), otherwise the mapping stated by Recommender.ExplanationsOkKeys and Recommender.ExplanationsOkValues |
| Recommender.Recommender.constructor | engine.py:78-81 | the weighted scorer exactly for mode "weighted", the cosine scorer for any other mode; omitted preferences weigh as 3/3/3/3; the weights have the four preference keys |
| Recommender.Recommender.Score | engine.py:83-93 | the loop builds exactly the mapping of the assignments in career order, so it has one key per distinct trimmed name and the last career's score wins |
| Recommender.Recommender.Explain | engine.py:98-157 | the loop returns the error for the first ranked name with no exact match; otherwise it returns the mapping from ranked names to explanations |
| Recommender.NurseScores | engine.py:86-92 | the one career " Nurse" is scored under the key "Nurse" |
| Recommender.TopKSingle | engine.py:96 | ranking a single score keeps it |
| Recommender.TrimmedNameNotFound | engine.py:115-116 | a career named " Nurse" is ranked as "Nurse", and `explain` then fails to find "Nurse" |
| Recommender.RankedEntryScored | engine.py:84-96 | every ranked entry is a trimmed career name holding the score of the last career with that name |
| Recommender.ScoredLookupNeverFails | engine.py:115-116 | with the trimmed-name lookup, explaining the top k never fails, for any careers and any k, and each explanation uses the career whose score was ranked |
| Validation.ValidTraitsAreProfileTraits | main.py:107 | the accepted trait codes are exactly the six traits a fresh profile lists |
| Validation.FirstError | main.py:108-112 | a loop that raises at its first failing item: no error exactly when every item passes; otherwise the error of the first failing item |
| Validation.TraitCheck | main.py:111-112 | a question's trait passes exactly when it is a string among the six codes |
| Validation.QuestionCheck | main.py:108-112 | an error raised for a question names that question |
| Validation.QuestionCheckSpec | main.py:106-112 | a question passes exactly when it is an object with the four required keys and a valid trait code |
| Validation.ValidateQuestions | main.py:103-112 | `validate_questions` raises its up-front error exactly for input that is not a non-empty list; its item checks are stated by Validation.QuestionsAccepted and Validation.FirstBadQuestion |
| Validation.QuestionsAccepted | main.py:103-112 | `validate_questions` returns exactly when the input is a non-empty list of well-formed questions |
| Validation.FirstBadQuestion | main.py:108-112 | an item error names the first ill-formed question; every earlier question is well formed |
| Validation.NumberCheck | main.py:125 | `float(w)` raises for a value that is not numeric: numbers and booleans pass, and strings pass exactly when they are float literals with ASCII digits |
| Validation.WeightCheck | main.py:122-125 | an error raised for a weight names the career being checked |
| Validation.WeightsCheck | main.py:122-125 | an error raised for the weights names the career being checked |
| Validation.CareerCheck | main.py:119-125 | an error raised for a career names that career |
| Validation.CareerCheckSpec | main.py:118-125 | a career passes exactly when it is an object with `name` and with weights whose keys are trait codes and whose values convert to numbers |
| Validation.ValidateCareers | main.py:115-125 | `validate_careers` raises its up-front error exactly for input that is not a non-empty list; its item checks are stated by Validation.CareersAccepted and Validation.FirstBadCareer |
| Validation.CareersAccepted | main.py:115-125 | `validate_careers` returns exactly when the input is a non-empty list of well-formed careers |
| Validation.FirstBadCareer | main.py:119-125 | an item error names the first ill-formed career; every earlier career is well formed |
| Validation.OnlyWeightsInspected | main.py:119-125 | changing or adding any field other than `weights` (and other than removing `name`) does not change the outcome, so `preferences` is never inspected |
| Survey.ExtraKey | main.py:77 | finds a key of the record that is not a question field, or nothing exactly when every key is a field |
| Survey.MakeQuestion | main.py:77 | `Question(**q)` succeeds exactly when every key is a question field; the question then has the record's text, its trait code and the truthiness of its `reverse`; otherwise it raises for an unexpected key of that record |
| Survey.FirstWithExtraKey | main.py:77 | the first record with an unexpected key, or nothing exactly when there is none |
| Survey.MakeQuestions | main.py:77 | the comprehension either builds one question per record, in order, or raises the error of a record that fails |
| Survey.FirstInRange | main.py:47-51 | the first line holding an integer in [low, high], or nothing exactly when no line does |
| Survey.Ask | main.py:45-54 | an answer is always in [low, high], and answering consumes at least one line |
| Survey.Answers | main.py:79-80 | n successful prompts give n answers, each in [low, high] |
| Survey.AnswersStayMissing | main.py:79-80 | once the input has run out, every later prompt fails as well |
| Survey.Terminal.AskLikert | main.py:45-54 | the loop skips lines until one holds an integer in [low, high] and returns it, leaving the rest of the input; with none, it consumes all input and ends with end-of-input |
| Survey.Recorded | main.py:78-81 | folding the answers into a fresh profile keeps equal key lists for sums and counts |
| Survey.FreshTotals | models.py:15-16 | a fresh profile reads sum 0 and count 0 for every trait, listed or not |
| Survey.RecordedTotals | main.py:77-81 | after the survey, each trait's count is the number of its questions and its sum is the total of their adjusted answers |
| Survey.RecordedKeys | main.py:78-81 | questions about the six traits add no key: the profile lists exactly the six traits |
| Survey.RecordedLikert | main.py:79-81 | answers in 1..5 keep every sum between 1 and 5 times its count |
| Survey.SurveyTraitValue | main.py:78-82 | each finalized trait is `(avg - 1) / 4` of its adjusted answers' average (0.5 when it had no questions), and lies in [0, 1] |
| Survey.SurveyProfile | main.py:77-82 | a survey of valid questions answered on the 1..5 scale finalizes to exactly the six traits, each in [0, 1] |
| Survey.AskAll | main.py:79-81 | the loop asks every question in order and records each answer; when input runs out it stops without an answer |
| Survey.Interview | main.py:78-83 | asks with a fresh profile, records every answer in order, and finalizes once; the result has exactly the six traits, each in [0, 1] |
| Survey.TakeSurvey | main.py:75-83 | builds every question first, failing before any prompt on an unexpected key; then asks, records and finalizes; a returned profile has exactly the six traits, each in [0, 1] |

## Left out

- `ask_likert`'s prompt text and messages, `print` output, `intro` and
  `show_summary` are left out: they are terminal output only. `input()` and
  `int()` are represented by the `Terminal` lines. Each line is either the
  integer `int()` returns or nothing for a `ValueError`.
- Survey.Terminal.AskLikert: `int()` parsing is not modelled. A line is
  already the integer it parses to, or nothing when it does not parse.
- Survey.Terminal.AskLikert: the end of input is modelled as an
  `EndOfInput` error, where Python raises `EOFError`. `KeyboardInterrupt` is
  not modelled.
- `collect_preferences` (main.py:64-72) is not modelled. It is four prompts
  feeding `Preferences`, and the model starts from a `Preferences` value.
- `main` and its orchestration, logging and top-level exception handlers are
  left out.
- io_utils.py (file loading, writing and history) is not part of this model:
  it is file I/O.
- The label tables `TRAIT_LABEL`, `TRAIT_STRENGTH`, `IMPROVE_TIP` and
  `PREF_EN` are not modelled. An explanation is the sequence of its segments
  (`Fits`, `GenericFit`, `Watch`, `Pref`), in the order `explain` joins them
  with single spaces. The text of each segment is not modelled.
- Scoring.Cosine: states the cosine's sign and its zero cases, not its range
  [-1, 1]. `sqrt` is an abstract function, and floating-point rounding is not
  modelled.
- Validation.NumberCheck: recognises `float()`'s literal syntax with ASCII
  digits only. Python also accepts other Unicode decimal digits, which the
  model rejects. A JSON integer too large for a double passes in the model,
  where `float(w)` (main.py:125) raises `OverflowError`.
- Explanation.Career: a career's weights and preferences are numbers and its
  name is a string. Validation accepts numeric strings such as `"1"` as
  weights, and for such a weight `traits.get(t, 0.0) * w` raises `TypeError`
  (engine.py:54, 58, 120); the model does not have that failure.
  `float(prefs.get(k, 0.0))` (engine.py:91) converts numeric-string
  preferences and raises on others; the model has numeric preferences only.
  `max` over raw preference values (engine.py:111) compares strings
  lexicographically and raises `TypeError` on mixed types; the model compares
  numbers. A non-string name is passed through `str()` at engine.py:86 but
  compared raw at engine.py:116; the model's names are strings.
- `Question.id` and `Question.text` are carried but not used by anything
  modelled.
- `rec.make_report` (called from `main`) is not modelled: engine.py defines
  no such method.
- Only the weighted and cosine scorers exist. `Scorer` is a datatype with the
  two cases, not a class hierarchy.
- Recommender.Recommender.Explain: models the lookup as written, by exact
  name. The corrected lookup by trimmed name appears only in the lemmas of
  the finding below.

## Findings

| source | as written | input that shows it | evidently intended | confidence | as-written member | corrected member |
|---|---|---|---|---|---|---|
| engine.py:86-116 | `score` stores each career under `str(c["name"]).strip()`, but `explain` finds careers with `c["name"] == name` on the untrimmed name | one career named `" Nurse"`: it is scored and ranked as `"Nurse"`, and `next(...)` finds no career named `"Nurse"`, so `explain` raises `StopIteration` | `explain` matches a ranked name against the trimmed career names, as `score` recorded it | not executed | Recommender.TrimmedNameNotFound | Recommender.ScoredLookupNeverFails |
