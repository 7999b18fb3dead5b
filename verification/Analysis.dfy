/**
 Analyses: decoding and validating a provider's answer, the fake provider, and the
 result tables. JSON text is not modelled; a payload is the decoded object, field by
 field, with absent and null kept apart because the code treats them differently.
 */
module Analysis {
  import opened Results
  import opened Machine
  import opened Scoring
  import opened Playbooks

  datatype Field<+T> = Absent | Null | Present(value: T)

  datatype CriterionFields = CriterionFields(score: Field<Int64>, feedback: Field<string>)

  /** Contents nobody looks into. */
  type RoleMapping = nat
  type SpeechAnalytics = nat
  type Violation = nat

  datatype Payload = Payload(
    summary: Field<string>,
    language: Field<string>,
    needs: Field<seq<string>>,
    objections: Field<seq<string>>,
    refusalReason: Field<string>,
    mistakes: Field<seq<string>>,
    strengths: Field<seq<string>>,
    nextAction: Field<string>,
    criterionResults: Field<map<string, CriterionFields>>,
    roleMapping: Field<RoleMapping>,
    speech: Field<SpeechAnalytics>,
    violations: Field<seq<Violation>>,
    coaching: Field<seq<string>>)

  /** A list that may be nil. */
  type List = Option<seq<string>>

  datatype CallAnalysis = CallAnalysis(
    summary: string,
    language: string,
    needs: List,
    objections: List,
    refusalReason: Option<string>,
    mistakes: List,
    strengths: List,
    nextAction: string,
    criterionResults: map<string, CriterionScore>,
    roleMapping: Option<RoleMapping>,
    speech: Option<SpeechAnalytics>,
    violations: Option<seq<Violation>>,
    coaching: List)

  datatype ParseError =
    | FieldRequired
    | SummaryRequired
    | NextActionRequired
    | ListsMustBeArrays
    | CriterionFieldRequired
    | InvalidCriterionResults

  // ----- decoding -----

  function Decoded<T>(field: Field<T>, zero: T): T {
    if field.Present? then field.value else zero
  }

  /** Absent and null leave a pointer or a list nil. */
  function DecodedOption<T>(field: Field<T>): Option<T> {
    if field.Present? then Some(field.value) else None
  }

  function DecodedResults(p: Payload): map<string, CriterionFields> {
    Decoded(p.criterionResults, map[])
  }

  function DecodedScores(results: map<string, CriterionFields>): map<string, CriterionScore> {
    map key | key in results :: CriterionScore(Decoded(results[key].score, 0), Decoded(results[key].feedback, ""))
  }

  predicate HasRequiredFields(p: Payload) {
    && !p.summary.Absent? && !p.needs.Absent? && !p.objections.Absent?
    && !p.refusalReason.Absent? && !p.mistakes.Absent? && !p.strengths.Absent?
    && !p.nextAction.Absent? && !p.criterionResults.Absent?
  }

  /** `ParseAndValidateWithCriteria`, from the decoded fields on. */
  function Parse(p: Payload, rubric: Rubric): Result<CallAnalysis, ParseError> {
    var scores := DecodedScores(DecodedResults(p));
    if !HasRequiredFields(p) then Err(FieldRequired)
    else if Blank(Decoded(p.summary, "")) then Err(SummaryRequired)
    else if Blank(Decoded(p.nextAction, "")) then Err(NextActionRequired)
    else if p.needs.Null? || p.objections.Null? || p.mistakes.Null? || p.strengths.Null? then
      Err(ListsMustBeArrays)
    else if exists key | key in DecodedResults(p) ::
        DecodedResults(p)[key].score.Absent? || DecodedResults(p)[key].feedback.Absent? then
      Err(CriterionFieldRequired)
    else if !Accepts(scores, rubric) then Err(InvalidCriterionResults)
    else Ok(CallAnalysis(
      Decoded(p.summary, ""), Decoded(p.language, ""), DecodedOption(p.needs), DecodedOption(p.objections),
      DecodedOption(p.refusalReason), DecodedOption(p.mistakes), DecodedOption(p.strengths), Decoded(p.nextAction, ""),
      scores, DecodedOption(p.roleMapping), DecodedOption(p.speech),
      Some(Decoded(p.violations, [])), Some(Decoded(p.coaching, []))))
  }

  /** Present, or null and so read as the zero value: the key is there. */
  predicate Given<T>(field: Field<T>) {
    !field.Absent?
  }

  /**
   What parsing demands, field by field, and what it makes of each: a summary and a next
   action that are not blank, four lists, a refusal reason that may be null, and for every
   criterion a score and a feedback, either of which null turns into zero or nothing.
   */
  lemma ParsesExactly(p: Payload, rubric: Rubric)
    ensures Parse(p, rubric).Ok? <==>
            && p.summary.Present? && !Blank(p.summary.value)
            && p.nextAction.Present? && !Blank(p.nextAction.value)
            && p.needs.Present? && p.objections.Present? && p.mistakes.Present? && p.strengths.Present?
            && Given(p.refusalReason) && Given(p.criterionResults)
            && (forall key | key in DecodedResults(p) ::
                  Given(DecodedResults(p)[key].score) && Given(DecodedResults(p)[key].feedback))
            && Accepts(DecodedScores(DecodedResults(p)), rubric)
    ensures Parse(p, rubric).Ok? ==>
              var a := Parse(p, rubric).value;
              && p.summary == Present(a.summary) && p.nextAction == Present(a.nextAction)
              && Some(p.needs.value) == a.needs && Some(p.objections.value) == a.objections
              && Some(p.mistakes.value) == a.mistakes && Some(p.strengths.value) == a.strengths
              && a.refusalReason == (if p.refusalReason.Present? then Some(p.refusalReason.value) else None)
              && a.language == (if p.language.Present? then p.language.value else "")
              && a.roleMapping == (if p.roleMapping.Present? then Some(p.roleMapping.value) else None)
              && a.speech == (if p.speech.Present? then Some(p.speech.value) else None)
              && a.violations == Some(if p.violations.Present? then p.violations.value else [])
              && a.coaching == Some(if p.coaching.Present? then p.coaching.value else [])
              && a.criterionResults.Keys == DecodedResults(p).Keys
              && forall key | key in a.criterionResults ::
                   && a.criterionResults[key].score ==
                        (match DecodedResults(p)[key].score case Present(n) => n case _ => 0)
                   && a.criterionResults[key].feedback ==
                        (match DecodedResults(p)[key].feedback case Present(text) => text case _ => "")
  {
    NothingIsBlank();
  }

  lemma NothingIsBlank()
    ensures Blank("")
  {
  }

  // ----- encoding -----

  function OrNull<T>(value: Option<T>): Field<T> {
    if value.Some? then Present(value.value) else Null
  }

  function OrAbsent<T>(value: Option<T>): Field<T> {
    if value.Some? then Present(value.value) else Absent
  }

  function EncodedScores(scores: map<string, CriterionScore>): map<string, CriterionFields> {
    map key | key in scores :: CriterionFields(Present(scores[key].score), Present(scores[key].feedback))
  }

  /** The payload an analysis marshals to: nil becomes null, or is omitted where the field says so. */
  function Encode(a: CallAnalysis): Payload {
    Payload(
      Present(a.summary), if a.language == "" then Absent else Present(a.language),
      OrNull(a.needs), OrNull(a.objections), OrNull(a.refusalReason), OrNull(a.mistakes), OrNull(a.strengths),
      Present(a.nextAction), Present(EncodedScores(a.criterionResults)),
      OrAbsent(a.roleMapping), OrAbsent(a.speech), OrNull(a.violations), OrNull(a.coaching))
  }

  predicate Complete(a: CallAnalysis, rubric: Rubric) {
    && !Blank(a.summary) && !Blank(a.nextAction)
    && a.needs.Some? && a.objections.Some? && a.mistakes.Some? && a.strengths.Some?
    && Accepts(a.criterionResults, rubric)
  }

  function NonNil<T>(list: Option<seq<T>>): Option<seq<T>> {
    Some(if list.Some? then list.value else [])
  }

  function Normalised(a: CallAnalysis): CallAnalysis {
    a.(violations := NonNil(a.violations), coaching := NonNil(a.coaching))
  }

  lemma ScoresSurvive(scores: map<string, CriterionScore>)
    ensures DecodedScores(EncodedScores(scores)) == scores
    ensures forall key | key in EncodedScores(scores) ::
              EncodedScores(scores)[key].score.Present? && EncodedScores(scores)[key].feedback.Present?
  {
  }

  /**
   Round trip: an analysis survives encoding and parsing exactly when it is complete
   for the rubric, and then it comes back unchanged but for nil optional lists.
   */
  lemma ParseInvertsEncode(a: CallAnalysis, rubric: Rubric)
    ensures Parse(Encode(a), rubric).Ok? <==> Complete(a, rubric)
    ensures Complete(a, rubric) ==> Parse(Encode(a), rubric) == Ok(Normalised(a))
  {
    ScoresSurvive(a.criterionResults);
    assert DecodedResults(Encode(a)) == EncodedScores(a.criterionResults);
  }

  /** Parsing yields only complete analyses, and parsing again changes nothing. */
  lemma ParsedIsComplete(p: Payload, rubric: Rubric)
    requires Parse(p, rubric).Ok?
    ensures Complete(Parse(p, rubric).value, rubric)
    ensures Parse(Encode(Parse(p, rubric).value), rubric) == Parse(p, rubric)
  {
    ParseInvertsEncode(Parse(p, rubric).value, rubric);
  }

  // ----- what a provider hands over -----

  /** An answer carries the raw payload when the provider has one. */
  datatype Answer = Answer(raw: Option<Payload>, value: CallAnalysis)

  /** `validateAnalysis`: a provider without raw JSON has its value encoded first. */
  function ValidateAnswer(answer: Answer, rubric: Rubric): Result<CallAnalysis, ParseError> {
    Parse(if answer.raw.Some? then answer.raw.value else Encode(answer.value), rubric)
  }

  /** After validation succeeds, calculating the score against the same rubric cannot fail. */
  lemma ScoringAfterValidationNeverFails(answer: Answer, rubric: Rubric)
    requires ValidateAnswer(answer, rubric).Ok?
    ensures Accepts(ValidateAnswer(answer, rubric).value.criterionResults, rubric)
  {
    ParsedIsComplete(if answer.raw.Some? then answer.raw.value else Encode(answer.value), rubric);
  }

  // ----- the fake provider -----

  /** Half of a number, truncated toward zero. */
  function Half(n: Int64): Int64 {
    if n >= 0 then n / 2 else (n + 1) / 2
  }

  /** Twice the half falls short of the number by less than two, toward zero. */
  lemma HalfTruncates(n: Int64)
    ensures n >= 0 ==> 2 * Half(n) <= n < 2 * Half(n) + 2
    ensures n < 0 ==> 2 * Half(n) - 2 < n <= 2 * Half(n)
  {
  }

  function SumHalves(rubric: Rubric): int {
    if rubric == [] then 0 else SumHalves(rubric[..|rubric| - 1]) + Half(rubric[|rubric| - 1].max)
  }

  /** The loop of `FakeAnalysisProvider.Analyze` over the chosen criteria. */
  method FakeAnalyze(options: Rubric) returns (answer: Answer)
    ensures answer.raw.None?
    ensures answer.value == FakeAnalysis(answer.value.criterionResults)
    ensures forall key :: key in answer.value.criterionResults <==> Lookup(Effective(options), key).Some?
    ensures forall key | key in answer.value.criterionResults ::
              answer.value.criterionResults[key].score == Half(Lookup(Effective(options), key).value.max)
  {
    var chosen := Effective(options);
    var criteria: map<string, CriterionScore> := map[];
    for i := 0 to |chosen|
      invariant forall key :: key in criteria <==> Lookup(chosen[..i], key).Some?
      invariant forall key | key in criteria ::
          criteria[key].score == Half(Lookup(chosen[..i], key).value.max)
    {
      assert chosen[..i + 1][..i] == chosen[..i];
      criteria := criteria[chosen[i].key := CriterionScore(Half(chosen[i].max), "Deterministic fake feedback.")];
    }
    assert chosen[..|chosen|] == chosen;
    return Answer(None, FakeAnalysis(criteria));
  }

  /** The fixed texts of the fake answer are opaque; that they are not blank matters. */
  function FakeAnalysis(criteria: map<string, CriterionScore>): CallAnalysis {
    CallAnalysis("s", "ru", Some(["n"]), Some(["o"]), None, Some(["m"]), Some(["g"]), "a", criteria,
                 Some(0), Some(0), Some([0]), Some(["c"]))
  }

  lemma {:induction false} HalvesAddUp(scores: map<string, int>, rubric: Rubric, n: nat)
    requires DistinctKeys(rubric) && n <= |rubric|
    requires forall c | c in rubric ::
               Lookup(rubric, c.key).Some? && c.key in scores && scores[c.key] == Half(Lookup(rubric, c.key).value.max)
    ensures SumPoints(scores, rubric[..n]) == SumHalves(rubric[..n])
  {
    if n > 0 {
      HalvesAddUp(scores, rubric, n - 1);
      assert rubric[..n][..n - 1] == rubric[..n - 1];
      LookupOfDistinct(rubric, n - 1);
      assert rubric[n - 1] in rubric;
    }
  }

  /**
   The fake answer validates for a rubric exactly when the halved maxima sum, wrapped, to
   no more than the wrapped maxima; so always while the maxima do not overflow, and then
   its total is the sum of the halves.
   */
  lemma FakeAnswerValidates(rubric: Rubric, answer: Answer)
    requires rubric != [] && DistinctKeys(rubric) && forall c | c in rubric :: c.max > 0
    requires answer.raw.None? && answer.value == FakeAnalysis(answer.value.criterionResults)
    requires forall key :: key in answer.value.criterionResults <==> Lookup(rubric, key).Some?
    requires forall key | key in answer.value.criterionResults ::
               answer.value.criterionResults[key].score == Half(Lookup(rubric, key).value.max)
    ensures ValidateAnswer(answer, rubric) == Ok(answer.value) <==> Wrap(SumHalves(rubric)) <= Wrap(SumMax(rubric))
    ensures ValidateAnswer(answer, rubric).Ok? ==> ValidateAnswer(answer, rubric) == Ok(answer.value)
    ensures Calculated(answer.value.criterionResults, rubric).total == Wrap(SumHalves(rubric))
    ensures SumMax(rubric) <= MAX ==>
              && ValidateAnswer(answer, rubric) == Ok(answer.value)
              && Calculated(answer.value.criterionResults, rubric).total == SumHalves(rubric)
  {
    var scores := Numbers(answer.value.criterionResults);
    forall c | c in rubric ensures Lookup(rubric, c.key).Some? && c.key in scores { LookupListed(rubric, c.key); }
    forall key | key in scores ensures 0 <= scores[key] <= Lookup(rubric, key).value.max {
      LookupListed(rubric, key);
    }
    TotalGuardIsDead(scores, rubric);
    HalvesAddUp(scores, rubric, |rubric|);
    assert rubric[..|rubric|] == rubric;
    NotBlank(answer.value.summary);
    NotBlank(answer.value.nextAction);
    ParseInvertsEncode(answer.value, rubric);
  }

  lemma NotBlank(s: string)
    requires s == "s" || s == "a"
    ensures !Blank(s)
  {
    BlankMeansAllSpace(s);
    assert !IsSpace(s[0]);
  }

  // ----- the result tables -----

  datatype ScoreRow = ScoreRow(
    greeting: Int64, rapport: Int64, needsDiscovery: Int64, presentation: Int64,
    objectionHandling: Int64, nextAction: Int64, communication: Int64, closing: Int64, total: Int64)

  /** The CHECK clauses of the score table. */
  predicate MeetsChecks(row: ScoreRow) {
    && 0 <= row.greeting <= 5 && 0 <= row.rapport <= 10 && 0 <= row.needsDiscovery <= 20
    && 0 <= row.presentation <= 15 && 0 <= row.objectionHandling <= 20 && 0 <= row.nextAction <= 15
    && 0 <= row.communication <= 10 && 0 <= row.closing <= 5 && 0 <= row.total <= 100
  }

  /** A criterion the score does not hold reads as the zero value. */
  function ScoreFor(score: Score, key: string): Int64 {
    if key in score.criteria then score.criteria[key].score else 0
  }

  function RowOf(score: Score): ScoreRow {
    ScoreRow(
      ScoreFor(score, "greeting"), ScoreFor(score, "rapport"), ScoreFor(score, "needs_discovery"),
      ScoreFor(score, "presentation"), ScoreFor(score, "objection_handling"), ScoreFor(score, "next_action"),
      ScoreFor(score, "communication"), ScoreFor(score, "closing"), score.total)
  }

  /** Every column holds the criterion of its name, zero when the rubric does not have it. */
  lemma ColumnsHoldTheirCriteria(score: Score)
    ensures var row, c := RowOf(score), score.criteria;
            && row.total == score.total
            && row.greeting == (if "greeting" in c then c["greeting"].score else 0)
            && row.rapport == (if "rapport" in c then c["rapport"].score else 0)
            && row.needsDiscovery == (if "needs_discovery" in c then c["needs_discovery"].score else 0)
            && row.presentation == (if "presentation" in c then c["presentation"].score else 0)
            && row.objectionHandling == (if "objection_handling" in c then c["objection_handling"].score else 0)
            && row.nextAction == (if "next_action" in c then c["next_action"].score else 0)
            && row.communication == (if "communication" in c then c["communication"].score else 0)
            && row.closing == (if "closing" in c then c["closing"].score else 0)
  {
  }

  predicate Storable(score: Score) {
    MeetsChecks(RowOf(score))
  }

  /** The rubric fits the columns: at most 100 in all, and no default key above its column. */
  ghost predicate Fits(rubric: Rubric) {
    && SumMax(rubric) <= 100
    && forall c | c in rubric :: Lookup(DefaultRubric(), c.key).Some? ==> c.max <= Lookup(DefaultRubric(), c.key).value.max
  }

  function WithoutFeedback(numbers: map<string, Int64>): map<string, CriterionScore> {
    map key | key in numbers :: CriterionScore(numbers[key], "")
  }

  function FullMarks(rubric: Rubric): map<string, CriterionScore> {
    WithoutFeedback(BestScores(rubric))
  }

  lemma FullMarksAccepted(rubric: Rubric)
    requires rubric != [] && DistinctKeys(rubric) && forall c | c in rubric :: c.max > 0
    ensures Accepts(FullMarks(rubric), rubric)
    ensures Numbers(FullMarks(rubric)) == BestScores(rubric)
    ensures Calculated(FullMarks(rubric), rubric).total == Wrap(SumMax(rubric))
  {
    assert Numbers(FullMarks(rubric)) == BestScores(rubric);
    BestIsListed(rubric, |rubric|);
    assert rubric[..|rubric|] == rubric;
    BestReachesGuard(rubric);
  }

  lemma ColumnWithinLimit(rubric: Rubric, scores: map<string, CriterionScore>, key: string)
    requires rubric != [] && Fits(rubric) && Accepts(scores, rubric)
    requires Lookup(DefaultRubric(), key).Some?
    ensures 0 <= ScoreFor(Calculated(scores, rubric), key)
    ensures ScoreFor(Calculated(scores, rubric), key) <= Lookup(DefaultRubric(), key).value.max
  {
    LookupListed(DefaultRubric(), key);
    DefaultRubricFacts();
    if key in scores {
      assert key in Numbers(scores);
      LookupListed(rubric, key);
    }
  }

  lemma DefaultLimits()
    ensures Lookup(DefaultRubric(), "greeting") == Some(Criterion("greeting", 5))
    ensures Lookup(DefaultRubric(), "rapport") == Some(Criterion("rapport", 10))
    ensures Lookup(DefaultRubric(), "needs_discovery") == Some(Criterion("needs_discovery", 20))
    ensures Lookup(DefaultRubric(), "presentation") == Some(Criterion("presentation", 15))
    ensures Lookup(DefaultRubric(), "objection_handling") == Some(Criterion("objection_handling", 20))
    ensures Lookup(DefaultRubric(), "next_action") == Some(Criterion("next_action", 15))
    ensures Lookup(DefaultRubric(), "communication") == Some(Criterion("communication", 10))
    ensures Lookup(DefaultRubric(), "closing") == Some(Criterion("closing", 5))
  {
    DefaultRubricFacts();
    LookupOfDistinct(DefaultRubric(), 0);
    LookupOfDistinct(DefaultRubric(), 1);
    LookupOfDistinct(DefaultRubric(), 2);
    LookupOfDistinct(DefaultRubric(), 3);
    LookupOfDistinct(DefaultRubric(), 4);
    LookupOfDistinct(DefaultRubric(), 5);
    LookupOfDistinct(DefaultRubric(), 6);
    LookupOfDistinct(DefaultRubric(), 7);
  }

  lemma FittingScoresAreStorable(rubric: Rubric, scores: map<string, CriterionScore>)
    requires rubric != [] && DistinctKeys(rubric) && Fits(rubric) && Accepts(scores, rubric)
    ensures Storable(Calculated(scores, rubric))
  {
    DefaultLimits();
    ColumnWithinLimit(rubric, scores, "greeting");
    ColumnWithinLimit(rubric, scores, "rapport");
    ColumnWithinLimit(rubric, scores, "needs_discovery");
    ColumnWithinLimit(rubric, scores, "presentation");
    ColumnWithinLimit(rubric, scores, "objection_handling");
    ColumnWithinLimit(rubric, scores, "next_action");
    ColumnWithinLimit(rubric, scores, "communication");
    ColumnWithinLimit(rubric, scores, "closing");
    TotalGuardIsDead(Numbers(scores), rubric);
  }

  lemma DefaultKeysOnly(key: string)
    requires Lookup(DefaultRubric(), key).Some?
    ensures key in {"greeting", "rapport", "needs_discovery", "presentation", "objection_handling",
                    "next_action", "communication", "closing"}
  {
    LookupListed(DefaultRubric(), key);
  }

  /**
   Storage, exactly: every score a rubric accepts can be stored if and only if the
   rubric fits the columns, by its exact sum: a sum that wraps back into the columns
   does not help, for some accepted total then wraps below zero.
   */
  lemma StorableExactly(rubric: Rubric)
    requires rubric != [] && DistinctKeys(rubric) && forall c | c in rubric :: c.max > 0
    ensures (forall scores :: Accepts(scores, rubric) ==> Storable(Calculated(scores, rubric))) <==> Fits(rubric)
  {
    if Fits(rubric) {
      forall scores | Accepts(scores, rubric) ensures Storable(Calculated(scores, rubric)) {
        FittingScoresAreStorable(rubric, scores);
      }
    } else if SumMax(rubric) > MAX {
      var scores := NegativeTotal(rubric);
      assert !Storable(Calculated(scores, rubric));
    } else {
      FullMarksAccepted(rubric);
      var best := FullMarks(rubric);
      if Storable(Calculated(best, rubric)) {
        forall c | c in rubric && Lookup(DefaultRubric(), c.key).Some?
          ensures c.max <= Lookup(DefaultRubric(), c.key).value.max
        {
          var i :| 0 <= i < |rubric| && rubric[i] == c;
          LookupOfDistinct(rubric, i);
          DefaultKeysOnly(c.key);
          DefaultLimits();
          assert ScoreFor(Calculated(best, rubric), c.key) == c.max;
        }
        assert false;
      }
    }
  }

  /** Maxima that overflow accept a total one past the largest integer, which wraps to the least. */
  lemma NegativeTotal(rubric: Rubric) returns (scores: map<string, CriterionScore>)
    requires rubric != [] && DistinctKeys(rubric) && forall c | c in rubric :: c.max > 0
    requires SumMax(rubric) > MAX
    ensures Accepts(scores, rubric) && Calculated(scores, rubric).total < 0
  {
    var numbers := EveryTotalIsReached(rubric, MAX + 1);
    scores := WithoutFeedback(numbers);
    assert Numbers(scores) == numbers;
    WrapTurns(MIN);
  }

  /**
   `Validate` enforces neither half of that: a playbook worth 101 points is valid, and its
   full marks are accepted by the calculator and refused by the table.
   */
  lemma AValidPlaybookThatDoesNotFit()
    ensures var p := TwoCriteria(100, 1);
            var rubric := RubricOf(p.criteria);
            && ValidPlaybook(p) && !Fits(rubric)
            && Accepts(FullMarks(rubric), rubric) && !Storable(Calculated(FullMarks(rubric), rubric))
  {
    var p := TwoCriteria(100, 1);
    TwoCriteriaAreWellFormed(100, 1);
    ValidRubric(p);
    FullMarksAccepted(RubricOf(p.criteria));
  }

  function Columns(row: ScoreRow): seq<Int64> {
    [row.greeting, row.rapport, row.needsDiscovery, row.presentation,
     row.objectionHandling, row.nextAction, row.communication, row.closing]
  }

  const ColumnKeys: seq<string> :=
    ["greeting", "rapport", "needs_discovery", "presentation", "objection_handling",
     "next_action", "communication", "closing"]

  /** The criteria map refilled key by key, without feedback. */
  function Refill(keys: seq<string>, values: seq<Int64>): map<string, CriterionScore>
    requires |keys| == |values|
  {
    if keys == [] then map[] else
      Refill(keys[..|keys| - 1], values[..|keys| - 1])
        [keys[|keys| - 1] := CriterionScore(values[|keys| - 1], "")]
  }

  /** What `get` rebuilds from a row: eight criteria without feedback, and the stored total. */
  function ReadBack(row: ScoreRow): Score {
    Score(Refill(ColumnKeys, Columns(row)), row.total)
  }

  lemma {:induction false} RefillKeys(keys: seq<string>, values: seq<Int64>, key: string)
    requires |keys| == |values|
    ensures key in Refill(keys, values) <==> key in keys
  {
    if keys != [] {
      assert keys == keys[..|keys| - 1] + [keys[|keys| - 1]];
      RefillKeys(keys[..|keys| - 1], values[..|keys| - 1], key);
    }
  }

  lemma {:induction false} RefillAt(keys: seq<string>, values: seq<Int64>, i: nat)
    requires |keys| == |values| && i < |keys|
    requires forall j, k | 0 <= j < k < |keys| :: keys[j] != keys[k]
    ensures keys[i] in Refill(keys, values) && Refill(keys, values)[keys[i]].score == values[i]
  {
    if i < |keys| - 1 {
      RefillAt(keys[..|keys| - 1], values[..|keys| - 1], i);
    }
  }

  lemma KeysDiffer()
    ensures forall i, j | 0 <= i < j < 8 :: ColumnKeys[i] != ColumnKeys[j]
  {
    DefaultRubricFacts();
    var rubric := DefaultRubric();
    assert forall i | 0 <= i < 8 :: rubric[i].key == ColumnKeys[i];
  }

  lemma ColumnReads(score: Score, i: nat)
    requires i < 8
    ensures Columns(RowOf(score))[i] == ScoreFor(score, ColumnKeys[i])
  {
  }

  /** Whatever the rubric, the total reads back, and each column as the stored criterion. */
  lemma ReadsBackTotalAndColumns(score: Score, i: nat)
    requires i < 8
    ensures ReadBack(RowOf(score)).total == score.total
    ensures ColumnKeys[i] in ReadBack(RowOf(score)).criteria
    ensures ReadBack(RowOf(score)).criteria[ColumnKeys[i]].score == ScoreFor(score, ColumnKeys[i])
  {
    KeysDiffer();
    RefillAt(ColumnKeys, Columns(RowOf(score)), i);
    ColumnReads(score, i);
  }

  lemma SumOfEight(scores: map<string, int>, r: Rubric)
    requires |r| == 8
    ensures SumPoints(scores, r)
         == Points(scores, r[0].key) + Points(scores, r[1].key) + Points(scores, r[2].key) + Points(scores, r[3].key)
            + Points(scores, r[4].key) + Points(scores, r[5].key) + Points(scores, r[6].key) + Points(scores, r[7].key)
  {
    assert r[..8] == r;
    assert forall i | 0 <= i < 8 :: r[..i + 1][..i] == r[..i];
    assert SumPoints(scores, r[..1]) == Points(scores, r[0].key);
    assert SumPoints(scores, r[..2]) == SumPoints(scores, r[..1]) + Points(scores, r[1].key);
    assert SumPoints(scores, r[..3]) == SumPoints(scores, r[..2]) + Points(scores, r[2].key);
    assert SumPoints(scores, r[..4]) == SumPoints(scores, r[..3]) + Points(scores, r[3].key);
    assert SumPoints(scores, r[..5]) == SumPoints(scores, r[..4]) + Points(scores, r[4].key);
    assert SumPoints(scores, r[..6]) == SumPoints(scores, r[..5]) + Points(scores, r[5].key);
    assert SumPoints(scores, r[..7]) == SumPoints(scores, r[..6]) + Points(scores, r[6].key);
  }

  function ColumnSum(row: ScoreRow): int {
    row.greeting + row.rapport + row.needsDiscovery + row.presentation
    + row.objectionHandling + row.nextAction + row.communication + row.closing
  }

  lemma DefaultPointsAreColumns(score: Score)
    ensures SumPoints(Numbers(score.criteria), DefaultRubric()) == ColumnSum(RowOf(score))
  {
    SumOfEight(Numbers(score.criteria), DefaultRubric());
    assert forall key :: Points(Numbers(score.criteria), key) == ScoreFor(score, key);
  }

  lemma SameKeysReadBackSame(score: Score)
    requires forall i | 0 <= i < 8 :: ColumnKeys[i] in score.criteria
    requires forall key | key in score.criteria :: key in ColumnKeys
    ensures Numbers(ReadBack(RowOf(score)).criteria) == Numbers(score.criteria)
  {
    var back := ReadBack(RowOf(score)).criteria;
    forall i: nat | i < 8
      ensures ColumnKeys[i] in back && back[ColumnKeys[i]].score == score.criteria[ColumnKeys[i]].score
    {
      ReadsBackTotalAndColumns(score, i);
    }
    forall key ensures key in back <==> key in score.criteria {
      RefillKeys(ColumnKeys, Columns(RowOf(score)), key);
    }
    assert Numbers(back).Keys == Numbers(score.criteria).Keys;
  }

  lemma DefaultKeysAreColumns(key: string)
    ensures (exists c :: c in DefaultRubric() && c.key == key) <==> key in ColumnKeys
  {
    var d := DefaultRubric();
    assert forall i | 0 <= i < 8 :: d[i].key == ColumnKeys[i];
    if key in ColumnKeys {
      var i :| 0 <= i < 8 && ColumnKeys[i] == key;
      assert d[i] in d;
    }
  }

  /**
   Under the default rubric nothing but feedback is lost: the criteria read back with
   the same keys and numbers, and the eight columns sum to the stored total.
   */
  lemma DefaultRubricReadsBackExactly(scores: map<string, CriterionScore>, score: Score)
    requires Accepts(scores, DefaultRubric()) && score == Calculated(scores, DefaultRubric())
    ensures Storable(score)
    ensures Numbers(ReadBack(RowOf(score)).criteria) == Numbers(scores)
    ensures ReadBack(RowOf(score)).total == score.total == ColumnSum(RowOf(score))
  {
    DefaultRubricFacts();
    DefaultFits();
    FittingScoresAreStorable(DefaultRubric(), scores);
    DefaultPointsAreColumns(score);
    ColumnKeysOnly(scores);
    SameKeysReadBackSame(score);
  }

  lemma ColumnKeysOnly(scores: map<string, CriterionScore>)
    requires Accepts(scores, DefaultRubric())
    ensures forall key :: key in scores <==> key in ColumnKeys
  {
    DefaultRubricFacts();
    TotalGuardIsDead(Numbers(scores), DefaultRubric());
    forall key ensures key in scores <==> key in ColumnKeys {
      KeysAreListed(DefaultRubric(), key);
      DefaultKeysAreColumns(key);
      assert key in scores <==> key in Numbers(scores).Keys;
    }
  }

  lemma DefaultFits()
    ensures Fits(DefaultRubric())
  {
    DefaultRubricFacts();
    forall c | c in DefaultRubric() ensures Lookup(DefaultRubric(), c.key) == Some(c) {
      var i :| 0 <= i < 8 && DefaultRubric()[i] == c;
      LookupOfDistinct(DefaultRubric(), i);
    }
  }

  /** What the row of an analysis holds: every nil list as an empty one, and no language column. */
  function Stored(a: CallAnalysis): CallAnalysis {
    a.(language := "", needs := NonNil(a.needs), objections := NonNil(a.objections), mistakes := NonNil(a.mistakes),
       strengths := NonNil(a.strengths), violations := NonNil(a.violations), coaching := NonNil(a.coaching))
  }

  /** Of a validated analysis everything reads back but the detected language. */
  lemma ValidatedReadsBackButLanguage(answer: Answer, rubric: Rubric)
    requires ValidateAnswer(answer, rubric).Ok?
    ensures var a := ValidateAnswer(answer, rubric).value;
            && Stored(a) == a.(language := "")
            && (Stored(a) == a <==> a.language == "")
  {
    ParsedHasLists(if answer.raw.Some? then answer.raw.value else Encode(answer.value), rubric);
  }

  lemma ParsedHasLists(p: Payload, rubric: Rubric)
    requires Parse(p, rubric).Ok?
    ensures var a := Parse(p, rubric).value;
            && a.needs.Some? && a.objections.Some? && a.mistakes.Some? && a.strengths.Some?
            && a.violations.Some? && a.coaching.Some?
  {
  }

  /** The analysis and score tables, written together and read together. */
  class ResultTables {
    var analyses: map<nat, CallAnalysis>
    var scores: map<nat, ScoreRow>

    /** What the CHECKs guarantee; an analysis row may stand without a score row. */
    ghost predicate Valid()
      reads this
    {
      forall id | id in scores :: MeetsChecks(scores[id])
    }

    constructor ()
      ensures Valid() && analyses == map[] && scores == map[]
    {
      analyses, scores := map[], map[];
    }

    /**
     `UpsertWithScore`: one transaction over both tables. The statements fail on a
     call that does not exist (foreign key) or a score outside its CHECKs; the commit
     may fail as well. Either both rows are replaced or neither is touched.
     */
    method UpsertWithScore(callExists: bool, commits: bool, id: nat, result: CallAnalysis, score: Score)
      returns (ok: bool)
      requires Valid()
      modifies this
      ensures Valid()
      ensures ok <==> callExists && Storable(score) && commits
      ensures analyses == if ok then old(analyses)[id := Stored(result)] else old(analyses)
      ensures scores == if ok then old(scores)[id := RowOf(score)] else old(scores)
    {
      var rollback := (analyses, scores);
      if !callExists {
        return false;
      }
      analyses := analyses[id := Stored(result)];
      var row := RowOf(score);
      if !MeetsChecks(row) {
        analyses := rollback.0;
        return false;
      }
      scores := scores[id := row];
      if !commits {
        analyses, scores := rollback.0, rollback.1;
        return false;
      }
      return true;
    }

    /** `get`: the analysis, and the score rebuilt column by column. */
    method Get(id: nat) returns (found: bool, result: Option<CallAnalysis>, score: Option<Score>)
      requires Valid()
      ensures found <==> id in analyses
      ensures found ==> result == Some(analyses[id])
      ensures found ==> score == Some(if id in scores then ReadBack(scores[id]) else Score(map[], 0))
      ensures !found ==> result.None? && score.None?
    {
      if id !in analyses {
        return false, None, None;
      }
      if id !in scores {
        return true, Some(analyses[id]), Some(Score(map[], 0));
      }
      var keys, values := ColumnKeys, Columns(scores[id]);
      var criteria: map<string, CriterionScore> := map[];
      for i := 0 to |keys|
        invariant criteria == Refill(keys[..i], values[..i])
      {
        assert keys[..i + 1][..i] == keys[..i] && values[..i + 1][..i] == values[..i];
        criteria := criteria[keys[i] := CriterionScore(values[i], "")];
      }
      assert keys[..|keys|] == keys && values[..|keys|] == values;
      return true, Some(analyses[id]), Some(Score(criteria, scores[id].total));
    }
  }
}
