/**
 Scoring: a rubric is an ordered list of criteria, a set of criterion scores is a
 map. The program walks a map in no particular order; here that is an arbitrary
 choice, so a contract that fixes the result is order independence. Numbers are
 64-bit integers, and both running sums wrap around.
 */
module Scoring {
  import opened Results
  import opened Machine

  datatype Criterion = Criterion(key: string, max: Int64)
  datatype CriterionScore = CriterionScore(score: Int64, feedback: string)
  datatype Score = Score(criteria: map<string, CriterionScore>, total: Int64)

  datatype ScoreError =
    | UnknownCriterion(key: string)
    | ScoreOutOfRange(key: string)
    | MissingCriterion(key: string)
    | TotalTooLarge

  type Rubric = seq<Criterion>

  function DefaultRubric(): Rubric {
    [ Criterion("greeting", 5),
      Criterion("rapport", 10),
      Criterion("needs_discovery", 20),
      Criterion("presentation", 15),
      Criterion("objection_handling", 20),
      Criterion("next_action", 15),
      Criterion("communication", 10),
      Criterion("closing", 5) ]
  }

  /** An empty rubric means the default one. */
  function Effective(rubric: Rubric): Rubric {
    if rubric == [] then DefaultRubric() else rubric
  }

  ghost predicate DistinctKeys(rubric: Rubric) {
    forall i, j | 0 <= i < j < |rubric| :: rubric[i].key != rubric[j].key
  }

  /** The criterion the lookup table holds for a key: the last one listed. */
  function Lookup(rubric: Rubric, key: string): Option<Criterion> {
    if rubric == [] then None
    else if rubric[|rubric| - 1].key == key then Some(rubric[|rubric| - 1])
    else Lookup(rubric[..|rubric| - 1], key)
  }

  /** The exact sum of the maxima; the program holds it wrapped. */
  function SumMax(rubric: Rubric): int {
    if rubric == [] then 0 else SumMax(rubric[..|rubric| - 1]) + rubric[|rubric| - 1].max
  }

  function Points(scores: map<string, int>, key: string): int {
    if key in scores then scores[key] else 0
  }

  /** The points of every listed criterion, a missing one counting zero. */
  function SumPoints(scores: map<string, int>, rubric: Rubric): int {
    if rubric == [] then 0
    else SumPoints(scores, rubric[..|rubric| - 1]) + Points(scores, rubric[|rubric| - 1].key)
  }

  function Numbers(scores: map<string, CriterionScore>): map<string, int> {
    map key | key in scores :: scores[key].score
  }

  /** Every key is known to the rubric and every score lies in its range. */
  predicate InRange(scores: map<string, int>, rubric: Rubric) {
    forall key | key in scores ::
      && Lookup(rubric, key).Some?
      && 0 <= scores[key] <= Lookup(rubric, key).value.max
  }

  predicate Complete(scores: map<string, int>, rubric: Rubric) {
    forall c | c in rubric :: c.key in scores
  }

  predicate GuardFires(scores: map<string, int>, rubric: Rubric) {
    var total := Wrap(SumPoints(scores, rubric));
    var totalMax := Wrap(SumMax(rubric));
    total > totalMax || (totalMax <= 100 && total > 100)
  }

  predicate Accepts(scores: map<string, CriterionScore>, rubric: Rubric) {
    var numbers := Numbers(scores);
    var effective := Effective(rubric);
    && InRange(numbers, effective)
    && Complete(numbers, effective)
    && !GuardFires(numbers, effective)
  }

  /** What the calculation yields, as a value: the scores themselves and their wrapped sum. */
  function Calculated(scores: map<string, CriterionScore>, rubric: Rubric): Score {
    Score(scores, Wrap(SumPoints(Numbers(scores), Effective(rubric))))
  }

  /** No criteria mean the default ones: same acceptance, same score. */
  lemma NoCriteriaMeanTheDefault(scores: map<string, CriterionScore>)
    ensures Accepts(scores, []) <==> Accepts(scores, DefaultRubric())
    ensures Calculated(scores, []) == Calculated(scores, DefaultRubric())
  {
  }

  // ----- the lookup table and the sums -----

  lemma {:induction false} LookupListed(rubric: Rubric, key: string)
    ensures Lookup(rubric, key).Some? <==> exists c :: c in rubric && c.key == key
    ensures Lookup(rubric, key).Some? ==>
              Lookup(rubric, key).value in rubric && Lookup(rubric, key).value.key == key
  {
    if rubric != [] {
      var front, last := rubric[..|rubric| - 1], rubric[|rubric| - 1];
      LookupListed(front, key);
      assert rubric == front + [last];
      if exists c :: c in rubric && c.key == key {
        var c :| c in rubric && c.key == key;
        assert c in front || c == last;
      }
    }
  }

  lemma {:induction false} LookupOfDistinct(rubric: Rubric, i: nat)
    requires DistinctKeys(rubric) && i < |rubric|
    ensures Lookup(rubric, rubric[i].key) == Some(rubric[i])
  {
    if i < |rubric| - 1 {
      LookupOfDistinct(rubric[..|rubric| - 1], i);
    }
  }

  /** With distinct keys, scores in range sum to at most the sum of the maxima. */
  lemma {:induction false} PointsBounded(scores: map<string, int>, rubric: Rubric, n: nat)
    requires DistinctKeys(rubric) && n <= |rubric|
    requires InRange(scores, rubric)
    requires forall key | key in scores :: scores[key] >= 0
    requires (forall i | 0 <= i < n :: rubric[i].max >= 0) || Complete(scores, rubric)
    ensures 0 <= SumPoints(scores, rubric[..n]) <= SumMax(rubric[..n])
  {
    if n > 0 {
      PointsBounded(scores, rubric, n - 1);
      assert rubric[..n][..n - 1] == rubric[..n - 1];
      LookupOfDistinct(rubric, n - 1);
      assert rubric[n - 1] in rubric;
    }
  }

  /**
   On success against distinct keys the validated keys are the rubric's and the exact
   total lies between zero and the exact sum of the maxima; as long as that sum does
   not overflow, the guard after the loops never fires and no sum has wrapped.
   */
  lemma TotalGuardIsDead(scores: map<string, int>, rubric: Rubric)
    requires DistinctKeys(rubric)
    requires InRange(scores, rubric) && Complete(scores, rubric)
    ensures 0 <= SumPoints(scores, rubric) <= SumMax(rubric)
    ensures scores.Keys == KeysOf(rubric)
    ensures SumMax(rubric) <= MAX ==>
              && !GuardFires(scores, rubric)
              && Wrap(SumPoints(scores, rubric)) == SumPoints(scores, rubric)
              && Wrap(SumMax(rubric)) == SumMax(rubric)
  {
    PointsBounded(scores, rubric, |rubric|);
    assert rubric[..|rubric|] == rubric;
    CompleteByKeys(scores, rubric);
    forall key | key in scores ensures key in KeysOf(rubric) {
      KeysAreListed(rubric, key);
    }
  }

  // ----- exactly when the guard is alive -----

  /** The best score the per-key checks allow: the table's maximum for each listed key. */
  function BestScores(rubric: Rubric): map<string, Int64> {
    map c | c in rubric && Lookup(rubric, c.key).Some? :: c.key := Lookup(rubric, c.key).value.max
  }

  predicate NoneNegative(scores: map<string, int>) {
    forall key | key in scores :: scores[key] >= 0
  }

  /** What full marks reach, were the sum to stop at the largest integer. */
  function Highest(rubric: Rubric): int {
    Min(SumPoints(BestScores(rubric), rubric), MAX)
  }

  /** Scores that pass every check before the guard. */
  predicate ReachesGuard(scores: map<string, int>, rubric: Rubric) {
    InRange(scores, rubric) && Complete(scores, rubric)
  }

  ghost predicate GuardAlive(rubric: Rubric) {
    exists scores: map<string, Int64> :: ReachesGuard(scores, rubric) && GuardFires(scores, rubric)
  }

  lemma {:induction false} BestIsBest(scores: map<string, int>, rubric: Rubric, part: Rubric)
    requires InRange(scores, rubric)
    requires forall c | c in part :: c in rubric && c.key in scores
    ensures 0 <= SumPoints(scores, part) <= SumPoints(BestScores(rubric), part)
  {
    if part != [] {
      BestIsBest(scores, rubric, part[..|part| - 1]);
      var c := part[|part| - 1];
      assert c.key in BestScores(rubric);
    }
  }

  lemma {:induction false} BestIsListed(rubric: Rubric, n: nat)
    requires DistinctKeys(rubric) && n <= |rubric|
    ensures SumPoints(BestScores(rubric), rubric[..n]) == SumMax(rubric[..n])
  {
    if n > 0 {
      BestIsListed(rubric, n - 1);
      assert rubric[..n][..n - 1] == rubric[..n - 1];
      LookupOfDistinct(rubric, n - 1);
      assert rubric[n - 1] in rubric;
    }
  }

  lemma {:induction false} OtherKeysCountTheSame(scores: map<string, Int64>, key: string, value: Int64, part: Rubric)
    requires forall c | c in part :: c.key != key
    ensures SumPoints(scores[key := value], part) == SumPoints(scores, part)
  {
    if part != [] {
      OtherKeysCountTheSame(scores, key, value, part[..|part| - 1]);
      assert part[|part| - 1] in part;
    }
  }

  /** With distinct keys, every total up to the sum of the maxima is the total of some scores. */
  lemma {:induction false} EveryTotalIsReached(rubric: Rubric, total: nat) returns (scores: map<string, Int64>)
    requires DistinctKeys(rubric) && (forall c | c in rubric :: c.max >= 0) && total <= SumMax(rubric)
    ensures ReachesGuard(scores, rubric) && SumPoints(scores, rubric) == total
  {
    if rubric == [] {
      return map[];
    }
    var front, last := rubric[..|rubric| - 1], rubric[|rubric| - 1];
    assert rubric == front + [last];
    var share := Min(total, last.max);
    NonNegativeSum(front);
    var rest := EveryTotalIsReached(front, total - share);
    scores := rest[last.key := share];
    OtherKeysCountTheSame(rest, last.key, share, front);
    OneMoreReaches(front, last, rest, share);
  }

  lemma OneMoreReaches(front: Rubric, last: Criterion, rest: map<string, Int64>, share: Int64)
    requires ReachesGuard(rest, front) && 0 <= share <= last.max
    requires forall c | c in front :: c.key != last.key
    ensures ReachesGuard(rest[last.key := share], front + [last])
  {
    var rubric, scores := front + [last], rest[last.key := share];
    assert rubric[..|rubric| - 1] == front;
    forall key | key in scores
      ensures Lookup(rubric, key).Some? && 0 <= scores[key] <= Lookup(rubric, key).value.max
    {
      assert key != last.key ==> key in rest;
    }
  }

  lemma BestReachesGuard(rubric: Rubric)
    requires forall c | c in rubric :: c.max >= 0
    ensures ReachesGuard(BestScores(rubric), rubric)
  {
    var best := BestScores(rubric);
    forall key | key in best ensures best[key] >= 0 { LookupListed(rubric, key); }
    forall c | c in rubric ensures c.key in best { LookupListed(rubric, c.key); }
  }

  /**
   When the guard is alive, for every rubric: only if no listed maximum is negative and
   what full marks reach exceeds the wrapped sum of the maxima; and then, unless keys
   are repeated and their best sum overflows, always.
   */
  lemma GuardAliveExactly(rubric: Rubric)
    ensures GuardAlive(rubric) ==> NoneNegative(BestScores(rubric)) && Highest(rubric) > Wrap(SumMax(rubric))
    ensures (NoneNegative(BestScores(rubric)) && Highest(rubric) > Wrap(SumMax(rubric))
             && (DistinctKeys(rubric) || SumPoints(BestScores(rubric), rubric) <= MAX)) ==> GuardAlive(rubric)
  {
    var best := BestScores(rubric);
    forall c | c in rubric ensures c.key in best { LookupListed(rubric, c.key); }
    if GuardAlive(rubric) {
      var scores: map<string, Int64> :| ReachesGuard(scores, rubric) && GuardFires(scores, rubric);
      BestIsBest(scores, rubric, rubric);
      WrapNeverRaises(SumPoints(scores, rubric));
      forall key | key in best ensures best[key] >= 0 {
        assert key in scores;
      }
    }
    if NoneNegative(best) && Highest(rubric) > Wrap(SumMax(rubric)) {
      assert ReachesGuard(best, rubric);
      BestIsBest(best, rubric, rubric);
      if SumPoints(best, rubric) <= MAX {
        assert GuardFires(best, rubric);
      } else if DistinctKeys(rubric) {
        BestIsListed(rubric, |rubric|);
        assert rubric[..|rubric|] == rubric;
        forall c | c in rubric ensures c.max >= 0 {
          var i :| 0 <= i < |rubric| && rubric[i] == c;
          LookupOfDistinct(rubric, i);
          assert best[c.key] == c.max;
        }
        var scores := EveryTotalIsReached(rubric, MAX);
        assert GuardFires(scores, rubric);
      }
    }
  }

  /**
   For a rubric with distinct keys and no negative maximum the guard is dead exactly
   when the wrapped sum of the maxima is the sum itself, or happens to be the largest
   integer; in particular whenever the sum does not overflow.
   */
  lemma GuardDeadExactly(rubric: Rubric)
    requires DistinctKeys(rubric) && forall c | c in rubric :: c.max >= 0
    ensures !GuardAlive(rubric) <==> Wrap(SumMax(rubric)) == Min(SumMax(rubric), MAX)
    ensures SumMax(rubric) <= MAX ==> !GuardAlive(rubric)
  {
    GuardAliveExactly(rubric);
    BestIsListed(rubric, |rubric|);
    assert rubric[..|rubric|] == rubric;
    var best := BestScores(rubric);
    forall key | key in best ensures best[key] >= 0 { LookupListed(rubric, key); }
    BestIsBest(best, rubric, []);
    NonNegativeSum(rubric);
    WrapNeverRaises(SumMax(rubric));
  }

  lemma {:induction false} NonNegativeSum(rubric: Rubric)
    requires forall c | c in rubric :: c.max >= 0
    ensures SumMax(rubric) >= 0
  {
    if rubric != [] {
      NonNegativeSum(rubric[..|rubric| - 1]);
      assert rubric[|rubric| - 1] in rubric;
    }
  }

  /** A rubric that lists one key twice reaches the guard. */
  lemma DuplicateKeyReachesGuard()
    ensures var rubric := [Criterion("a", 1), Criterion("a", 10)];
            var scores := map["a" := 10];
            InRange(scores, rubric) && Complete(scores, rubric) && GuardFires(scores, rubric)
  {
    var rubric := [Criterion("a", 1), Criterion("a", 10)];
    var scores := map["a" := 10];
    assert rubric[..1] == [Criterion("a", 1)];
    assert rubric[..1][..0] == [];
    assert SumMax(rubric[..1]) == 1 && SumPoints(scores, rubric[..1]) == 10;
  }

  // ----- the two calculators -----

  lemma NextMax(criteria: Rubric, i: nat)
    requires i < |criteria|
    ensures Wrap(Wrap(SumMax(criteria[..i])) + criteria[i].max) == Wrap(SumMax(criteria[..i + 1]))
  {
    assert criteria[..i + 1][..i] == criteria[..i];
    WrapAdds(SumMax(criteria[..i]), criteria[i].max);
  }

  /** The loop that fills the lookup table and adds up the maxima. */
  method BuildTable(criteria: Rubric) returns (byKey: map<string, Criterion>, totalMax: Int64)
    ensures totalMax == Wrap(SumMax(criteria))
    ensures forall key :: key in byKey <==> Lookup(criteria, key).Some?
    ensures forall key | key in byKey :: Lookup(criteria, key) == Some(byKey[key])
  {
    byKey := map[];
    totalMax := 0;
    for i := 0 to |criteria|
      invariant totalMax == Wrap(SumMax(criteria[..i]))
      invariant forall key :: key in byKey <==> Lookup(criteria[..i], key).Some?
      invariant forall key | key in byKey :: Lookup(criteria[..i], key) == Some(byKey[key])
    {
      assert criteria[..i + 1][..i] == criteria[..i];
      byKey := byKey[criteria[i].key := criteria[i]];
      NextMax(criteria, i);
      totalMax := Wrap(totalMax + criteria[i].max);
    }
    assert criteria[..|criteria|] == criteria;
  }

  /** The loop that checks every given score, in whatever order the map yields them. */
  method CheckScores(scores: map<string, CriterionScore>, byKey: map<string, Criterion>)
    returns (failure: Option<ScoreError>)
    ensures failure.None? <==>
            forall key | key in scores :: key in byKey && 0 <= scores[key].score <= byKey[key].max
    ensures failure.Some? ==> match failure.value
              case UnknownCriterion(key) => key in scores && key !in byKey
              case ScoreOutOfRange(key) =>
                key in scores && key in byKey && !(0 <= scores[key].score <= byKey[key].max)
              case _ => false
  {
    var unchecked := scores.Keys;
    while unchecked != {}
      invariant unchecked <= scores.Keys
      invariant forall key | key in scores.Keys - unchecked ::
          key in byKey && 0 <= scores[key].score <= byKey[key].max
      decreases |unchecked|
    {
      var key :| key in unchecked;
      if key !in byKey {
        return Some(UnknownCriterion(key));
      }
      if scores[key].score < 0 || scores[key].score > byKey[key].max {
        return Some(ScoreOutOfRange(key));
      }
      unchecked := unchecked - {key};
    }
    return None;
  }

  ghost function KeysOf(rubric: Rubric): set<string> {
    if rubric == [] then {} else KeysOf(rubric[..|rubric| - 1]) + {rubric[|rubric| - 1].key}
  }

  lemma {:induction false} KeysAreListed(rubric: Rubric, key: string)
    ensures key in KeysOf(rubric) <==> exists c :: c in rubric && c.key == key
    ensures key in KeysOf(rubric) <==> Lookup(rubric, key).Some?
  {
    LookupListed(rubric, key);
    if rubric != [] {
      KeysAreListed(rubric[..|rubric| - 1], key);
    }
  }

  lemma NextKeys(criteria: Rubric, i: nat)
    requires i < |criteria|
    ensures KeysOf(criteria[..i + 1]) == KeysOf(criteria[..i]) + {criteria[i].key}
    ensures criteria[i].key in KeysOf(criteria)
  {
    assert criteria[..i + 1][..i] == criteria[..i];
    KeysAreListed(criteria, criteria[i].key);
  }

  lemma CompleteByKeys(scores: map<string, int>, criteria: Rubric)
    ensures Complete(scores, criteria) <==> KeysOf(criteria) <= scores.Keys
  {
    forall key ensures key in KeysOf(criteria) <==> exists c :: c in criteria && c.key == key {
      KeysAreListed(criteria, key);
    }
  }

  lemma NextTotal(scores: map<string, int>, criteria: Rubric, i: nat)
    requires i < |criteria| && criteria[i].key in scores
    ensures Wrap(Wrap(SumPoints(scores, criteria[..i])) + scores[criteria[i].key]) == Wrap(SumPoints(scores, criteria[..i + 1]))
  {
    assert criteria[..i + 1][..i] == criteria[..i];
    WrapAdds(SumPoints(scores, criteria[..i]), scores[criteria[i].key]);
  }

  /** The loop that requires every criterion, copies its score and adds it up. */
  method CollectScores(scores: map<string, CriterionScore>, criteria: Rubric)
    returns (r: Result<Score, ScoreError>)
    ensures r.Ok? <==> Complete(Numbers(scores), criteria)
    ensures r.Ok? ==>
              && r.value.total == Wrap(SumPoints(Numbers(scores), criteria))
              && r.value.criteria.Keys == KeysOf(criteria) <= scores.Keys
              && forall key | key in r.value.criteria :: r.value.criteria[key] == scores[key]
    ensures r.Err? ==>
              r.error.MissingCriterion? && r.error.key !in scores && r.error.key in KeysOf(criteria)
  {
    ghost var numbers := Numbers(scores);
    CompleteByKeys(numbers, criteria);
    assert numbers.Keys == scores.Keys;
    var total: Int64 := 0;
    var validated: map<string, CriterionScore> := map[];
    for i := 0 to |criteria|
      invariant total == Wrap(SumPoints(numbers, criteria[..i]))
      invariant validated.Keys == KeysOf(criteria[..i]) <= scores.Keys
      invariant forall key | key in validated :: validated[key] == scores[key]
    {
      var key := criteria[i].key;
      NextKeys(criteria, i);
      if key !in scores {
        return Err(MissingCriterion(key));
      }
      var score := scores[key];
      assert numbers[key] == score.score;
      NextTotal(numbers, criteria, i);
      validated := validated[key := score];
      total := Wrap(total + score.score);
    }
    assert criteria[..|criteria|] == criteria;
    return Ok(Score(validated, total));
  }

  /** The validated map holds exactly the given scores once every key is known. */
  lemma ValidatedIsGiven(scores: map<string, CriterionScore>, validated: map<string, CriterionScore>, criteria: Rubric)
    requires InRange(Numbers(scores), criteria)
    requires validated.Keys == KeysOf(criteria) <= scores.Keys
    requires forall key | key in validated :: validated[key] == scores[key]
    ensures validated == scores
  {
    forall key | key in scores ensures key in validated {
      assert key in Numbers(scores);
      KeysAreListed(criteria, key);
    }
  }

  /** `CalculateWithCriteria`: build the table, check each score, then require each criterion. */
  method CalculateWithCriteria(scores: map<string, CriterionScore>, criteriaList: Rubric)
    returns (r: Result<Score, ScoreError>)
    ensures r.Ok? <==> Accepts(scores, criteriaList)
    ensures r.Ok? ==> r.value == Calculated(scores, criteriaList)
    ensures r.Err? ==> match r.error
              case UnknownCriterion(key) =>
                key in scores && Lookup(Effective(criteriaList), key).None?
              case ScoreOutOfRange(key) =>
                && key in scores && Lookup(Effective(criteriaList), key).Some?
                && !(0 <= scores[key].score <= Lookup(Effective(criteriaList), key).value.max)
              case MissingCriterion(key) =>
                && InRange(Numbers(scores), Effective(criteriaList))
                && key !in scores && key in KeysOf(Effective(criteriaList))
              case TotalTooLarge =>
                && InRange(Numbers(scores), Effective(criteriaList))
                && Complete(Numbers(scores), Effective(criteriaList))
                && GuardFires(Numbers(scores), Effective(criteriaList))
  {
    var criteria := Effective(criteriaList);
    var byKey, totalMax := BuildTable(criteria);
    var failure := CheckScores(scores, byKey);
    if failure.Some? {
      assert failure.value.key in Numbers(scores);
      return Err(failure.value);
    }
    r := CollectScores(scores, criteria);
    if r.Err? {
      return;
    }
    ValidatedIsGiven(scores, r.value.criteria, criteria);
    if r.value.total > totalMax || (totalMax <= 100 && r.value.total > 100) {
      return Err(TotalTooLarge);
    }
  }

  lemma DefaultRubricFacts()
    ensures DistinctKeys(DefaultRubric())
    ensures SumMax(DefaultRubric()) == 100
    ensures forall c | c in DefaultRubric() :: c.max > 0
  {
    var d := DefaultRubric();
    assert d[..8] == d;
    assert forall i | 0 <= i < 8 :: d[..i + 1][..i] == d[..i];
    assert SumMax(d[..0]) == 0;
    assert SumMax(d[..1]) == 5;
    assert SumMax(d[..2]) == 15;
    assert SumMax(d[..3]) == 35;
    assert SumMax(d[..4]) == 50;
    assert SumMax(d[..5]) == 70;
    assert SumMax(d[..6]) == 85;
    assert SumMax(d[..7]) == 95;
    assert SumMax(d[..8]) == 100;
  }

  /** The sum over a map, one arbitrary key at a time. */
  ghost function MapSum(scores: map<string, int>): int
    decreases |scores|
  {
    if scores == map[] then 0 else
      var key :| key in scores;
      MapSize(scores, key);
      scores[key] + MapSum(scores - {key})
  }

  lemma MapSize(scores: map<string, int>, key: string)
    requires key in scores
    ensures |scores - {key}| < |scores|
  {
    assert (scores - {key}).Keys == scores.Keys - {key};
  }

  lemma {:induction false} TakingOneKey(scores: map<string, int>, rubric: Rubric, key: string)
    requires DistinctKeys(rubric) && key in scores
    ensures SumPoints(scores, rubric) == SumPoints(scores - {key}, rubric)
            + if Lookup(rubric, key).Some? then scores[key] else 0
  {
    if rubric != [] {
      var front := rubric[..|rubric| - 1];
      TakingOneKey(scores, front, key);
      LookupListed(front, key);
    }
  }

  lemma WithoutOneKey(whole: int, rest: map<string, int>, rubric: Rubric, key: string)
    requires DistinctKeys(rubric) && key in rest && Lookup(rubric, key).Some?
    ensures Wrap(Wrap(whole - SumPoints(rest, rubric)) + rest[key]) == Wrap(whole - SumPoints(rest - {key}, rubric))
  {
    TakingOneKey(rest, rubric, key);
    WrapAdds(whole - SumPoints(rest, rubric), rest[key]);
  }

  /** The map sum is the list sum, for every map whose keys the rubric knows. */
  lemma {:induction false} MapSumIsListSum(scores: map<string, int>, rubric: Rubric)
    requires DistinctKeys(rubric)
    requires forall key | key in scores :: Lookup(rubric, key).Some?
    ensures MapSum(scores) == SumPoints(scores, rubric)
    decreases |scores|
  {
    if scores == map[] {
      NoPoints(rubric);
    } else {
      var key :| key in scores && MapSum(scores) == scores[key] + MapSum(scores - {key});
      MapSize(scores, key);
      MapSumIsListSum(scores - {key}, rubric);
      TakingOneKey(scores, rubric, key);
    }
  }

  lemma {:induction false} NoPoints(rubric: Rubric)
    ensures SumPoints(map[], rubric) == 0
  {
    if rubric != [] { NoPoints(rubric[..|rubric| - 1]); }
  }

  lemma DefaultTotalBounded(scores: map<string, int>)
    requires InRange(scores, DefaultRubric())
    ensures 0 <= SumPoints(scores, DefaultRubric()) <= SumMax(DefaultRubric())
  {
    DefaultRubricFacts();
    PointsBounded(scores, DefaultRubric(), |DefaultRubric()|);
    assert DefaultRubric()[..|DefaultRubric()|] == DefaultRubric();
  }

  /** The loop of `CalculateTotal`: check and add one score after another, in any order. */
  method AddScores(scores: map<string, Int64>, criteria: Rubric) returns (r: Result<Int64, ScoreError>)
    requires DistinctKeys(criteria)
    ensures r.Ok? <==> InRange(scores, criteria)
    ensures r.Ok? ==> r.value == Wrap(SumPoints(scores, criteria))
    ensures r.Err? ==> r.error.UnknownCriterion? || r.error.ScoreOutOfRange?
  {
    var total: Int64 := 0;
    var rest := scores;
    while rest.Keys != {}
      invariant forall key | key in rest :: key in scores && rest[key] == scores[key]
      invariant forall key | key in scores && key !in rest ::
          Lookup(criteria, key).Some? && 0 <= scores[key] <= Lookup(criteria, key).value.max
      invariant total == Wrap(SumPoints(scores, criteria) - SumPoints(rest, criteria))
      decreases |rest|
    {
      var key :| key in rest.Keys;
      var criterion := Lookup(criteria, key);
      if criterion.None? {
        return Err(UnknownCriterion(key));
      }
      if scores[key] < 0 || scores[key] > criterion.value.max {
        return Err(ScoreOutOfRange(key));
      }
      MapSize(rest, key);
      WithoutOneKey(SumPoints(scores, criteria), rest, criteria, key);
      total := Wrap(total + scores[key]);
      rest := rest - {key};
    }
    assert rest == map[];
    NoPoints(criteria);
    return Ok(total);
  }

  /**
   `CalculateTotal`: the sum over a map, in any order, against the default rubric.
   The result is the map sum and the check against 100 never refuses, whether the
   map is complete or partial.
   */
  method CalculateTotal(scores: map<string, Int64>) returns (r: Result<Int64, ScoreError>)
    ensures r.Ok? <==> InRange(scores, DefaultRubric())
    ensures r.Ok? ==> r.value == MapSum(scores) && 0 <= r.value <= 100
    ensures r.Err? ==> r.error.UnknownCriterion? || r.error.ScoreOutOfRange?
  {
    DefaultRubricFacts();
    r := AddScores(scores, DefaultRubric());
    if r.Err? {
      return;
    }
    DefaultTotalBounded(scores);
    MapSumIsListSum(scores, DefaultRubric());
    if r.value > 100 {
      assert false;
    }
  }

  /**
   The list sum is the map sum: whenever the calculation accepts scores against the
   default rubric, `CalculateTotal` accepts the same numbers, and both give one total.
   */
  lemma TotalsAgree(scores: map<string, CriterionScore>)
    requires Accepts(scores, DefaultRubric())
    ensures InRange(Numbers(scores), DefaultRubric())
    ensures Calculated(scores, DefaultRubric()).total == MapSum(Numbers(scores))
    ensures 0 <= Calculated(scores, DefaultRubric()).total <= 100
  {
    DefaultRubricFacts();
    TotalGuardIsDead(Numbers(scores), DefaultRubric());
    MapSumIsListSum(Numbers(scores), DefaultRubric());
  }
}
