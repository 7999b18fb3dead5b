/** Workspace playbooks: the configurable rubric and its validation. */
module Playbooks {
  import opened Results
  import opened Machine
  import opened Scoring

  datatype PlaybookCriterion = PlaybookCriterion(key: string, title: string, maxScore: Int64)
  datatype Playbook = Playbook(name: string, criteria: seq<PlaybookCriterion>)

  datatype PlaybookError =
    | NameRequired
    | NoCriteria
    | BlankKey
    | DuplicateKey(key: string)
    | TitleRequired(key: string)
    | NonPositiveMax(key: string)
    | ZeroTotal

  /** White space: the Unicode property, and in Latin-1 the usual control characters and U+85, U+A0. */
  predicate IsSpace(c: char) {
    || '\t' <= c <= '\r' || c == ' ' || c == '\U{85}' || c == '\U{A0}' || c == '\U{1680}'
    || '\U{2000}' <= c <= '\U{200A}' || c == '\U{2028}' || c == '\U{2029}'
    || c == '\U{202F}' || c == '\U{205F}' || c == '\U{3000}'
  }

  function TrimLeft(s: string): string {
    if s != [] && IsSpace(s[0]) then TrimLeft(s[1..]) else s
  }

  function TrimRight(s: string): string {
    if s != [] && IsSpace(s[|s| - 1]) then TrimRight(s[..|s| - 1]) else s
  }

  function TrimSpace(s: string): string {
    TrimRight(TrimLeft(s))
  }

  predicate Blank(s: string) {
    TrimSpace(s) == ""
  }

  lemma {:induction false} TrimRightToEmpty(s: string)
    ensures TrimRight(s) == "" <==> forall i | 0 <= i < |s| :: IsSpace(s[i])
  {
    if s != [] { TrimRightToEmpty(s[..|s| - 1]); }
  }

  /** A string is blank exactly when every character of it is white space. */
  lemma {:induction false} BlankMeansAllSpace(s: string)
    ensures Blank(s) <==> forall i | 0 <= i < |s| :: IsSpace(s[i])
  {
    if s != [] && IsSpace(s[0]) {
      BlankMeansAllSpace(s[1..]);
      assert forall i | 0 < i < |s| :: s[i] == s[1..][i - 1];
    } else {
      TrimRightToEmpty(s);
    }
  }

  predicate AllSpace(s: string) {
    forall i | 0 <= i < |s| :: IsSpace(s[i])
  }

  lemma {:induction false} LeftIsCut(s: string) returns (a: string)
    ensures s == a + TrimLeft(s) && AllSpace(a)
    ensures TrimLeft(s) != "" ==> !IsSpace(TrimLeft(s)[0])
  {
    a := "";
    if s != "" && IsSpace(s[0]) {
      a := LeftIsCut(s[1..]);
      a := [s[0]] + a;
    }
  }

  lemma {:induction false} RightIsCut(s: string) returns (b: string)
    ensures s == TrimRight(s) + b && AllSpace(b)
    ensures TrimRight(s) != "" ==> !IsSpace(TrimRight(s)[|TrimRight(s)| - 1])
  {
    b := "";
    if s != "" && IsSpace(s[|s| - 1]) {
      b := RightIsCut(s[..|s| - 1]);
      b := b + [s[|s| - 1]];
    }
  }

  /** Trimming cuts white space at both ends, all of it, and nothing else. */
  lemma TrimsExactly(s: string) returns (a: string, b: string)
    ensures s == a + TrimSpace(s) + b && AllSpace(a) && AllSpace(b)
    ensures TrimSpace(s) != "" ==> !IsSpace(TrimSpace(s)[0]) && !IsSpace(TrimSpace(s)[|TrimSpace(s)| - 1])
  {
    a := LeftIsCut(s);
    b := RightIsCut(TrimLeft(s));
    assert TrimSpace(s) != "" ==> TrimSpace(s)[0] == TrimLeft(s)[0];
  }

  /** A way of trimming text; validation trims with `TrimSpace`. */
  type Trimmer = string -> string

  predicate GoodCriterion(trim: Trimmer, c: PlaybookCriterion) {
    trim(c.key) != "" && trim(c.title) != "" && c.maxScore > 0
  }

  /** Good criteria whose keys differ after trimming. */
  ghost predicate GoodCriteria(trim: Trimmer, criteria: seq<PlaybookCriterion>) {
    && (forall c | c in criteria :: GoodCriterion(trim, c))
    && (forall i, j | 0 <= i < j < |criteria| :: trim(criteria[i].key) != trim(criteria[j].key))
  }

  /** What the checks before the total demand. */
  ghost predicate WellFormed(p: Playbook) {
    !Blank(p.name) && p.criteria != [] && GoodCriteria(TrimSpace, p.criteria)
  }

  /** What validation demands; the sum it compares with zero has wrapped around. */
  ghost predicate ValidPlaybook(p: Playbook) {
    WellFormed(p) && Wrap(SumMax(RubricOf(p.criteria))) != 0
  }

  /** The rubric the worker scores with: the keys as written, untrimmed. */
  function RubricOf(criteria: seq<PlaybookCriterion>): (r: Rubric)
    ensures |r| == |criteria|
    ensures forall i | 0 <= i < |r| :: r[i] == Criterion(criteria[i].key, criteria[i].maxScore)
  {
    seq(|criteria|, i requires 0 <= i < |criteria| => Criterion(criteria[i].key, criteria[i].maxScore))
  }

  ghost function TrimmedKeys(trim: Trimmer, criteria: seq<PlaybookCriterion>, n: nat): set<string>
    requires n <= |criteria|
  {
    if n == 0 then {} else TrimmedKeys(trim, criteria, n - 1) + {trim(criteria[n - 1].key)}
  }

  /** The first `n` criteria as the loop judges them, one by one. */
  ghost predicate Passes(trim: Trimmer, criteria: seq<PlaybookCriterion>, n: nat)
    requires n <= |criteria|
  {
    n == 0 ||
    (&& Passes(trim, criteria, n - 1) && GoodCriterion(trim, criteria[n - 1])
     && trim(criteria[n - 1].key) !in TrimmedKeys(trim, criteria, n - 1))
  }

  function SumMaxScores(criteria: seq<PlaybookCriterion>, n: nat): int
    requires n <= |criteria|
  {
    if n == 0 then 0 else SumMaxScores(criteria, n - 1) + criteria[n - 1].maxScore
  }

  lemma {:induction false} KeyIsTrimmed(trim: Trimmer, criteria: seq<PlaybookCriterion>, n: nat, key: string)
    requires n <= |criteria|
    ensures key in TrimmedKeys(trim, criteria, n) <==> exists i :: 0 <= i < n && trim(criteria[i].key) == key
  {
    if n > 0 { KeyIsTrimmed(trim, criteria, n - 1, key); }
  }

  lemma {:induction false} PassingMeans(trim: Trimmer, criteria: seq<PlaybookCriterion>, n: nat)
    requires n <= |criteria|
    ensures Passes(trim, criteria, n) <==>
            && (forall i | 0 <= i < n :: GoodCriterion(trim, criteria[i]))
            && (forall i, j | 0 <= i < j < n :: trim(criteria[i].key) != trim(criteria[j].key))
  {
    if n > 0 {
      PassingMeans(trim, criteria, n - 1);
      KeyIsTrimmed(trim, criteria, n - 1, trim(criteria[n - 1].key));
    }
  }

  lemma PassingIsGood(trim: Trimmer, criteria: seq<PlaybookCriterion>)
    ensures Passes(trim, criteria, |criteria|) <==> GoodCriteria(trim, criteria)
  {
    PassingMeans(trim, criteria, |criteria|);
    if Passes(trim, criteria, |criteria|) {
      forall c | c in criteria ensures GoodCriterion(trim, c) {
        var i :| 0 <= i < |criteria| && criteria[i] == c;
      }
    }
  }

  /** One criterion that does not pass condemns the list. */
  lemma {:induction false} OneFails(trim: Trimmer, criteria: seq<PlaybookCriterion>, i: nat, n: nat)
    requires i < n <= |criteria|
    requires !GoodCriterion(trim, criteria[i]) || trim(criteria[i].key) in TrimmedKeys(trim, criteria, i)
    ensures !Passes(trim, criteria, n)
  {
    if i < n - 1 { OneFails(trim, criteria, i, n - 1); }
  }

  lemma {:induction false} RubricSums(criteria: seq<PlaybookCriterion>, n: nat)
    requires n <= |criteria|
    ensures SumMax(RubricOf(criteria)[..n]) == SumMaxScores(criteria, n)
  {
    if n > 0 {
      RubricSums(criteria, n - 1);
      assert RubricOf(criteria)[..n][..n - 1] == RubricOf(criteria)[..n - 1];
    }
  }

  /** The loop of `Validate`: judge the criteria in order and add up their maxima. */
  method CheckCriteria(trim: Trimmer, criteria: seq<PlaybookCriterion>) returns (failure: Option<PlaybookError>, totalMax: Int64)
    ensures failure.None? <==> Passes(trim, criteria, |criteria|)
    ensures failure.None? ==> totalMax == Wrap(SumMaxScores(criteria, |criteria|))
    ensures failure != Some(ZeroTotal)
  {
    var keys: set<string> := {};
    totalMax := 0;
    for i := 0 to |criteria|
      invariant keys == TrimmedKeys(trim, criteria, i) && Passes(trim, criteria, i)
      invariant totalMax == Wrap(SumMaxScores(criteria, i))
    {
      var c := criteria[i];
      var key := trim(c.key);
      if key == "" {
        OneFails(trim, criteria, i, |criteria|);
        return Some(BlankKey), totalMax;
      }
      if key in keys {
        OneFails(trim, criteria, i, |criteria|);
        return Some(DuplicateKey(key)), totalMax;
      }
      keys := keys + {key};
      if trim(c.title) == "" {
        OneFails(trim, criteria, i, |criteria|);
        return Some(TitleRequired(key)), totalMax;
      }
      if c.maxScore <= 0 {
        OneFails(trim, criteria, i, |criteria|);
        return Some(NonPositiveMax(key)), totalMax;
      }
      WrapAdds(SumMaxScores(criteria, i), c.maxScore);
      totalMax := Wrap(totalMax + c.maxScore);
    }
    return None, totalMax;
  }

  /** `Validate`. */
  method Validate(p: Playbook) returns (failure: Option<PlaybookError>)
    ensures failure.None? <==> ValidPlaybook(p)
    ensures failure == Some(ZeroTotal) <==> WellFormed(p) && !ValidPlaybook(p)
  {
    if Blank(p.name) {
      return Some(NameRequired);
    }
    if |p.criteria| == 0 {
      return Some(NoCriteria);
    }
    PassingIsGood(TrimSpace, p.criteria);
    RubricSums(p.criteria, |p.criteria|);
    assert RubricOf(p.criteria)[..|p.criteria|] == RubricOf(p.criteria);
    var totalMax;
    failure, totalMax := CheckCriteria(TrimSpace, p.criteria);
    if failure.None? && totalMax == 0 {
      return Some(ZeroTotal);
    }
  }

  /**
   Validation compares trimmed keys and keeps untrimmed ones; the rubric built from
   a well-formed playbook still has distinct keys and positive maxima.
   */
  lemma ValidRubric(p: Playbook)
    requires WellFormed(p)
    ensures RubricOf(p.criteria) != [] && DistinctKeys(RubricOf(p.criteria))
    ensures forall c | c in RubricOf(p.criteria) :: c.max > 0
  {
    var rubric := RubricOf(p.criteria);
    forall i, j | 0 <= i < j < |rubric| ensures rubric[i].key != rubric[j].key {
      assert TrimSpace(p.criteria[i].key) != TrimSpace(p.criteria[j].key);
    }
    forall c | c in rubric ensures c.max > 0 {
      var i :| 0 <= i < |rubric| && rubric[i] == c;
      assert p.criteria[i] in p.criteria;
    }
  }

  /**
   The calculator's total guard is dead for a valid playbook exactly when the wrapped
   sum of its maxima is not below what full marks reach; so always while the maxima
   sum to at most the largest integer, which validation does not check.
   */
  lemma GuardDeadForPlaybookExactly(p: Playbook)
    requires ValidPlaybook(p)
    ensures !GuardAlive(RubricOf(p.criteria)) <==>
            Wrap(SumMax(RubricOf(p.criteria))) == Min(SumMax(RubricOf(p.criteria)), MAX)
    ensures SumMax(RubricOf(p.criteria)) <= MAX ==> !GuardAlive(RubricOf(p.criteria))
  {
    ValidRubric(p);
    GuardDeadExactly(RubricOf(p.criteria));
  }

  // ----- playbooks whose maxima overflow -----

  lemma PlainText(s: string)
    requires s != "" && !IsSpace(s[0]) && !IsSpace(s[|s| - 1])
    ensures TrimSpace(s) == s && !Blank(s)
  {
  }

  function TwoCriteria(first: Int64, second: Int64): Playbook {
    Playbook("p", [PlaybookCriterion("a", "A", first), PlaybookCriterion("b", "B", second)])
  }

  lemma TwoCriteriaAreWellFormed(first: Int64, second: Int64)
    requires first > 0 && second > 0
    ensures WellFormed(TwoCriteria(first, second))
    ensures SumMax(RubricOf(TwoCriteria(first, second).criteria)) == first + second
  {
    PlainText("p");
    PlainText("a");
    PlainText("b");
    PlainText("A");
    PlainText("B");
    var rubric := RubricOf(TwoCriteria(first, second).criteria);
    assert rubric[..1][..0] == [];
    assert SumMax(rubric[..1]) == first;
  }

  /**
   A valid playbook with a live guard: its maxima wrap to the least integer, so the
   calculator refuses every complete set of scores but full marks, whose own total wraps
   to that least integer too.
   */
  lemma OverflowingPlaybook(scores: map<string, Int64>)
    ensures var p := TwoCriteria(MAX, 1);
            var rubric := RubricOf(p.criteria);
            && ValidPlaybook(p) && GuardAlive(rubric) && Wrap(SumMax(rubric)) == MIN
            && (ReachesGuard(scores, rubric) ==> (GuardFires(scores, rubric) <==> SumPoints(scores, rubric) < SumMax(rubric)))
  {
    var p := TwoCriteria(MAX, 1);
    var rubric := RubricOf(p.criteria);
    TwoCriteriaAreWellFormed(MAX, 1);
    assert Wrap(SumMax(rubric)) == MIN by { WrapAdds(MAX, 1); }
    ValidRubric(p);
    GuardDeadForPlaybookExactly(p);
    if ReachesGuard(scores, rubric) {
      TotalGuardIsDead(scores, rubric);
    }
  }

  function ThreeCriteria(): Playbook {
    Playbook("p", [PlaybookCriterion("a", "A", MAX), PlaybookCriterion("b", "B", MAX), PlaybookCriterion("c", "C", 2)])
  }

  /** The total check is not dead either: positive maxima can wrap to exactly zero. */
  lemma ZeroTotalIsReached()
    ensures WellFormed(ThreeCriteria()) && !ValidPlaybook(ThreeCriteria())
  {
    PlainText("p");
    PlainText("a");
    PlainText("b");
    PlainText("c");
    PlainText("A");
    PlainText("B");
    PlainText("C");
    var rubric := RubricOf(ThreeCriteria().criteria);
    assert rubric[..1][..0] == [] && rubric[..2][..1] == rubric[..1];
    assert SumMax(rubric[..1]) == MAX && SumMax(rubric[..2]) == MAX + MAX;
    assert SumMax(rubric) == RANGE && Wrap(RANGE) == Wrap(0) by { WrapTurns(0); }
  }

  // ----- the seeded playbook -----

  function DefaultCriteria(): seq<PlaybookCriterion> {
    [ PlaybookCriterion("greeting", "Корпоративное приветствие", 5),
      PlaybookCriterion("rapport", "Установление контакта", 10),
      PlaybookCriterion("needs_discovery", "Выявление потребностей", 20),
      PlaybookCriterion("presentation", "Презентация решения", 15),
      PlaybookCriterion("objection_handling", "Отработка возражений", 20),
      PlaybookCriterion("next_action", "Фиксация следующего шага", 15),
      PlaybookCriterion("communication", "Грамотность и этика речи", 10),
      PlaybookCriterion("closing", "Завершение разговора", 5) ]
  }

  lemma DefaultTextsArePlain(i: nat)
    requires i < 8
    ensures TrimSpace(DefaultCriteria()[i].key) == DefaultCriteria()[i].key
    ensures GoodCriterion(TrimSpace, DefaultCriteria()[i])
  {
    PlainText(DefaultCriteria()[i].key);
    PlainText(DefaultCriteria()[i].title);
  }

  /** The seeded criteria are the built-in rubric, and under any name they are a valid playbook. */
  lemma DefaultCriteriaAreTheDefaultRubric(name: string)
    requires !Blank(name)
    ensures RubricOf(DefaultCriteria()) == DefaultRubric()
    ensures ValidPlaybook(Playbook(name, DefaultCriteria()))
  {
    var criteria := DefaultCriteria();
    assert RubricOf(criteria) == DefaultRubric();
    DefaultRubricFacts();
    forall c | c in criteria ensures GoodCriterion(TrimSpace, c) {
      var i :| 0 <= i < 8 && criteria[i] == c;
      DefaultTextsArePlain(i);
    }
    forall i, j | 0 <= i < j < 8 ensures TrimSpace(criteria[i].key) != TrimSpace(criteria[j].key) {
      DefaultTextsArePlain(i);
      DefaultTextsArePlain(j);
      assert DefaultRubric()[i].key != DefaultRubric()[j].key;
    }
  }
}
