/**
 Who sees which calls: the three builders of WHERE clauses for lists, details and the
 dashboard. A condition has a meaning, on arguments, a call and the membership table,
 and a text, the clause that is sent to the database. IDs are numbers, zero the nil ID.
 */
module Scope {
  import opened Results
  import opened Placeholders
  import opened Memberships
  import opened Reading

  datatype Viewer = Viewer(workspace: Uuid, user: Uuid, membership: Uuid, role: Role)

  // ----- conditions -----

  datatype Condition =
    | CallIs(arg: nat)
    | WorkspaceIs(arg: nat)
    | OwnerIs(arg: nat)
    | OwnerIsManaged(workspaceArg: nat, supervisorArg: nat)
    | And(left: Condition, right: Condition)
    | Either(left: Condition, right: Condition)

  /** Every placeholder the condition mentions is one of $1..$n. */
  predicate UsesUpTo(c: Condition, n: nat) {
    match c
    case CallIs(arg) => 0 < arg <= n
    case WorkspaceIs(arg) => 0 < arg <= n
    case OwnerIs(arg) => 0 < arg <= n
    case OwnerIsManaged(w, s) => 0 < w <= n && 0 < s <= n
    case And(l, r) => UsesUpTo(l, n) && UsesUpTo(r, n)
    case Either(l, r) => UsesUpTo(l, n) && UsesUpTo(r, n)
  }

  /** SELECT user_id of the active managers in a workspace with this supervisor. */
  predicate Manages(members: Table, workspace: Uuid, supervisor: Uuid, user: Uuid) {
    exists m | m in members ::
      && members[m].user == user && members[m].workspace == workspace
      && members[m].supervisor == Some(supervisor)
      && members[m].role == Manager && members[m].status == Active
  }

  predicate Holds(c: Condition, args: seq<Uuid>, call: Call, members: Table)
    requires UsesUpTo(c, |args|)
  {
    match c
    case CallIs(arg) => call.id == args[arg - 1]
    case WorkspaceIs(arg) => call.workspace == args[arg - 1]
    case OwnerIs(arg) => call.owner == args[arg - 1]
    case OwnerIsManaged(w, s) => Manages(members, args[w - 1], args[s - 1], call.owner)
    case And(l, r) => Holds(l, args, call, members) && Holds(r, args, call, members)
    case Either(l, r) => Holds(l, args, call, members) || Holds(r, args, call, members)
  }

  function Argument(n: nat): Piece {
    Param(Dec(n))
  }

  function SubqueryHead(): Clause {
    [Text("c.owner_user_id IN (\n"), Text("SELECT managed.user_id"), Text(" FROM workspace_memberships managed\n")]
  }

  function SubqueryTail(): Clause {
    [Text("\n  AND managed.role = 'manager'"), Text(" AND managed.status = 'active')")]
  }

  /** The clause as the builders spell it. */
  function Written(c: Condition): Clause {
    match c
    case CallIs(arg) => [Text("c.id = "), Argument(arg)]
    case WorkspaceIs(arg) => [Text("c.workspace_id = "), Argument(arg)]
    case OwnerIs(arg) => [Text("c.owner_user_id = "), Argument(arg)]
    case OwnerIsManaged(w, s) =>
      SubqueryHead() + [Text("WHERE managed.workspace_id = "), Argument(w)]
      + [Text(" AND managed.supervisor_membership_id = "), Argument(s)] + SubqueryTail()
    case And(l, r) => Written(l) + [Text(" AND ")] + Written(r)
    case Either(l, r) => [Text("(")] + Written(l) + [Text(" OR ")] + Written(r) + [Text(")")]
  }

  /** The same condition with room made for one argument in front. */
  function Shifted(c: Condition): Condition {
    match c
    case CallIs(arg) => CallIs(arg + 1)
    case WorkspaceIs(arg) => WorkspaceIs(arg + 1)
    case OwnerIs(arg) => OwnerIs(arg + 1)
    case OwnerIsManaged(w, s) => OwnerIsManaged(w + 1, s + 1)
    case And(l, r) => And(Shifted(l), Shifted(r))
    case Either(l, r) => Either(Shifted(l), Shifted(r))
  }

  /** Shifting the placeholders and putting an argument in front leaves the meaning alone. */
  lemma {:induction false} ShiftedMeansTheSame(c: Condition, args: seq<Uuid>, first: Uuid, call: Call, members: Table)
    requires UsesUpTo(c, |args|)
    ensures UsesUpTo(Shifted(c), |[first] + args|)
    ensures Holds(Shifted(c), [first] + args, call, members) == Holds(c, args, call, members)
  {
    match c
    case And(l, r) =>
      ShiftedMeansTheSame(l, args, first, call, members);
      ShiftedMeansTheSame(r, args, first, call, members);
    case Either(l, r) =>
      ShiftedMeansTheSame(l, args, first, call, members);
      ShiftedMeansTheSame(r, args, first, call, members);
    case _ =>
  }

  lemma NumberedPiece(n: nat, bound: nat)
    requires 0 < n <= bound
    ensures GoodPiece(Argument(n)) && Argument(n).Param? && Value(Argument(n).digits) == n
    ensures Within([Argument(n)], bound)
  {
    DecIsCanonical(n);
    assert Argument(n).digits == Dec(n);
  }

  lemma GoodConcat(a: Clause, b: Clause, n: nat)
    requires Good(a) && Good(b) && Within(a, n) && Within(b, n)
    ensures Good(a + b) && Within(a + b, n)
  {
    forall p | p in a + b ensures GoodPiece(p) && (p.Param? ==> exists k :: 0 < k <= n && p.digits == Dec(k)) {
      assert p in a || p in b;
    }
  }

  lemma TextShifts(text: string, n: nat)
    requires text != "" && !IsDigit(text[0]) && '$' !in text
    ensures ShiftsTo([Text(text)], [Text(text)], n)
  {
  }

  lemma ArgumentShifts(arg: nat, n: nat)
    requires 0 < arg <= n
    ensures ShiftsTo([Argument(arg)], [Argument(arg + 1)], n)
  {
    NumberedPiece(arg, n);
  }

  /** A clause that is good, within bounds, and shifts to another. */
  ghost predicate ShiftsTo(a: Clause, a': Clause, n: nat) {
    Good(a) && Within(a, n) && Shift(a) == a'
  }

  lemma ConcatShifts(a: Clause, a': Clause, b: Clause, b': Clause, n: nat)
    requires ShiftsTo(a, a', n) && ShiftsTo(b, b', n)
    ensures ShiftsTo(a + b, a' + b', n)
  {
    GoodConcat(a, b, n);
    ShiftJoins(a, b);
  }

  lemma {:induction false} ShiftJoins(a: Clause, b: Clause)
    ensures Shift(a + b) == Shift(a) + Shift(b)
  {
    if a == [] {
      assert a + b == b;
    } else {
      assert (a + b)[1..] == a[1..] + b;
      ShiftJoins(a[1..], b);
    }
  }

  lemma ComparisonShifts(text: string, arg: nat, n: nat)
    requires text != "" && !IsDigit(text[0]) && '$' !in text && 0 < arg <= n
    ensures ShiftsTo([Text(text), Argument(arg)], [Text(text), Argument(arg + 1)], n)
  {
    TextShifts(text, n);
    ArgumentShifts(arg, n);
    ConcatShifts([Text(text)], [Text(text)], [Argument(arg)], [Argument(arg + 1)], n);
    assert [Text(text)] + [Argument(arg)] == [Text(text), Argument(arg)];
    assert [Text(text)] + [Argument(arg + 1)] == [Text(text), Argument(arg + 1)];
  }

  ghost predicate PlainText(p: Piece) {
    p.Text? && GoodPiece(p)
  }

  /** Texts without placeholders shift to themselves. */
  lemma {:induction false} PlainTextsShift(c: Clause, n: nat)
    requires forall p | p in c :: PlainText(p)
    ensures ShiftsTo(c, c, n)
  {
    assert forall i | 0 <= i < |c| :: c[i] in c && PlainText(c[i]);
    assert Shift(c) == c;
  }

  lemma HeadIsPlain()
    ensures forall p | p in SubqueryHead() :: PlainText(p)
  {
    assert PlainText(Text("c.owner_user_id IN (\n"));
    assert PlainText(Text("SELECT managed.user_id"));
    assert PlainText(Text(" FROM workspace_memberships managed\n"));
  }

  lemma TailIsPlain()
    ensures forall p | p in SubqueryTail() :: PlainText(p)
  {
    assert PlainText(Text("\n  AND managed.role = 'manager'"));
    assert PlainText(Text(" AND managed.status = 'active')"));
  }

  lemma SubqueryShifts(w: nat, s: nat, n: nat)
    requires 0 < w <= n && 0 < s <= n
    ensures ShiftsTo(Written(OwnerIsManaged(w, s)), Written(OwnerIsManaged(w + 1, s + 1)), n)
  {
    var t1, t2 := "WHERE managed.workspace_id = ", " AND managed.supervisor_membership_id = ";
    HeadIsPlain();
    PlainTextsShift(SubqueryHead(), n);
    ComparisonShifts(t1, w, n);
    ComparisonShifts(t2, s, n);
    TailIsPlain();
    PlainTextsShift(SubqueryTail(), n);
    FourShift(SubqueryHead(), [Text(t1), Argument(w)], [Text(t1), Argument(w + 1)],
              [Text(t2), Argument(s)], [Text(t2), Argument(s + 1)], SubqueryTail(), n);
  }

  lemma FourShift(head: Clause, a: Clause, a': Clause, b: Clause, b': Clause, tail: Clause, n: nat)
    requires ShiftsTo(head, head, n) && ShiftsTo(a, a', n) && ShiftsTo(b, b', n) && ShiftsTo(tail, tail, n)
    ensures ShiftsTo(head + a + b + tail, head + a' + b' + tail, n)
  {
    ConcatShifts(head, head, a, a', n);
    ConcatShifts(head + a, head + a', b, b', n);
    ConcatShifts(head + a + b, head + a' + b', tail, tail, n);
  }

  /** The written clause of a condition shifts to the written clause of the shifted condition. */
  lemma {:induction false} WrittenShifts(c: Condition, n: nat)
    requires UsesUpTo(c, n)
    ensures ShiftsTo(Written(c), Written(Shifted(c)), n)
  {
    match c
    case OwnerIsManaged(w, s) => SubqueryShifts(w, s, n);
    case And(l, r) =>
      WrittenShifts(l, n);
      WrittenShifts(r, n);
      AndShifts(Written(l), Written(Shifted(l)), Written(r), Written(Shifted(r)), n);
    case Either(l, r) =>
      WrittenShifts(l, n);
      WrittenShifts(r, n);
      EitherShifts(Written(l), Written(Shifted(l)), Written(r), Written(Shifted(r)), n);
    case _ => OneComparisonShifts(c, n);
  }

  lemma OneComparisonShifts(c: Condition, n: nat)
    requires UsesUpTo(c, n) && (c.CallIs? || c.WorkspaceIs? || c.OwnerIs?)
    ensures ShiftsTo(Written(c), Written(Shifted(c)), n)
  {
    match c
    case CallIs(arg) => ComparisonShifts("c.id = ", arg, n);
    case WorkspaceIs(arg) => ComparisonShifts("c.workspace_id = ", arg, n);
    case OwnerIs(arg) => ComparisonShifts("c.owner_user_id = ", arg, n);
  }

  lemma AndShifts(l: Clause, l': Clause, r: Clause, r': Clause, n: nat)
    requires ShiftsTo(l, l', n) && ShiftsTo(r, r', n)
    ensures ShiftsTo(l + [Text(" AND ")] + r, l' + [Text(" AND ")] + r', n)
  {
    TextShifts(" AND ", n);
    ConcatShifts(l, l', [Text(" AND ")], [Text(" AND ")], n);
    ConcatShifts(l + [Text(" AND ")], l' + [Text(" AND ")], r, r', n);
  }

  lemma EitherShifts(l: Clause, l': Clause, r: Clause, r': Clause, n: nat)
    requires ShiftsTo(l, l', n) && ShiftsTo(r, r', n)
    ensures ShiftsTo([Text("(")] + l + [Text(" OR ")] + r + [Text(")")],
                     [Text("(")] + l' + [Text(" OR ")] + r' + [Text(")")], n)
  {
    TextShifts("(", n);
    TextShifts(" OR ", n);
    TextShifts(")", n);
    ConcatShifts([Text("(")], [Text("(")], l, l', n);
    ConcatShifts([Text("(")] + l, [Text("(")] + l', [Text(" OR ")], [Text(" OR ")], n);
    ConcatShifts([Text("(")] + l + [Text(" OR ")], [Text("(")] + l' + [Text(" OR ")], r, r', n);
    ConcatShifts([Text("(")] + l + [Text(" OR ")] + r, [Text("(")] + l' + [Text(" OR ")] + r', [Text(")")], [Text(")")], n);
  }

  /** Up to eight arguments, renumbering the written clause is writing the shifted condition. */
  lemma RenumberedIsShifted(c: Condition, n: nat)
    requires UsesUpTo(c, n) && n <= 8
    ensures RenumberFrom(Render(Written(c)), n) == Render(Written(Shifted(c)))
  {
    WrittenShifts(c, n);
    RenumberingIsShiftExactly(Written(c), n);
    forall p | p in Written(c) ensures !AboveEight(p) {
      if p.Param? {
        var k :| 0 < k <= n && p.digits == Dec(k);
        DecIsCanonical(k);
      }
    }
  }

  // ----- the text means the condition -----

  /** A clause rendered in front of more text. */
  function RenderThen(c: Clause, rest: string): string {
    if c == [] then rest else RenderPiece(c[0]) + RenderThen(c[1..], rest)
  }

  lemma {:induction false} RenderThenIsRender(c: Clause, rest: string)
    ensures RenderThen(c, rest) == Render(c) + rest
  {
    if c != [] { RenderThenIsRender(c[1..], rest); }
  }

  lemma {:induction false} RenderThenJoins(a: Clause, b: Clause, rest: string)
    ensures RenderThen(a + b, rest) == RenderThen(a, RenderThen(b, rest))
  {
    if a == [] {
      assert a + b == b;
    } else {
      RenderThenJoins(a[1..], b, rest);
      assert (a + b)[1..] == a[1..] + b;
    }
  }

  lemma RenderTwo(p: Piece, q: Piece, rest: string)
    ensures RenderThen([p], rest) == RenderPiece(p) + rest
    ensures RenderThen([p, q], rest) == RenderPiece(p) + (RenderPiece(q) + rest)
  {
    assert [p][1..] == [] && [p, q][1..] == [q] && [q][1..] == [];
    assert RenderThen([q], rest) == RenderPiece(q) + RenderThen([], rest);
  }

  lemma RenderThree(p: Piece, q: Piece, r: Piece, rest: string)
    ensures RenderThen([p, q, r], rest) == RenderPiece(p) + (RenderPiece(q) + (RenderPiece(r) + rest))
  {
    assert [p, q, r][1..] == [q, r];
    RenderTwo(q, r, rest);
  }

  predicate IsAtom(c: Condition) {
    c.CallIs? || c.WorkspaceIs? || c.OwnerIs? || c.OwnerIsManaged?
  }

  /** What the reader of clauses takes: tests joined by AND, each an atom or a choice of two. */
  predicate Readable(c: Condition) {
    match c
    case And(l, r) => Readable(l) && Readable(r)
    case Either(l, r) => IsAtom(l) && IsAtom(r)
    case _ => true
  }

  function TestOf(c: Condition): Test
    requires !c.And? && Readable(c)
  {
    match c
    case CallIs(arg) => CallTest(arg)
    case WorkspaceIs(arg) => WorkspaceTest(arg)
    case OwnerIs(arg) => OwnerTest(arg)
    case OwnerIsManaged(w, s) => TeamTest(w, s)
    case Either(l, r) => AnyOf(TestOf(l), TestOf(r))
  }

  function TestsOf(c: Condition): seq<Test>
    requires Readable(c)
  {
    if c.And? then TestsOf(c.left) + TestsOf(c.right) else [TestOf(c)]
  }

  lemma TeamReads(w: nat, s: nat, rest: string)
    ensures RenderThen(Written(OwnerIsManaged(w, s)), rest) == TeamText(w, s, rest)
  {
    var head, tail := SubqueryHead(), SubqueryTail();
    var a, b := [Text("WHERE managed.workspace_id = "), Argument(w)], [Text(" AND managed.supervisor_membership_id = "), Argument(s)];
    RenderThenJoins(head + a + b, tail, rest);
    RenderThenJoins(head + a, b, RenderThen(tail, rest));
    RenderThenJoins(head, a, RenderThen(b, RenderThen(tail, rest)));
    RenderTwo(tail[0], tail[1], rest);
    RenderTwo(b[0], b[1], EndText(rest));
    RenderTwo(a[0], a[1], RenderThen(b, EndText(rest)));
    RenderThree(head[0], head[1], head[2], MemberText(w, s, rest));
  }

  lemma AtomReads(c: Condition, rest: string)
    requires IsAtom(c) && !StartsWithDigit(rest)
    ensures ReadAtom(RenderThen(Written(c), rest)) == Some((TestOf(c), rest))
    ensures RenderThen(Written(c), rest) != "" && RenderThen(Written(c), rest)[0] == 'c'
  {
    match c
    case CallIs(arg) =>
      RenderTwo(Text("c.id = "), Argument(arg), rest);
      ReadsCall(arg, rest);
    case WorkspaceIs(arg) =>
      RenderTwo(Text("c.workspace_id = "), Argument(arg), rest);
      ReadsWorkspace(arg, rest);
    case OwnerIs(arg) =>
      RenderTwo(Text("c.owner_user_id = "), Argument(arg), rest);
      ReadsOwner(arg, rest);
    case OwnerIsManaged(w, s) =>
      TeamReads(w, s, rest);
      ReadsTeam(w, s, rest);
  }

  lemma EitherReads(l: Condition, r: Condition, rest: string)
    requires IsAtom(l) && IsAtom(r)
    ensures ReadTest(RenderThen(Written(Either(l, r)), rest)) == Some((AnyOf(TestOf(l), TestOf(r)), rest))
  {
    var middle := RenderThen(Written(r), ")" + rest);
    var inner := RenderThen(Written(l), " OR " + middle);
    AtomReads(r, ")" + rest);
    AtomReads(l, " OR " + middle);
    EitherText(Written(l), Written(r), rest);
    ReadsAnyOf(inner, TestOf(l), middle, TestOf(r), rest);
  }

  lemma EitherText(l: Clause, r: Clause, rest: string)
    ensures RenderThen([Text("(")] + l + [Text(" OR ")] + r + [Text(")")], rest)
         == "(" + RenderThen(l, " OR " + RenderThen(r, ")" + rest))
  {
    var open, or, close := [Text("(")], [Text(" OR ")], [Text(")")];
    RenderThenJoins(open + l + or + r, close, rest);
    RenderThenJoins(open + l + or, r, ")" + rest);
    RenderThenJoins(open + l, or, RenderThen(r, ")" + rest));
    RenderThenJoins(open, l, " OR " + RenderThen(r, ")" + rest));
    RenderTwo(close[0], close[0], rest);
    RenderTwo(or[0], or[0], RenderThen(r, ")" + rest));
    RenderTwo(open[0], open[0], RenderThen(l, " OR " + RenderThen(r, ")" + rest)));
  }

  lemma TestReads(c: Condition, rest: string)
    requires !c.And? && Readable(c) && !StartsWithDigit(rest)
    ensures ReadTest(RenderThen(Written(c), rest)) == Some((TestOf(c), rest))
  {
    if c.Either? {
      EitherReads(c.left, c.right, rest);
    } else {
      AtomReads(c, rest);
      StripsNoOther("(", RenderThen(Written(c), rest), 0);
    }
  }

  /** A written condition, alone or with more tests behind it, is read as its own tests. */
  lemma {:induction false} ConditionReads(c: Condition, more: Option<string>, tests: seq<Test>)
    requires Readable(c)
    requires if more.Some? then ReadTests(more.value) == Some(tests) else tests == []
    ensures ReadTests(RenderThen(Written(c), if more.Some? then " AND " + more.value else "")) == Some(TestsOf(c) + tests)
  {
    var rest := if more.Some? then " AND " + more.value else "";
    if c.And? {
      var right := RenderThen(Written(c.right), rest);
      AndText(Written(c.left), Written(c.right), rest);
      ConditionReads(c.right, more, tests);
      ConditionReads(c.left, Some(right), TestsOf(c.right) + tests);
      assert TestsOf(c.left) + (TestsOf(c.right) + tests) == TestsOf(c) + tests;
    } else {
      OneTestReads(c, more, tests);
    }
  }

  lemma AndText(l: Clause, r: Clause, rest: string)
    ensures RenderThen(l + [Text(" AND ")] + r, rest) == RenderThen(l, " AND " + RenderThen(r, rest))
  {
    var and := [Text(" AND ")];
    RenderThenJoins(l + and, r, rest);
    RenderThenJoins(l, and, RenderThen(r, rest));
    RenderTwo(and[0], and[0], RenderThen(r, rest));
  }

  lemma OneTestReads(c: Condition, more: Option<string>, tests: seq<Test>)
    requires !c.And? && Readable(c)
    requires if more.Some? then ReadTests(more.value) == Some(tests) else tests == []
    ensures ReadTests(RenderThen(Written(c), if more.Some? then " AND " + more.value else "")) == Some([TestOf(c)] + tests)
  {
    var rest := if more.Some? then " AND " + more.value else "";
    TestReads(c, rest);
    if more.Some? {
      ReadsNext(RenderThen(Written(c), rest), TestOf(c), more.value, tests);
    } else {
      ReadsLast(RenderThen(Written(c), rest), TestOf(c));
      assert [TestOf(c)] + tests == [TestOf(c)];
    }
  }

  lemma TestMeans(c: Condition, args: seq<Uuid>, call: Call, members: Table)
    requires !c.And? && Readable(c) && UsesUpTo(c, |args|)
    ensures TestHolds(TestOf(c), args, call, members) <==> Holds(c, args, call, members)
  {
    if c.Either? {
      AtomMeans(c.left, args, call, members);
      AtomMeans(c.right, args, call, members);
    } else {
      AtomMeans(c, args, call, members);
    }
  }

  lemma AtomMeans(c: Condition, args: seq<Uuid>, call: Call, members: Table)
    requires IsAtom(c) && UsesUpTo(c, |args|)
    ensures TestHolds(TestOf(c), args, call, members) <==> Holds(c, args, call, members)
  {
  }

  lemma {:induction false} TestsMean(c: Condition, args: seq<Uuid>, call: Call, members: Table)
    requires Readable(c) && UsesUpTo(c, |args|)
    ensures (forall t | t in TestsOf(c) :: TestHolds(t, args, call, members)) <==> Holds(c, args, call, members)
  {
    if c.And? {
      TestsMean(c.left, args, call, members);
      TestsMean(c.right, args, call, members);
      assert forall t :: t in TestsOf(c) <==> t in TestsOf(c.left) || t in TestsOf(c.right);
    } else {
      TestMeans(c, args, call, members);
    }
  }

  /** The text of a condition, read back column by column, selects exactly the calls it holds for. */
  lemma TextSelectsExactly(c: Condition, args: seq<Uuid>, call: Call, members: Table)
    requires Readable(c) && UsesUpTo(c, |args|)
    ensures Selected(Render(Written(c)), args, call, members) <==> Holds(c, args, call, members)
  {
    ConditionReads(c, None, []);
    RenderThenIsRender(Written(c), "");
    assert Render(Written(c)) + "" == Render(Written(c)) && TestsOf(c) + [] == TestsOf(c);
    TestsMean(c, args, call, members);
  }

  // ----- the builders -----

  datatype Query = Query(where': Condition, args: seq<Uuid>)

  predicate ValidViewer(v: Viewer) {
    v.workspace != 0 && v.user != 0 && v.membership != 0
  }

  /** `listScope`; an invalid actor gets an error, None here. */
  function ListScope(v: Viewer, filter: Option<Uuid>): (q: Option<Query>)
    ensures q.Some? ==> UsesUpTo(q.value.where', |q.value.args|) && |q.value.args| <= 4
  {
    if !ValidViewer(v) then None else
      match v.role
      case Owner => Some(if filter.Some? && filter.value != 0
                         then Query(And(WorkspaceIs(1), OwnerIs(2)), [v.workspace, filter.value])
                         else Query(WorkspaceIs(1), [v.workspace]))
      case Admin => Some(if filter.Some? && filter.value != 0
                         then Query(And(WorkspaceIs(1), OwnerIs(2)), [v.workspace, filter.value])
                         else Query(WorkspaceIs(1), [v.workspace]))
      case Manager => Some(Query(And(WorkspaceIs(1), OwnerIs(2)), [v.workspace, v.user]))
      case Supervisor => Some(if filter.Some? && filter.value != 0
                         then Query(And(And(WorkspaceIs(1), OwnerIs(2)), Either(OwnerIs(3), OwnerIsManaged(1, 4))),
                                    [v.workspace, filter.value, v.user, v.membership])
                         else Query(And(WorkspaceIs(1), Either(OwnerIs(2), OwnerIsManaged(1, 3))),
                                    [v.workspace, v.user, v.membership]))
  }

  /** `dashboardScope`, the builder that repeats the rule in another package. */
  function DashboardScope(v: Viewer): (q: Option<Query>)
    ensures q.Some? ==> UsesUpTo(q.value.where', |q.value.args|)
  {
    if !ValidViewer(v) then None else
      match v.role
      case Owner => Some(Query(WorkspaceIs(1), [v.workspace]))
      case Admin => Some(Query(WorkspaceIs(1), [v.workspace]))
      case Manager => Some(Query(And(WorkspaceIs(1), OwnerIs(2)), [v.workspace, v.user]))
      case Supervisor => Some(Query(And(WorkspaceIs(1), Either(OwnerIs(2), OwnerIsManaged(1, 3))),
                                    [v.workspace, v.user, v.membership]))
  }

  /** The clause `detailScope` should send: the list scope moved up by one, after the call's ID. */
  function DetailScope(v: Viewer): (q: Option<Query>)
    ensures q.Some? ==> q.value.args != [] && UsesUpTo(q.value.where', |q.value.args| + 1)
  {
    var q := ListScope(v, None);
    if q.None? then None else
      ShiftedMeansTheSame(q.value.where', q.value.args, 0, Call(0, 0, 0), map[]);
      Some(Query(Shifted(q.value.where'), q.value.args))
  }

  /** `detailQuery` on strings: build the list scope, renumber its text, put the call first. */
  method DetailQuery(v: Viewer, callID: Uuid) returns (r: Option<(string, seq<Uuid>)>)
    ensures r.Some? <==> DetailScope(v).Some?
    ensures r.Some? ==>
              && r.value.0 == Render(Written(And(CallIs(1), DetailScope(v).value.where')))
              && r.value.1 == [callID] + DetailScope(v).value.args
    ensures r.Some? <==> v.workspace != 0 && v.user != 0 && v.membership != 0
    ensures r.Some? ==> forall call, members ::
              Selected(r.value.0, r.value.1, call, members) <==> call.id == callID && MaySee(v, call, members)
  {
    var q := ListScope(v, None);
    if q.None? {
      return None;
    }
    var where' := Renumber(Render(Written(q.value.where')), |q.value.args|);
    RenumberedIsShifted(q.value.where', |q.value.args|);
    WrittenFirst(Shifted(q.value.where'));
    DetailTextSelects(v, callID);
    return Some(("c.id = $1 AND " + where', [callID] + q.value.args));
  }

  lemma WrittenFirst(c: Condition)
    ensures Render(Written(And(CallIs(1), c))) == "c.id = $1 AND " + Render(Written(c))
  {
    var rest := Written(c);
    var id, one, and := Text("c.id = "), Argument(1), Text(" AND ");
    assert Written(And(CallIs(1), c)) == [id, one] + [and] + rest == [id] + ([one] + ([and] + rest));
    RenderFirst(id, [one] + ([and] + rest));
    RenderFirst(one, [and] + rest);
    RenderFirst(and, rest);
    Joined("c.id = ", RenderPiece(one), " AND ", Render(rest));
    CallComparison();
  }

  lemma CallComparison()
    ensures "c.id = " + RenderPiece(Argument(1)) + " AND " == "c.id = $1 AND "
  {
    assert Dec(1) == "1" && RenderPiece(Argument(1)) == "$1";
  }

  lemma Joined(a: string, b: string, c: string, d: string)
    ensures a + (b + (c + d)) == a + b + c + d
  {
  }

  lemma RenderFirst(p: Piece, rest: Clause)
    ensures Render([p] + rest) == RenderPiece(p) + Render(rest)
  {
    assert ([p] + rest)[1..] == rest;
  }

  // ----- the rule all three express -----

  /** Who may see a call: leaders the workspace's, managers their own, supervisors also their team's. */
  predicate MaySee(v: Viewer, call: Call, members: Table) {
    && call.workspace == v.workspace
    && match v.role
       case Owner => true
       case Admin => true
       case Manager => call.owner == v.user
       case Supervisor => call.owner == v.user || Manages(members, v.workspace, v.membership, call.owner)
  }

  /** A query, with its arguments, selects a call. */
  ghost predicate Selects(q: Option<Query>, before: seq<Uuid>, call: Call, members: Table) {
    && q.Some? && UsesUpTo(q.value.where', |before + q.value.args|)
    && Holds(q.value.where', before + q.value.args, call, members)
  }

  lemma TeamClause(v: Viewer, n: nat, args: seq<Uuid>, call: Call, members: Table)
    requires 0 < n < |args| && args[0] == v.workspace && args[n - 1] == v.user && args[n] == v.membership
    ensures UsesUpTo(Either(OwnerIs(n), OwnerIsManaged(1, n + 1)), |args|)
    ensures Holds(Either(OwnerIs(n), OwnerIsManaged(1, n + 1)), args, call, members)
            <==> call.owner == v.user || Manages(members, v.workspace, v.membership, call.owner)
  {
  }

  lemma OwnedInWorkspace(args: seq<Uuid>, call: Call, members: Table)
    requires |args| >= 2
    ensures Holds(And(WorkspaceIs(1), OwnerIs(2)), args, call, members) <==> call.workspace == args[0] && call.owner == args[1]
  {
  }

  lemma ListScopeIsMaySee(v: Viewer, call: Call, members: Table)
    requires ValidViewer(v)
    ensures Selects(ListScope(v, None), [], call, members) <==> MaySee(v, call, members)
    ensures Selects(DashboardScope(v), [], call, members) <==> MaySee(v, call, members)
  {
    var q := ListScope(v, None).value;
    assert [] + q.args == q.args && DashboardScope(v) == Some(q);
    assert Holds(WorkspaceIs(1), q.args, call, members) == (call.workspace == v.workspace);
    match v.role
    case Supervisor => TeamClause(v, 2, q.args, call, members);
    case Manager => OwnedInWorkspace(q.args, call, members);
    case _ =>
  }

  /**
   Visibility agreement: for every viewer and database, the unfiltered list, the
   dashboard and the detail query select the same calls, and reject the same viewers.
   */
  lemma ThreeScopesAgree(v: Viewer, callID: Uuid, call: Call, members: Table)
    ensures ListScope(v, None).Some? <==> ValidViewer(v)
    ensures DashboardScope(v).Some? <==> ValidViewer(v)
    ensures DetailScope(v).Some? <==> ValidViewer(v)
    ensures ValidViewer(v) ==>
              && (Selects(ListScope(v, None), [], call, members) <==> MaySee(v, call, members))
              && (Selects(DashboardScope(v), [], call, members) <==> MaySee(v, call, members))
              && (Selects(DetailScope(v), [callID], call, members) <==> MaySee(v, call, members))
  {
    if ValidViewer(v) {
      var list := ListScope(v, None).value;
      ListScopeIsMaySee(v, call, members);
      assert [] + list.args == list.args;
      ShiftedMeansTheSame(list.where', list.args, callID, call, members);
    }
  }

  /** The detail query returns the call asked for when the viewer may see it, and nothing else. */
  lemma DetailSelectsOneVisibleCall(v: Viewer, callID: Uuid, call: Call, members: Table)
    requires ValidViewer(v)
    ensures Selects(Some(Query(And(CallIs(1), DetailScope(v).value.where'), DetailScope(v).value.args)), [callID], call, members)
            <==> call.id == callID && MaySee(v, call, members)
  {
    ThreeScopesAgree(v, callID, call, members);
    var args := [callID] + DetailScope(v).value.args;
    assert Holds(CallIs(1), args, call, members) == (call.id == callID);
  }

  /**
   A filtered list never shows more than the viewer may see. For owners, admins and
   supervisors it is exactly the visible calls of the requested owner; a manager's
   filter is ignored.
   */
  lemma FilterNarrows(v: Viewer, filter: Uuid, call: Call, members: Table)
    requires ValidViewer(v) && filter != 0
    ensures Selects(ListScope(v, Some(filter)), [], call, members)
            <==> MaySee(v, call, members) && (v.role == Manager || call.owner == filter)
  {
    var q := ListScope(v, Some(filter)).value;
    assert [] + q.args == q.args;
    match v.role
    case Supervisor =>
      OwnedInWorkspace(q.args, call, members);
      TeamClause(v, 3, q.args, call, members);
    case Manager => OwnedInWorkspace(q.args, call, members);
    case _ => OwnedInWorkspace(q.args, call, members);
  }

  lemma ScopesAreReadable(v: Viewer, filter: Option<Uuid>)
    requires ValidViewer(v)
    ensures Readable(ListScope(v, filter).value.where') && Readable(DashboardScope(v).value.where')
    ensures Readable(DetailScope(v).value.where')
  {
    ShiftKeepsReadable(ListScope(v, None).value.where');
  }

  lemma {:induction false} ShiftKeepsReadable(c: Condition)
    requires Readable(c)
    ensures Readable(Shifted(c))
  {
    if c.And? {
      ShiftKeepsReadable(c.left);
      ShiftKeepsReadable(c.right);
    }
  }

  /** The detail text, sent with its arguments, selects the call asked for when the viewer may see it. */
  lemma DetailTextSelects(v: Viewer, callID: Uuid)
    requires ValidViewer(v)
    ensures var where' := And(CallIs(1), DetailScope(v).value.where');
            forall call, members ::
              Selected(Render(Written(where')), [callID] + DetailScope(v).value.args, call, members)
              <==> call.id == callID && MaySee(v, call, members)
  {
    var where', args := And(CallIs(1), DetailScope(v).value.where'), [callID] + DetailScope(v).value.args;
    ScopesAreReadable(v, None);
    forall call, members
      ensures Selected(Render(Written(where')), args, call, members) <==> call.id == callID && MaySee(v, call, members)
    {
      DetailSelectsOneVisibleCall(v, callID, call, members);
      TextSelectsExactly(where', args, call, members);
    }
  }

  /** The texts of the list and of the dashboard select what the viewer may see, a filter narrowing the list. */
  lemma ListTextsSelect(v: Viewer, filter: Uuid, call: Call, members: Table)
    requires ValidViewer(v) && filter != 0
    ensures var all, one, board := ListScope(v, None).value, ListScope(v, Some(filter)).value, DashboardScope(v).value;
            && (Selected(Render(Written(all.where')), all.args, call, members) <==> MaySee(v, call, members))
            && (Selected(Render(Written(board.where')), board.args, call, members) <==> MaySee(v, call, members))
            && (Selected(Render(Written(one.where')), one.args, call, members) <==>
                  MaySee(v, call, members) && (v.role == Manager || call.owner == filter))
  {
    var all, one, board := ListScope(v, None).value, ListScope(v, Some(filter)).value, DashboardScope(v).value;
    ScopesAreReadable(v, Some(filter));
    ScopesAreReadable(v, None);
    TextSelectsExactly(all.where', all.args, call, members);
    TextSelectsExactly(one.where', one.args, call, members);
    TextSelectsExactly(board.where', board.args, call, members);
    ListScopeIsMaySee(v, call, members);
    FilterNarrows(v, filter, call, members);
    assert [] + all.args == all.args && [] + one.args == one.args && [] + board.args == board.args;
  }
}
