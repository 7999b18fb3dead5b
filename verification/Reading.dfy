/**
 How the database reads a WHERE clause of the call queries: text and numbered
 placeholders in, tests on a call and the membership table out. The reader knows the
 columns by name and nothing about the builders that write the clauses.
 */
module Reading {
  import opened Results
  import opened Placeholders
  import opened Memberships

  type Uuid = nat

  datatype Call = Call(id: Uuid, workspace: Uuid, owner: Uuid)

  /** One conjunct of a clause; the numbers are those of its placeholders. */
  datatype Test =
    | CallTest(arg: nat)
    | WorkspaceTest(arg: nat)
    | OwnerTest(arg: nat)
    | TeamTest(workspaceArg: nat, supervisorArg: nat)
    | AnyOf(left: Test, right: Test)

  // ----- reading text -----

  function Strip(literal: string, s: string): (rest: Option<string>)
    ensures rest.Some? ==> |rest.value| == |s| - |literal|
  {
    if literal <= s then Some(s[|literal|..]) else None
  }

  function StripAll(literals: seq<string>, s: string): (rest: Option<string>)
    ensures rest.Some? ==> |rest.value| <= |s|
  {
    if literals == [] then Some(s) else
      var next := Strip(literals[0], s);
      if next.None? then None else StripAll(literals[1..], next.value)
  }

  function ReadDigits(s: string): (r: (string, string))
    ensures Digits(r.0) && r.0 + r.1 == s && !StartsWithDigit(r.1)
  {
    if StartsWithDigit(s) then
      var (digits, rest) := ReadDigits(s[1..]);
      ([s[0]] + digits, rest)
    else ("", s)
  }

  function ReadArg(s: string): (r: Option<(nat, string)>)
    ensures r.Some? ==> |r.value.1| <= |s|
  {
    var after := Strip("$", s);
    if after.None? then None else
      var (digits, rest) := ReadDigits(after.value);
      if digits == "" then None else Some((Value(digits), rest))
  }

  function ReadComparison(column: string, s: string): (r: Option<(nat, string)>)
    ensures r.Some? ==> |r.value.1| <= |s|
  {
    var after := Strip(column, s);
    if after.None? then None else ReadArg(after.value)
  }

  /** The owner is among the active managers of a workspace who have a certain supervisor. */
  function ReadTeam(s: string): (r: Option<(Test, string)>)
    ensures r.Some? ==> |r.value.1| <= |s|
  {
    var inner := StripAll(["c.owner_user_id IN (\n", "SELECT managed.user_id", " FROM workspace_memberships managed\n"], s);
    if inner.None? then None else
      var workspace := ReadComparison("WHERE managed.workspace_id = ", inner.value);
      if workspace.None? then None else
        var supervisor := ReadComparison(" AND managed.supervisor_membership_id = ", workspace.value.1);
        if supervisor.None? then None else
          var end := StripAll(["\n  AND managed.role = 'manager'", " AND managed.status = 'active')"], supervisor.value.1);
          if end.None? then None else Some((TeamTest(workspace.value.0, supervisor.value.0), end.value))
  }

  function ReadAtom(s: string): (r: Option<(Test, string)>)
    ensures r.Some? ==> |r.value.1| <= |s|
  {
    var id := ReadComparison("c.id = ", s);
    if id.Some? then Some((CallTest(id.value.0), id.value.1)) else
      var workspace := ReadComparison("c.workspace_id = ", s);
      if workspace.Some? then Some((WorkspaceTest(workspace.value.0), workspace.value.1)) else
        var owner := ReadComparison("c.owner_user_id = ", s);
        if owner.Some? then Some((OwnerTest(owner.value.0), owner.value.1)) else ReadTeam(s)
  }

  function ReadTest(s: string): (r: Option<(Test, string)>)
    ensures r.Some? ==> |r.value.1| <= |s|
  {
    var inner := Strip("(", s);
    if inner.None? then ReadAtom(s) else
      var left := ReadAtom(inner.value);
      if left.None? then None else
        var or := Strip(" OR ", left.value.1);
        if or.None? then None else
          var right := ReadAtom(or.value);
          if right.None? then None else
            var end := Strip(")", right.value.1);
            if end.None? then None else Some((AnyOf(left.value.0, right.value.0), end.value))
  }

  /** A whole clause: tests joined by AND. */
  function ReadTests(s: string): Option<seq<Test>>
    decreases |s|
  {
    var first := ReadTest(s);
    if first.None? then None
    else if first.value.1 == "" then Some([first.value.0])
    else
      var more := Strip(" AND ", first.value.1);
      if more.None? then None else
        var tests := ReadTests(more.value);
        if tests.None? then None else Some([first.value.0] + tests.value)
  }

  // ----- what a clause selects -----

  predicate Given(args: seq<Uuid>, n: nat) {
    0 < n <= |args|
  }

  predicate TestHolds(t: Test, args: seq<Uuid>, call: Call, members: Table) {
    match t
    case CallTest(n) => Given(args, n) && call.id == args[n - 1]
    case WorkspaceTest(n) => Given(args, n) && call.workspace == args[n - 1]
    case OwnerTest(n) => Given(args, n) && call.owner == args[n - 1]
    case TeamTest(w, s) =>
      && Given(args, w) && Given(args, s)
      && exists m | m in members ::
           && members[m].workspace == args[w - 1] && members[m].supervisor == Some(args[s - 1])
           && members[m].role == Manager && members[m].status == Active
           && members[m].user == call.owner
    case AnyOf(l, r) => TestHolds(l, args, call, members) || TestHolds(r, args, call, members)
  }

  /** A clause, sent with its arguments, selects a call. */
  ghost predicate Selected(text: string, args: seq<Uuid>, call: Call, members: Table) {
    && ReadTests(text).Some?
    && forall t | t in ReadTests(text).value :: TestHolds(t, args, call, members)
  }

  // ----- reading what was written -----

  lemma StripsItself(literal: string, rest: string)
    ensures Strip(literal, literal + rest) == Some(rest)
  {
  }

  /** Text that differs from a literal somewhere does not start with it. */
  lemma StripsNoOther(literal: string, s: string, i: nat)
    requires i < |literal| && i < |s| && literal[i] != s[i]
    ensures Strip(literal, s).None?
  {
  }

  lemma {:induction false} ReadsDigits(digits: string, rest: string)
    requires Digits(digits) && !StartsWithDigit(rest)
    ensures ReadDigits(digits + rest) == (digits, rest)
  {
    var (d, r) := ReadDigits(digits + rest);
    DigitRunIsUnique(d, r, digits, rest);
  }

  lemma ReadsArg(n: nat, rest: string)
    requires !StartsWithDigit(rest)
    ensures ReadArg("$" + Dec(n) + rest) == Some((n, rest))
  {
    assert "$" + Dec(n) + rest == "$" + (Dec(n) + rest);
    StripsItself("$", Dec(n) + rest);
    DecIsCanonical(n);
    ReadsDigits(Dec(n), rest);
  }

  lemma ReadsComparison(column: string, n: nat, rest: string)
    requires !StartsWithDigit(rest)
    ensures ReadComparison(column, column + ("$" + Dec(n) + rest)) == Some((n, rest))
  {
    StripsItself(column, "$" + Dec(n) + rest);
    ReadsArg(n, rest);
  }

  lemma ReadsCall(n: nat, rest: string)
    requires !StartsWithDigit(rest)
    ensures ReadAtom("c.id = " + ("$" + Dec(n) + rest)) == Some((CallTest(n), rest))
  {
    ReadsComparison("c.id = ", n, rest);
  }

  lemma ReadsWorkspace(n: nat, rest: string)
    requires !StartsWithDigit(rest)
    ensures ReadAtom("c.workspace_id = " + ("$" + Dec(n) + rest)) == Some((WorkspaceTest(n), rest))
  {
    var s := "c.workspace_id = " + ("$" + Dec(n) + rest);
    StripsNoOther("c.id = ", s, 2);
    ReadsComparison("c.workspace_id = ", n, rest);
  }

  lemma ReadsOwner(n: nat, rest: string)
    requires !StartsWithDigit(rest)
    ensures ReadAtom("c.owner_user_id = " + ("$" + Dec(n) + rest)) == Some((OwnerTest(n), rest))
  {
    var s := "c.owner_user_id = " + ("$" + Dec(n) + rest);
    StripsNoOther("c.id = ", s, 2);
    StripsNoOther("c.workspace_id = ", s, 2);
    ReadsComparison("c.owner_user_id = ", n, rest);
  }

  lemma StripsTwo(a: string, b: string, rest: string)
    ensures StripAll([a, b], a + (b + rest)) == Some(rest)
  {
    StripsItself(a, b + rest);
    StripsItself(b, rest);
    assert [a, b][1..] == [b] && [b][1..] == [];
    assert StripAll([b], b + rest) == StripAll([], rest);
  }

  lemma StripsThree(a: string, b: string, c: string, rest: string)
    ensures StripAll([a, b, c], a + (b + (c + rest))) == Some(rest)
  {
    StripsItself(a, b + (c + rest));
    assert [a, b, c][1..] == [b, c];
    StripsTwo(b, c, rest);
  }

  /** The subquery on the team, as it is spelled, up to what follows it. */
  function TeamText(w: nat, s: nat, rest: string): string {
    "c.owner_user_id IN (\n" + ("SELECT managed.user_id" + (" FROM workspace_memberships managed\n" + MemberText(w, s, rest)))
  }

  function MemberText(w: nat, s: nat, rest: string): string {
    "WHERE managed.workspace_id = " + ("$" + Dec(w) + (" AND managed.supervisor_membership_id = " + ("$" + Dec(s) + EndText(rest))))
  }

  function EndText(rest: string): string {
    "\n  AND managed.role = 'manager'" + (" AND managed.status = 'active')" + rest)
  }

  lemma ReadsMembers(w: nat, s: nat, rest: string)
    ensures var second := " AND managed.supervisor_membership_id = " + ("$" + Dec(s) + EndText(rest));
            && ReadComparison("WHERE managed.workspace_id = ", MemberText(w, s, rest)) == Some((w, second))
            && ReadComparison(" AND managed.supervisor_membership_id = ", second) == Some((s, EndText(rest)))
  {
    ReadsComparison("WHERE managed.workspace_id = ", w, " AND managed.supervisor_membership_id = " + ("$" + Dec(s) + EndText(rest)));
    ReadsComparison(" AND managed.supervisor_membership_id = ", s, EndText(rest));
  }

  lemma ReadsTeamItself(w: nat, s: nat, rest: string)
    ensures ReadTeam(TeamText(w, s, rest)) == Some((TeamTest(w, s), rest))
  {
    StripsThree("c.owner_user_id IN (\n", "SELECT managed.user_id", " FROM workspace_memberships managed\n", MemberText(w, s, rest));
    ReadsMembers(w, s, rest);
    StripsTwo("\n  AND managed.role = 'manager'", " AND managed.status = 'active')", rest);
  }

  lemma ReadsTeam(w: nat, s: nat, rest: string)
    ensures ReadAtom(TeamText(w, s, rest)) == Some((TeamTest(w, s), rest))
  {
    var text := TeamText(w, s, rest);
    StripsNoOther("c.id = ", text, 2);
    StripsNoOther("c.workspace_id = ", text, 2);
    StripsNoOther("c.owner_user_id = ", text, 16);
    ReadsTeamItself(w, s, rest);
  }

  lemma ReadsAnyOf(inner: string, left: Test, middle: string, right: Test, rest: string)
    requires ReadAtom(inner) == Some((left, " OR " + middle)) && ReadAtom(middle) == Some((right, ")" + rest))
    ensures ReadTest("(" + inner) == Some((AnyOf(left, right), rest))
  {
    StripsItself("(", inner);
    StripsItself(" OR ", middle);
    StripsItself(")", rest);
  }

  lemma ReadsLast(text: string, t: Test)
    requires ReadTest(text) == Some((t, ""))
    ensures ReadTests(text) == Some([t])
  {
  }

  lemma ReadsNext(text: string, t: Test, more: string, tests: seq<Test>)
    requires ReadTest(text) == Some((t, " AND " + more)) && ReadTests(more) == Some(tests)
    ensures ReadTests(text) == Some([t] + tests)
  {
    StripsItself(" AND ", more);
  }
}
