/**
 The tenant database: accounts, workspaces, memberships and invitations, with every
 operation that changes them, and the guarantees over whole runs of such operations.
 Invitations are keyed by their token hash, a unique column; e-mail addresses are
 taken as already normalised. Transactions run one after the other.
 */
module Invitations {
  import opened Results
  import opened Memberships

  type Token = nat
  type Time = nat

  datatype Account = Account(email: string, password: nat, active: bool, verified: Option<Time>)

  datatype Invitation = Invitation(
    id: nat, workspace: Workspace, email: string, role: Role, expires: Time, accepted: Option<Time>)

  datatype Database = Database(
    users: map<User, Account>,
    workspaces: set<Workspace>,
    members: Table,
    invitations: map<Token, Invitation>)

  datatype Problem =
    | NoSuchInvitation
    | AlreadyAccepted
    | Expired
    | AlreadyMember
    | Rejected(refusal: Refusal)
    | NoSuchUser
    | Conflict

  datatype Answer = Done | Failed(problem: Problem)

  // ----- invariant -----

  /** users.email is UNIQUE. */
  ghost predicate UniqueEmails(users: map<User, Account>) {
    forall u, v | u in users && v in users && users[u].email == users[v].email :: u == v
  }

  ghost predicate Inv(db: Database) {
    && UniqueMembers(db.members)
    && UniqueEmails(db.users)
    && (forall m | m in db.members :: db.members[m].workspace in db.workspaces)
    && (forall t | t in db.invitations :: db.invitations[t].workspace in db.workspaces)
    && (forall w | w in db.workspaces :: HasOwner(db.members, w))
  }

  predicate IsMember(t: Table, id: Id, workspace: Workspace, user: User) {
    id in t && t[id].workspace == workspace && t[id].user == user
  }

  predicate HasEmail(users: map<User, Account>, user: User, email: string) {
    user in users && users[user].email == email
  }

  ghost function MemberOf(t: Table, workspace: Workspace, user: User): (r: Option<Id>)
    ensures r.Some? ==> IsMember(t, r.value, workspace, user)
    ensures r.None? ==> forall id :: !IsMember(t, id, workspace, user)
  {
    if id: Id :| IsMember(t, id, workspace, user) then Some(id) else None
  }

  ghost function UserWith(users: map<User, Account>, email: string): (r: Option<User>)
    ensures r.Some? ==> HasEmail(users, r.value, email)
    ensures r.None? ==> forall u :: !HasEmail(users, u, email)
  {
    if u: User :| HasEmail(users, u, email) then Some(u) else None
  }

  // ----- the membership upsert of an acceptance -----

  /** INSERT, or on conflict UPDATE role and status of the row that is there. */
  ghost function Upserted(t: Table, workspace: Workspace, user: User, role: Role, newId: Id): Result<Table, Refusal> {
    match MemberOf(t, workspace, user)
    case None => Ok(t[newId := Membership(workspace, user, role, Active, None)])
    case Some(id) =>
      var after := t[id].(role := role, status := Active);
      match UpdateRefusal(t, id, after)
      case Some(refusal) => Err(refusal)
      case None => Ok(Updated(t, id, after))
  }

  /** An upsert gives exactly one membership for the pair, active with the given role. */
  lemma UpsertGivesOneMembership(t: Table, workspace: Workspace, user: User, role: Role, newId: Id)
    requires UniqueMembers(t) && newId !in t && Upserted(t, workspace, user, role, newId).Ok?
    ensures var t' := Upserted(t, workspace, user, role, newId).value;
            && UniqueMembers(t')
            && (exists id :: IsMember(t', id, workspace, user) && t'[id].role == role && t'[id].status == Active)
            && (forall m | m in t' :: t'[m].workspace == workspace || (m in t && t'[m].workspace == t[m].workspace))
  {
    var t' := Upserted(t, workspace, user, role, newId).value;
    var found := MemberOf(t, workspace, user);
    if found.Some? {
      assert IsMember(t', found.value, workspace, user);
    } else {
      assert IsMember(t', newId, workspace, user);
      forall m, n | m in t' && n in t' && t'[m].workspace == t'[n].workspace && t'[m].user == t'[n].user
        ensures m == n
      {
        assert !IsMember(t, m, workspace, user) && !IsMember(t, n, workspace, user);
      }
    }
  }

  lemma UpsertKeepsOwners(t: Table, workspace: Workspace, user: User, role: Role, newId: Id, any: Workspace)
    requires newId !in t && Upserted(t, workspace, user, role, newId).Ok? && HasOwner(t, any)
    ensures HasOwner(Upserted(t, workspace, user, role, newId).value, any)
  {
    var found := MemberOf(t, workspace, user);
    if found.Some? {
      UpdateKeepsOwners(t, found.value, t[found.value].(role := role, status := Active), any);
    } else {
      var t' := Upserted(t, workspace, user, role, newId).value;
      var m :| m in t && t[m].workspace == any && ActiveOwner(t[m]);
      assert m in t' && ActiveOwner(t'[m]);
    }
  }

  /** Unlike `Update`, an acceptance can never break the supervisor links. */
  lemma UpsertKeepsSupervisors(t: Table, workspace: Workspace, user: User, role: Role, newId: Id)
    requires newId !in t && Upserted(t, workspace, user, role, newId).Ok? && SupervisorsOk(t)
    ensures SupervisorsOk(Upserted(t, workspace, user, role, newId).value)
  {
    var found := MemberOf(t, workspace, user);
    if found.Some? {
      var id := found.value;
      assert t[id].supervisor != Some(id);
      UpdateKeepsSupervisorsExactly(t, id, t[id].(role := role, status := Active));
    } else {
      AddingKeepsSupervisors(t, newId, Membership(workspace, user, role, Active, None));
    }
  }

  lemma AddingKeepsSupervisors(t: Table, newId: Id, row: Membership)
    requires newId !in t && SupervisorsOk(t) && row.supervisor.None?
    ensures SupervisorsOk(t[newId := row])
  {
    var t' := t[newId := row];
    forall m | m in t' && t'[m].supervisor.Some?
      ensures t'[m].role == Manager && Supervises(t', t'[m].supervisor.value, t'[m].workspace)
    {
      assert m in t && Supervises(t, t[m].supervisor.value, t[m].workspace);
    }
  }

  lemma UpsertKeepsLinks(t: Table, workspace: Workspace, user: User, role: Role, newId: Id)
    requires newId !in t && Upserted(t, workspace, user, role, newId).Ok? && LinksOk(t)
    ensures LinksOk(Upserted(t, workspace, user, role, newId).value)
  {
    var found := MemberOf(t, workspace, user);
    if found.Some? {
      UpdateKeepsLinks(t, found.value, t[found.value].(role := role, status := Active));
    } else {
      AddingKeepsLinks(t, newId, Membership(workspace, user, role, Active, None));
    }
  }

  lemma AddingKeepsLinks(t: Table, newId: Id, row: Membership)
    requires newId !in t && LinksOk(t) && row.supervisor.None?
    ensures LinksOk(t[newId := row])
  {
    var t' := t[newId := row];
    forall m | m in t' && t'[m].supervisor.Some?
      ensures t'[m].role == Manager
      ensures t'[m].supervisor == Some(m) || Supervises(t', t'[m].supervisor.value, t'[m].workspace)
    {
      assert m in t;
    }
  }

  /**
   Exactly the acceptances the triggers refuse: one that would demote the only active
   owner, one that would promote a manager who has a supervisor, and any one of a manager
   who is its own supervisor.
   */
  lemma UpsertRefusedExactly(t: Table, workspace: Workspace, user: User, role: Role, newId: Id)
    requires LinksOk(t)
    ensures Upserted(t, workspace, user, role, newId).Err? <==>
            && MemberOf(t, workspace, user).Some?
            && var row := t[MemberOf(t, workspace, user).value];
               || (ActiveOwner(row) && role != Owner && !OtherOwner(t, MemberOf(t, workspace, user).value))
               || (row.supervisor.Some? && role != Manager)
               || row.supervisor == MemberOf(t, workspace, user)
  {
  }

  // ----- operations -----

  datatype Op =
    | Register(user: User, email: string, password: nat, workspace: Workspace, newId: Id)
    | CreateCompany(user: User, workspace: Workspace, newId: Id)
    | AddMember(workspace: Workspace, email: string, role: Role, newId: Id)
    | UpdateMember(workspace: Workspace, target: Id, input: UpdateInput)
    | DeleteMember(workspace: Workspace, target: Id)
    | Invite(token: Token, invitation: Invitation, clears: bool)
    | Revoke(workspace: Workspace, id: nat)
    | Accept(token: Token, user: User, now: Time, newId: Id)
    | RegisterAndAccept(token: Token, password: nat, now: Time, user: User, newId: Id)

  /** The identifiers and token hashes an operation draws are ones the database does not hold. */
  predicate Drawn(db: Database, op: Op) {
    match op
    case Register(user, _, _, workspace, newId) =>
      user !in db.users && workspace !in db.workspaces && newId !in db.members
    case CreateCompany(_, workspace, newId) => workspace !in db.workspaces && newId !in db.members
    case AddMember(_, _, _, newId) => newId !in db.members
    case Invite(token, invitation, _) => token !in db.invitations && invitation.accepted.None?
    case Accept(_, _, _, newId) => newId !in db.members
    case RegisterAndAccept(_, _, _, user, newId) => user !in db.users && newId !in db.members
    case _ => true
  }

  function CheckInvitation(db: Database, token: Token, now: Time): Option<Problem> {
    if token !in db.invitations then Some(NoSuchInvitation)
    else if db.invitations[token].accepted.Some? then Some(AlreadyAccepted)
    else if now > db.invitations[token].expires then Some(Expired)
    else None
  }

  /** The tail both acceptances share: upsert the membership, then mark the invitation. */
  ghost function Accepted(db: Database, users: map<User, Account>, token: Token, user: User, now: Time, newId: Id): (Database, Answer)
    requires token in db.invitations
  {
    var inv := db.invitations[token];
    match Upserted(db.members, inv.workspace, user, inv.role, newId)
    case Err(refusal) => (db, Failed(Rejected(refusal)))
    case Ok(members) =>
      (Database(users, db.workspaces, members, db.invitations[token := inv.(accepted := Some(now))]), Done)
  }

  /** The account an invited registration ends up with: the one holding the e-mail, or a new one. */
  ghost function InvitedUser(db: Database, email: string, newUser: User): User {
    var found := UserWith(db.users, email);
    if found.Some? then found.value else newUser
  }

  ghost function UsersWithInvited(db: Database, email: string, password: nat, now: Time, newUser: User): map<User, Account> {
    var found := UserWith(db.users, email);
    if found.Some? then
      var verified := db.users[found.value].verified;
      db.users[found.value := Account(email, password, true, if verified.Some? then verified else Some(now))]
    else db.users[newUser := Account(email, password, true, Some(now))]
  }

  predicate Pending(inv: Invitation, workspace: Workspace, email: string) {
    inv.workspace == workspace && inv.email == email && inv.accepted.None?
  }

  predicate ActiveMemberByEmail(db: Database, workspace: Workspace, email: string) {
    exists m | m in db.members ::
      db.members[m].workspace == workspace && db.members[m].status == Active
      && HasEmail(db.users, db.members[m].user, email)
  }

  function AnswerOf(refusal: Option<Refusal>): Answer {
    if refusal.Some? then Failed(Rejected(refusal.value)) else Done
  }

  /** One operation: the database it leaves and what it answers. */
  ghost function Apply(db: Database, op: Op): (Database, Answer) {
    match op
    case Register(user, email, password, workspace, newId) =>
      if UserWith(db.users, email).Some? then (db, Failed(Conflict)) else
        (Database(db.users[user := Account(email, password, true, None)], db.workspaces + {workspace},
                  db.members[newId := Membership(workspace, user, Owner, Active, None)], db.invitations), Done)
    case CreateCompany(user, workspace, newId) =>
      if user !in db.users then (db, Failed(NoSuchUser)) else
        (db.(workspaces := db.workspaces + {workspace},
             members := db.members[newId := Membership(workspace, user, Owner, Active, None)]), Done)
    case AddMember(workspace, email, role, newId) =>
      var found := UserWith(db.users, email);
      if found.None? || !db.users[found.value].active then (db, Failed(NoSuchUser))
      else if workspace !in db.workspaces then (db, Failed(Conflict))
      else if MemberOf(db.members, workspace, found.value).Some? then (db, Failed(Rejected(DuplicateMember)))
      else (db.(members := db.members[newId := Membership(workspace, found.value, role, Active, None)]), Done)
    case UpdateMember(workspace, target, input) =>
      (db.(members := StoreUpdate(db.members, workspace, target, input)),
       AnswerOf(StoreUpdateRefusal(db.members, workspace, target, input)))
    case DeleteMember(workspace, target) =>
      (db.(members := StoreDelete(db.members, workspace, target)),
       AnswerOf(StoreDeleteRefusal(db.members, workspace, target)))
    case Invite(token, invitation, clears) =>
      if ActiveMemberByEmail(db, invitation.workspace, invitation.email) then (db, Failed(AlreadyMember)) else
        var kept := map t | t in db.invitations &&
                      !(clears && Pending(db.invitations[t], invitation.workspace, invitation.email)) :: db.invitations[t];
        if invitation.workspace !in db.workspaces then (db.(invitations := kept), Failed(Conflict))
        else (db.(invitations := kept[token := invitation]), Done)
    case Revoke(workspace, id) =>
      var kept := map t | t in db.invitations &&
                    !(db.invitations[t].workspace == workspace && db.invitations[t].id == id
                      && db.invitations[t].accepted.None?) :: db.invitations[t];
      (db.(invitations := kept), if kept == db.invitations then Failed(NoSuchInvitation) else Done)
    case Accept(token, user, now, newId) =>
      var problem := CheckInvitation(db, token, now);
      if problem.Some? then (db, Failed(problem.value))
      else if user !in db.users then (db, Failed(NoSuchUser))
      else Accepted(db, db.users, token, user, now, newId)
    case RegisterAndAccept(token, password, now, newUser, newId) =>
      var problem := CheckInvitation(db, token, now);
      if problem.Some? then (db, Failed(problem.value))
      else
        var email := db.invitations[token].email;
        Accepted(db, UsersWithInvited(db, email, password, now, newUser), token, InvitedUser(db, email, newUser), now, newId)
  }

  // ----- what one operation keeps -----

  lemma AddingKeepsMembers(t: Table, workspaces: set<Workspace>, newId: Id, row: Membership)
    requires UniqueMembers(t) && newId !in t && MemberOf(t, row.workspace, row.user).None?
    requires forall w | w in workspaces :: HasOwner(t, w)
    requires row.workspace in workspaces || ActiveOwner(row)
    ensures UniqueMembers(t[newId := row])
    ensures forall w | w in workspaces + {row.workspace} :: HasOwner(t[newId := row], w)
  {
    var t' := t[newId := row];
    forall w | w in workspaces + {row.workspace} ensures HasOwner(t', w) {
      if w in workspaces {
        var m :| m in t && t[m].workspace == w && ActiveOwner(t[m]);
        assert m in t' && ActiveOwner(t'[m]);
      } else {
        assert newId in t' && ActiveOwner(t'[newId]);
      }
    }
    forall m, n | m in t' && n in t' && t'[m].workspace == t'[n].workspace && t'[m].user == t'[n].user
      ensures m == n
    {
      assert !IsMember(t, m, row.workspace, row.user) && !IsMember(t, n, row.workspace, row.user);
    }
  }

  lemma AcceptedKeepsInv(db: Database, users: map<User, Account>, token: Token, user: User, now: Time, newId: Id)
    requires Inv(db) && UniqueEmails(users) && token in db.invitations && newId !in db.members
    ensures Inv(Accepted(db, users, token, user, now, newId).0)
    ensures SupervisorsOk(db.members) ==> SupervisorsOk(Accepted(db, users, token, user, now, newId).0.members)
  {
    var inv := db.invitations[token];
    if Upserted(db.members, inv.workspace, user, inv.role, newId).Ok? {
      UpsertGivesOneMembership(db.members, inv.workspace, user, inv.role, newId);
      forall w | w in db.workspaces ensures HasOwner(Accepted(db, users, token, user, now, newId).0.members, w) {
        UpsertKeepsOwners(db.members, inv.workspace, user, inv.role, newId, w);
      }
      if SupervisorsOk(db.members) {
        UpsertKeepsSupervisors(db.members, inv.workspace, user, inv.role, newId);
      }
    }
  }

  lemma InvitedKeepsEmails(db: Database, email: string, password: nat, now: Time, newUser: User)
    requires UniqueEmails(db.users) && newUser !in db.users
    ensures UniqueEmails(UsersWithInvited(db, email, password, now, newUser))
  {
    NewAccountKeepsEmails(db.users, newUser, Account(email, password, true, Some(now)));
  }

  lemma NewAccountKeepsEmails(users: map<User, Account>, user: User, account: Account)
    requires UniqueEmails(users) && user !in users
    ensures UserWith(users, account.email).None? ==> UniqueEmails(users[user := account])
  {
    if UserWith(users, account.email).None? {
      forall u | u in users ensures users[u].email != account.email {
        assert !HasEmail(users, u, account.email);
      }
    }
  }

  lemma SameRowsKeepUnique(t: Table, t': Table)
    requires UniqueMembers(t)
    requires forall m | m in t' :: m in t && t'[m].workspace == t[m].workspace && t'[m].user == t[m].user
    ensures UniqueMembers(t')
  {
  }

  lemma StoreOperationKeepsInv(db: Database, op: Op)
    requires Inv(db) && (op.UpdateMember? || op.DeleteMember?)
    ensures Inv(Apply(db, op).0)
  {
    var t, t' := db.members, Apply(db, op).0.members;
    assert forall m | m in t' :: m in t && t'[m].workspace == t[m].workspace && t'[m].user == t[m].user;
    SameRowsKeepUnique(t, t');
    var input := if op.UpdateMember? then op.input else UpdateInput(None, None, None, false);
    forall w | w in db.workspaces ensures HasOwner(t', w) {
      StoreOperationsKeepOwners(t, op.workspace, op.target, input, w);
    }
  }

  lemma AddingOperationKeepsInv(db: Database, op: Op)
    requires Inv(db) && Drawn(db, op) && (op.Register? || op.CreateCompany? || op.AddMember?)
    ensures Inv(Apply(db, op).0)
    ensures SupervisorsOk(db.members) ==> SupervisorsOk(Apply(db, op).0.members)
  {
    if Apply(db, op).1 == Done {
      var row := Apply(db, op).0.members[op.newId];
      assert Apply(db, op).0.members == db.members[op.newId := row];
      AddingKeepsMembers(db.members, db.workspaces, op.newId, row);
      if SupervisorsOk(db.members) { AddingKeepsSupervisors(db.members, op.newId, row); }
      if op.Register? { NewAccountKeepsEmails(db.users, op.user, Account(op.email, op.password, true, None)); }
      assert Apply(db, op).0.workspaces == db.workspaces + {row.workspace};
    }
  }

  lemma AcceptingOperationKeepsInv(db: Database, op: Op)
    requires Inv(db) && Drawn(db, op) && (op.Accept? || op.RegisterAndAccept?)
    ensures Inv(Apply(db, op).0)
    ensures SupervisorsOk(db.members) ==> SupervisorsOk(Apply(db, op).0.members)
  {
    if CheckInvitation(db, op.token, op.now).None? {
      match op
      case Accept(token, user, now, newId) =>
        AcceptedKeepsInv(db, db.users, token, user, now, newId);
      case RegisterAndAccept(token, password, now, user, newId) =>
        var email := db.invitations[token].email;
        InvitedKeepsEmails(db, email, password, now, user);
        AcceptedKeepsInv(db, UsersWithInvited(db, email, password, now, user), token, InvitedUser(db, email, user), now, newId);
    }
  }

  /** Every operation keeps one membership per pair and an active owner in every workspace. */
  lemma OperationKeepsInv(db: Database, op: Op)
    requires Inv(db) && Drawn(db, op)
    ensures Inv(Apply(db, op).0)
  {
    if op.UpdateMember? || op.DeleteMember? {
      StoreOperationKeepsInv(db, op);
    } else if op.Register? || op.CreateCompany? || op.AddMember? {
      AddingOperationKeepsInv(db, op);
    } else if op.Accept? || op.RegisterAndAccept? {
      AcceptingOperationKeepsInv(db, op);
    }
  }

  /** The one request that can break supervisor links. */
  predicate SelfSupervising(db: Database, op: Op) {
    op.UpdateMember? && AsksForSelf(op.target, op.input) && Supervises(db.members, op.target, op.workspace)
  }

  lemma OperationKeepsSupervisors(db: Database, op: Op)
    requires Inv(db) && Drawn(db, op) && SupervisorsOk(db.members)
    ensures SupervisorsOk(Apply(db, op).0.members) <==> !SelfSupervising(db, op)
  {
    match op
    case UpdateMember(workspace, target, input) =>
      StoreUpdateKeepsSupervisorsExactly(db.members, workspace, target, input);
    case DeleteMember(workspace, target) =>
      if StoreDeleteRefusal(db.members, workspace, target).None? { DeleteKeepsSupervisors(db.members, target); }
    case Invite(_, _, _) =>
    case Revoke(_, _) =>
    case Accept(_, _, _, _) => AcceptingOperationKeepsInv(db, op);
    case RegisterAndAccept(_, _, _, _, _) => AcceptingOperationKeepsInv(db, op);
    case _ => AddingOperationKeepsInv(db, op);
  }

  /** Whatever is requested, every link still leads to an active supervisor or to the row itself. */
  lemma OperationKeepsLinks(db: Database, op: Op)
    requires Drawn(db, op) && LinksOk(db.members)
    ensures LinksOk(Apply(db, op).0.members)
  {
    var t' := Apply(db, op).0.members;
    match op
    case UpdateMember(workspace, target, input) => StoreOperationsKeepLinks(db.members, workspace, target, input);
    case DeleteMember(workspace, target) =>
      StoreOperationsKeepLinks(db.members, workspace, target, UpdateInput(None, None, None, false));
    case Invite(_, _, _) =>
    case Revoke(_, _) =>
    case Accept(token, user, now, newId) => AcceptingKeepsLinks(db, op, user);
    case RegisterAndAccept(token, _, now, user, newId) =>
      if token in db.invitations { AcceptingKeepsLinks(db, op, InvitedUser(db, db.invitations[token].email, user)); }
    case _ =>
      if Apply(db, op).1 == Done {
        assert t' == db.members[op.newId := t'[op.newId]];
        AddingKeepsLinks(db.members, op.newId, t'[op.newId]);
      }
  }

  lemma AcceptingKeepsLinks(db: Database, op: Op, user: User)
    requires Drawn(db, op) && LinksOk(db.members) && (op.Accept? || op.RegisterAndAccept?)
    requires op.token in db.invitations
             ==> user == if op.Accept? then op.user else InvitedUser(db, db.invitations[op.token].email, op.user)
    ensures LinksOk(Apply(db, op).0.members)
  {
    if Apply(db, op).1 == Done {
      var inv := db.invitations[op.token];
      UpsertKeepsLinks(db.members, inv.workspace, user, inv.role, op.newId);
    }
  }

  // ----- whole runs -----

  ghost predicate Run(db: Database, ops: seq<Op>, end: Database)
    decreases |ops|
  {
    if ops == [] then db == end
    else Drawn(db, ops[0]) && Run(Apply(db, ops[0]).0, ops[1..], end)
  }

  const Empty := Database(map[], {}, map[], map[])

  lemma {:induction false} RunKeepsInv(db: Database, ops: seq<Op>, end: Database)
    requires Inv(db) && Run(db, ops, end)
    ensures Inv(end) && db.workspaces <= end.workspaces
    decreases |ops|
  {
    if ops != [] {
      OperationKeepsInv(db, ops[0]);
      RunKeepsInv(Apply(db, ops[0]).0, ops[1..], end);
    }
  }

  /**
   Over every run of registrations, company creations, membership changes, invitations
   and acceptances, every workspace ever created keeps at least one active owner.
   */
  lemma EveryWorkspaceKeepsAnOwner(ops: seq<Op>, end: Database, more: seq<Op>, later: Database, w: Workspace)
    requires Run(Empty, ops, end) && w in end.workspaces && Run(end, more, later)
    ensures HasOwner(later.members, w)
  {
    RunKeepsInv(Empty, ops, end);
    RunKeepsInv(end, more, later);
  }

  ghost predicate NeverSelfSupervising(db: Database, ops: seq<Op>)
    decreases |ops|
  {
    ops == [] || (!SelfSupervising(db, ops[0]) && NeverSelfSupervising(Apply(db, ops[0]).0, ops[1..]))
  }

  /** Over every run without that one request the supervisor links stay well formed. */
  lemma {:induction false} SupervisorsStayOk(db: Database, ops: seq<Op>, end: Database)
    requires Inv(db) && SupervisorsOk(db.members) && Run(db, ops, end) && NeverSelfSupervising(db, ops)
    ensures SupervisorsOk(end.members)
    decreases |ops|
  {
    if ops != [] {
      OperationKeepsInv(db, ops[0]);
      OperationKeepsSupervisors(db, ops[0]);
      SupervisorsStayOk(Apply(db, ops[0]).0, ops[1..], end);
    }
  }

  /**
   Over every run, that request included, only managers have supervisors, and each is an
   active supervisor of the same workspace or the manager itself.
   */
  lemma {:induction false} LinksStayOk(db: Database, ops: seq<Op>, end: Database)
    requires LinksOk(db.members) && Run(db, ops, end)
    ensures LinksOk(end.members)
    decreases |ops|
  {
    if ops != [] {
      OperationKeepsLinks(db, ops[0]);
      LinksStayOk(Apply(db, ops[0]).0, ops[1..], end);
    }
  }

  // ----- acceptance: all or nothing, at most once -----

  /**
   An acceptance that answers an error has changed nothing. One that succeeds has set
   `accepted_at`, touched no other invitation, and left exactly one membership for the
   workspace and user: active, with the invited role.
   */
  lemma AcceptanceIsAllOrNothing(db: Database, op: Op)
    requires Inv(db) && Drawn(db, op) && (op.Accept? || op.RegisterAndAccept?)
    ensures Apply(db, op).1.Failed? ==> Apply(db, op).0 == db
    ensures Apply(db, op).1 == Done ==>
              && CheckInvitation(db, op.token, op.now).None?
              && var inv := db.invitations[op.token];
                 var user := if op.Accept? then op.user else InvitedUser(db, inv.email, op.user);
                 var db' := Apply(db, op).0;
                 && db'.invitations == db.invitations[op.token := inv.(accepted := Some(op.now))]
                 && UniqueMembers(db'.members)
                 && exists id :: IsMember(db'.members, id, inv.workspace, user)
                              && db'.members[id].role == inv.role && db'.members[id].status == Active
  {
    if Apply(db, op).1 == Done {
      var inv := db.invitations[op.token];
      var user := if op.Accept? then op.user else InvitedUser(db, inv.email, op.user);
      UpsertGivesOneMembership(db.members, inv.workspace, user, inv.role, op.newId);
    }
  }

  /** A new workspace starts with the one who made it as its active owner, and changes nobody else. */
  lemma FounderOwnsTheWorkspace(db: Database, op: Op)
    requires (op.Register? || op.CreateCompany?) && Drawn(db, op)
    ensures Apply(db, op).1 == Done <==>
            if op.Register? then forall u | u in db.users :: db.users[u].email != op.email else op.user in db.users
    ensures Apply(db, op).1 != Done ==> Apply(db, op).0 == db
    ensures Apply(db, op).1 == Done ==>
              var db' := Apply(db, op).0;
              && op.newId in db'.members && IsMember(db'.members, op.newId, op.workspace, op.user)
              && ActiveOwner(db'.members[op.newId]) && db'.members[op.newId].supervisor.None?
              && db'.members - {op.newId} == db.members && db'.workspaces == db.workspaces + {op.workspace}
              && op.user in db'.users && db'.users - {op.user} == db.users - {op.user}
              && (op.Register? ==> db'.users[op.user].email == op.email && db'.users[op.user].password == op.password
                                   && db'.users[op.user].active && db'.users[op.user].verified.None?)
              && (op.CreateCompany? ==> db'.users == db.users)
  {
    if op.Register? {
      assert UserWith(db.users, op.email).None? ==> forall u | u in db.users :: !HasEmail(db.users, u, op.email);
    }
  }

  predicate IsAcceptance(op: Op) {
    op.Accept? || op.RegisterAndAccept?
  }

  /**
   The three refusals of an invitation, each exactly on its own condition, for both kinds
   of acceptance; so one that succeeds used a pending invitation no later than its expiry.
   */
  lemma AcceptanceAnswersExactly(db: Database, op: Op)
    requires IsAcceptance(op)
    ensures var answer, held := Apply(db, op).1, db.invitations;
            && (answer == Failed(NoSuchInvitation) <==> op.token !in held)
            && (answer == Failed(AlreadyAccepted) <==> op.token in held && held[op.token].accepted.Some?)
            && (answer == Failed(Expired) <==>
                  op.token in held && held[op.token].accepted.None? && held[op.token].expires < op.now)
            && (answer == Done ==>
                  op.token in held && held[op.token].accepted.None? && op.now <= held[op.token].expires)
  {
  }

  /**
   An acceptance that meets none of them succeeds exactly when its user is known and the
   triggers let the membership be: it is not the only active owner's demotion, nor the
   promotion of a manager who has a supervisor, nor of one who is its own.
   */
  lemma AcceptanceSucceedsExactly(db: Database, op: Op)
    requires IsAcceptance(op) && LinksOk(db.members)
    requires op.token in db.invitations && db.invitations[op.token].accepted.None? && op.now <= db.invitations[op.token].expires
    ensures var inv := db.invitations[op.token];
            var user := if op.Accept? then op.user else InvitedUser(db, inv.email, op.user);
            var held := MemberOf(db.members, inv.workspace, user);
            && (Apply(db, op).1 == Failed(NoSuchUser) <==> op.Accept? && op.user !in db.users)
            && (Apply(db, op).1 == Done <==>
                  && (op.Accept? ==> op.user in db.users)
                  && (held.Some? ==>
                        var row := db.members[held.value];
                        && !(ActiveOwner(row) && inv.role != Owner && !OtherOwner(db.members, held.value))
                        && !(row.supervisor.Some? && inv.role != Manager)
                        && row.supervisor != held))
  {
    var inv := db.invitations[op.token];
    var user := if op.Accept? then op.user else InvitedUser(db, inv.email, op.user);
    UpsertRefusedExactly(db.members, inv.workspace, user, inv.role, op.newId);
  }

  /** A registration sets the account of the invited address, and no other: password, active, verified. */
  lemma RegistrationWritesExactly(db: Database, op: Op, u: User)
    requires Inv(db) && Drawn(db, op) && op.RegisterAndAccept? && Apply(db, op).1 == Done
    ensures var users, users' := db.users, Apply(db, op).0.users;
            && (users'.Keys == users.Keys || users'.Keys == users.Keys + {op.user})
            && (u in users' && users'[u].email == db.invitations[op.token].email ==>
                  && users'[u].password == op.password && users'[u].active
                  && users'[u].verified == if u in users && users[u].verified.Some? then users[u].verified else Some(op.now))
            && (u in users && users[u].email != db.invitations[op.token].email ==> u in users' && users'[u] == users[u])
            && (exists v :: HasEmail(users', v, db.invitations[op.token].email))
  {
    var email := db.invitations[op.token].email;
    var found := UserWith(db.users, email);
    assert HasEmail(Apply(db, op).0.users, InvitedUser(db, email, op.user), email);
    if found.Some? {
      assert u in db.users && db.users[u].email == email ==> u == found.value;
    } else {
      assert u in db.users ==> !HasEmail(db.users, u, email);
    }
  }

  /** Accepting as an existing user changes no account. */
  lemma AcceptingKeepsAccounts(db: Database, op: Op)
    requires op.Accept?
    ensures Apply(db, op).0.users == db.users
  {
  }

  /** `Revoke` removes the workspace's own pending invitation of that ID, and nothing else. */
  lemma RevokeRemovesExactly(db: Database, workspace: Workspace, id: nat, t: Token)
    requires t in db.invitations
    ensures var revoked := db.invitations[t].workspace == workspace && db.invitations[t].id == id && db.invitations[t].accepted.None?;
            var db' := Apply(db, Revoke(workspace, id)).0;
            && (t in db'.invitations <==> !revoked)
            && (!revoked ==> db'.invitations[t] == db.invitations[t])
            && db' == db.(invitations := db'.invitations)
            && (revoked ==> Apply(db, Revoke(workspace, id)).1 == Done)
  {
    var db' := Apply(db, Revoke(workspace, id)).0;
    assert t in db.invitations && t !in db'.invitations ==> db'.invitations != db.invitations;
  }

  /** Inviting an active member is refused; otherwise the invitation is stored as given. */
  lemma InviteWritesExactly(db: Database, token: Token, invitation: Invitation, clears: bool)
    requires Drawn(db, Invite(token, invitation, clears)) && invitation.workspace in db.workspaces
    ensures var answer := Apply(db, Invite(token, invitation, clears)).1;
            && (answer == Done || answer == Failed(AlreadyMember))
            && (answer == Failed(AlreadyMember) <==>
                  exists m, u :: && m in db.members && db.members[m].workspace == invitation.workspace
                                 && db.members[m].status == Active && db.members[m].user == u
                                 && u in db.users && db.users[u].email == invitation.email)
    ensures var db' := Apply(db, Invite(token, invitation, clears)).0;
            Apply(db, Invite(token, invitation, clears)).1 == Done ==>
              && token in db'.invitations && db'.invitations[token] == invitation
              && db' == db.(invitations := db'.invitations)
              && (forall t | t in db'.invitations && t != token :: t in db.invitations && db'.invitations[t] == db.invitations[t])
  {
    if ActiveMemberByEmail(db, invitation.workspace, invitation.email) {
      var m :| m in db.members && db.members[m].workspace == invitation.workspace && db.members[m].status == Active
               && HasEmail(db.users, db.members[m].user, invitation.email);
      assert db.members[m].user == db.members[m].user;
    }
  }

  /** After the old ones are cleared, the new invitation is the only pending one of its address there. */
  lemma OnePendingInvitation(db: Database, token: Token, invitation: Invitation, t: Token)
    requires Apply(db, Invite(token, invitation, true)).1 == Done
    requires t in Apply(db, Invite(token, invitation, true)).0.invitations
    requires Pending(Apply(db, Invite(token, invitation, true)).0.invitations[t], invitation.workspace, invitation.email)
    ensures t == token
  {
  }

  /** A new member is an active one with the role asked for, and an active account of that address. */
  lemma AddedMemberExactly(db: Database, op: Op)
    requires op.AddMember? && Drawn(db, op) && Apply(db, op).1 == Done
    ensures var members' := Apply(db, op).0.members;
            && members'.Keys == db.members.Keys + {op.newId}
            && (forall m | m in db.members :: members'[m] == db.members[m])
            && members'[op.newId].workspace == op.workspace && members'[op.newId].role == op.role
            && members'[op.newId].status == Active && members'[op.newId].supervisor.None?
            && HasEmail(db.users, members'[op.newId].user, op.email) && db.users[members'[op.newId].user].active
  {
  }

  predicate Redeems(db: Database, op: Op, token: Token) {
    (op.Accept? || op.RegisterAndAccept?) && op.token == token
  }

  /** How many times a run redeems a token successfully. */
  ghost function Redemptions(db: Database, ops: seq<Op>, token: Token): nat
    decreases |ops|
  {
    if ops == [] then 0 else
      (if Redeems(db, ops[0], token) && Apply(db, ops[0]).1 == Done then 1 else 0)
      + Redemptions(Apply(db, ops[0]).0, ops[1..], token)
  }

  /** How many times a run redeems a token after its expiry. */
  ghost function LateRedemptions(db: Database, ops: seq<Op>, token: Token, expires: Time): nat
    decreases |ops|
  {
    if ops == [] then 0 else
      (if Redeems(db, ops[0], token) && Apply(db, ops[0]).1 == Done && ops[0].now > expires then 1 else 0)
      + LateRedemptions(Apply(db, ops[0]).0, ops[1..], token, expires)
  }

  lemma ExpiryIsKept(db: Database, op: Op, token: Token)
    requires Drawn(db, op) && token in Apply(db, op).0.invitations
    ensures if op.Invite? && op.token == token && token !in db.invitations
            then Apply(db, op).0.invitations[token].expires == op.invitation.expires
            else token in db.invitations && Apply(db, op).0.invitations[token].expires == db.invitations[token].expires
  {
  }

  /** Over every run, no token is redeemed after the expiry its invitation was issued with. */
  lemma {:induction false} NeverRedeemedLate(db: Database, ops: seq<Op>, end: Database, token: Token, expires: Time)
    requires Run(db, ops, end)
    requires token in db.invitations ==> db.invitations[token].expires == expires
    requires forall op | op in ops :: op.Invite? && op.token == token ==> op.invitation.expires == expires
    ensures LateRedemptions(db, ops, token, expires) == 0
    decreases |ops|
  {
    if ops != [] {
      var next := Apply(db, ops[0]).0;
      assert ops[0] in ops && forall op | op in ops[1..] :: op in ops;
      if token in next.invitations { ExpiryIsKept(db, ops[0], token); }
      if IsAcceptance(ops[0]) { AcceptanceAnswersExactly(db, ops[0]); }
      NeverRedeemedLate(next, ops[1..], end, token, expires);
    }
  }

  ghost predicate Spent(db: Database, token: Token) {
    token in db.invitations && db.invitations[token].accepted.Some?
  }

  lemma SpentStaysSpent(db: Database, op: Op, token: Token)
    requires Drawn(db, op) && Spent(db, token)
    ensures Spent(Apply(db, op).0, token)
    ensures Redeems(db, op, token) ==> Apply(db, op).1 == Failed(AlreadyAccepted)
  {
  }

  lemma {:induction false} SpentIsNeverRedeemed(db: Database, ops: seq<Op>, end: Database, token: Token)
    requires Run(db, ops, end) && Spent(db, token)
    ensures Redemptions(db, ops, token) == 0
    decreases |ops|
  {
    if ops != [] {
      SpentStaysSpent(db, ops[0], token);
      SpentIsNeverRedeemed(Apply(db, ops[0]).0, ops[1..], end, token);
    }
  }

  /** Over any run, however invitations are issued, revoked and accepted, a token is redeemed at most once. */
  lemma {:induction false} RedeemedAtMostOnce(db: Database, ops: seq<Op>, end: Database, token: Token)
    requires Run(db, ops, end)
    ensures Redemptions(db, ops, token) <= 1
    decreases |ops|
  {
    if ops != [] {
      var db' := Apply(db, ops[0]).0;
      if Redeems(db, ops[0], token) && Apply(db, ops[0]).1 == Done {
        assert Spent(db', token);
        SpentIsNeverRedeemed(db', ops[1..], end, token);
      } else {
        RedeemedAtMostOnce(db', ops[1..], end, token);
      }
    }
  }

  // ----- the two accepting transactions -----

  class InvitationStore {
    var users: map<User, Account>
    var workspaces: set<Workspace>
    const members: MembershipTable
    var invitations: map<Token, Invitation>

    ghost function View(): Database
      reads this, members
    {
      Database(users, workspaces, members.rows, invitations)
    }

    constructor (users: map<User, Account>, workspaces: set<Workspace>, members: MembershipTable, invitations: map<Token, Invitation>)
      ensures View() == Database(users, workspaces, members.rows, invitations) && this.members == members
    {
      this.users, this.workspaces, this.members, this.invitations := users, workspaces, members, invitations;
    }

    /** The unique index on workspace and user, used to detect the conflict. */
    method FindMember(workspace: Workspace, user: User) returns (found: Option<Id>)
      requires UniqueMembers(members.rows)
      ensures found == MemberOf(members.rows, workspace, user)
    {
      var pending := members.rows.Keys;
      while pending != {}
        invariant pending <= members.rows.Keys
        invariant forall id | id in members.rows.Keys - pending :: !IsMember(members.rows, id, workspace, user)
        decreases |pending|
      {
        var id :| id in pending;
        if IsMember(members.rows, id, workspace, user) {
          return Some(id);
        }
        pending := pending - {id};
      }
      return None;
    }

    /** INSERT ... ON CONFLICT (workspace_id, user_id) DO UPDATE SET role, status. */
    method UpsertMember(workspace: Workspace, user: User, role: Role, newId: Id) returns (refusal: Option<Refusal>)
      requires UniqueMembers(members.rows)
      modifies members
      ensures match Upserted(old(members.rows), workspace, user, role, newId)
              case Ok(rows) => refusal.None? && members.rows == rows
              case Err(reason) => refusal == Some(reason) && members.rows == old(members.rows)
    {
      var found := FindMember(workspace, user);
      if found.None? {
        members.rows := members.rows[newId := Membership(workspace, user, role, Active, None)];
        return None;
      }
      refusal := members.UpdateRow(found.value, members.rows[found.value].(role := role, status := Active));
    }

    method MarkAccepted(token: Token, now: Time)
      requires token in invitations
      modifies this`invitations
      ensures invitations == old(invitations)[token := old(invitations)[token].(accepted := Some(now))]
    {
      invitations := invitations[token := invitations[token].(accepted := Some(now))];
    }

    /** `AcceptForUser`. */
    method AcceptForUser(token: Token, user: User, now: Time, newId: Id) returns (answer: Answer)
      requires Inv(View())
      modifies this, members
      ensures (View(), answer) == Apply(old(View()), Accept(token, user, now, newId))
    {
      var problem := CheckInvitation(Database(users, workspaces, members.rows, invitations), token, now);
      if problem.Some? {
        return Failed(problem.value);
      }
      if user !in users {
        return Failed(NoSuchUser);
      }
      var inv := invitations[token];
      var refusal := UpsertMember(inv.workspace, user, inv.role, newId);
      if refusal.Some? {
        return Failed(Rejected(refusal.value));
      }
      MarkAccepted(token, now);
      return Done;
    }

    method FindUser(email: string) returns (found: Option<User>)
      requires UniqueEmails(users)
      ensures found == UserWith(users, email)
    {
      var pending := users.Keys;
      while pending != {}
        invariant pending <= users.Keys
        invariant forall u | u in users.Keys - pending :: !HasEmail(users, u, email)
        decreases |pending|
      {
        var u :| u in pending;
        if HasEmail(users, u, email) {
          return Some(u);
        }
        pending := pending - {u};
      }
      return None;
    }

    /** `RegisterAndAccept`: the account is upserted first and rolled back with the rest. */
    method RegisterAndAccept(token: Token, password: nat, now: Time, newUser: User, newId: Id) returns (answer: Answer)
      requires Inv(View())
      modifies this, members
      ensures (View(), answer) == Apply(old(View()), Op.RegisterAndAccept(token, password, now, newUser, newId))
    {
      var problem := CheckInvitation(Database(users, workspaces, members.rows, invitations), token, now);
      if problem.Some? {
        return Failed(problem.value);
      }
      var inv := invitations[token];
      var saved := users;
      var found := FindUser(inv.email);
      var user := newUser;
      var verified := Some(now);
      if found.Some? {
        user := found.value;
        if users[user].verified.Some? {
          verified := users[user].verified;
        }
      }
      users := users[user := Account(inv.email, password, true, verified)];
      var refusal := UpsertMember(inv.workspace, user, inv.role, newId);
      if refusal.Some? {
        users := saved;
        return Failed(Rejected(refusal.value));
      }
      MarkAccepted(token, now);
      return Done;
    }
  }
}
