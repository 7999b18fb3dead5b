/**
 The membership table: its two row triggers, its foreign key, and the store and
 service operations on it. Transactions are taken one after the other. The functions
 say what a statement does to the table and when it is refused; the class runs the
 triggers in the order and with the visibility PostgreSQL gives them.
 */
module Memberships {
  import opened Results

  type Id = nat
  type Workspace = nat
  type User = nat

  datatype Role = Owner | Admin | Supervisor | Manager
  datatype Standing = Invited | Active | Disabled

  datatype Membership = Membership(
    workspace: Workspace, user: User, role: Role, status: Standing, supervisor: Option<Id>)

  type Table = map<Id, Membership>

  datatype Refusal =
    | LastOwner
    | OnlyManagers
    | BadSupervisor
    | RowBusy
    | DuplicateMember
    | MembershipNotFound
    | InvalidSupervisor
    | Forbidden

  // ----- invariants of the table -----

  predicate ActiveOwner(m: Membership) {
    m.role == Owner && m.status == Active
  }

  predicate ActiveSupervisor(m: Membership) {
    m.role == Supervisor && m.status == Active
  }

  predicate Supervises(t: Table, supervisor: Id, workspace: Workspace) {
    supervisor in t && t[supervisor].workspace == workspace && ActiveSupervisor(t[supervisor])
  }

  /** Only managers have supervisors, and each is an active supervisor of the same workspace. */
  ghost predicate SupervisorsOk(t: Table) {
    forall m | m in t && t[m].supervisor.Some? ::
      t[m].role == Manager && Supervises(t, t[m].supervisor.value, t[m].workspace)
  }

  /** The same, except that a manager may be its own supervisor: what every run keeps. */
  ghost predicate LinksOk(t: Table) {
    forall m | m in t && t[m].supervisor.Some? ::
      t[m].role == Manager && (t[m].supervisor == Some(m) || Supervises(t, t[m].supervisor.value, t[m].workspace))
  }

  ghost predicate HasOwner(t: Table, workspace: Workspace) {
    exists m :: m in t && t[m].workspace == workspace && ActiveOwner(t[m])
  }

  /** UNIQUE (workspace_id, user_id). */
  ghost predicate UniqueMembers(t: Table) {
    forall m, n | m in t && n in t && t[m].workspace == t[n].workspace && t[m].user == t[n].user :: m == n
  }

  // ----- statements -----

  predicate StepsDown(before: Membership, after: Membership) {
    ActiveSupervisor(before) && !ActiveSupervisor(after)
  }

  predicate OtherOwner(t: Table, id: Id)
    requires id in t
  {
    exists other | other in t :: other != id && t[other].workspace == t[id].workspace && ActiveOwner(t[other])
  }

  /** The table with every link to `id` inside one workspace removed. */
  function Unlinked(t: Table, id: Id, workspace: Workspace): Table {
    map m | m in t ::
      if t[m].workspace == workspace && t[m].supervisor == Some(id) then t[m].(supervisor := None) else t[m]
  }

  /** Why an UPDATE of one row is refused, if it is. */
  function UpdateRefusal(t: Table, id: Id, after: Membership): Option<Refusal>
    requires id in t
  {
    if ActiveOwner(t[id]) && !ActiveOwner(after) && !OtherOwner(t, id) then Some(LastOwner)
    else if after.role != Manager && after.supervisor.Some? then Some(OnlyManagers)
    else if after.supervisor.Some? && !Supervises(t, after.supervisor.value, after.workspace) then Some(BadSupervisor)
    else if StepsDown(t[id], after) && t[id].supervisor == Some(id) then Some(RowBusy)
    else None
  }

  /** The table after an UPDATE that was not refused. */
  function Updated(t: Table, id: Id, after: Membership): Table
    requires id in t
  {
    (if StepsDown(t[id], after) then Unlinked(t, id, t[id].workspace) else t)[id := after]
  }

  predicate DeleteRefused(t: Table, id: Id)
    requires id in t
  {
    ActiveOwner(t[id]) && !OtherOwner(t, id)
  }

  /** The table after a DELETE: the foreign key sets every link to the row to NULL. */
  function Deleted(t: Table, id: Id): Table {
    map m | m in t && m != id ::
      if t[m].supervisor == Some(id) then t[m].(supervisor := None) else t[m]
  }

  // ----- what the statements keep -----

  /**
   An accepted UPDATE keeps supervisor links well formed exactly when the row does not
   name itself as its supervisor: the guard still sees the old row of the table.
   */
  lemma UpdateKeepsSupervisorsExactly(t: Table, id: Id, after: Membership)
    requires id in t && after.workspace == t[id].workspace
    requires SupervisorsOk(t) && UpdateRefusal(t, id, after).None?
    ensures SupervisorsOk(Updated(t, id, after)) <==> after.supervisor != Some(id)
  {
    var t' := Updated(t, id, after);
    if after.supervisor == Some(id) {
      assert t'[id].supervisor == Some(id) && t'[id].role == Manager;
    } else {
      forall m | m in t' && t'[m].supervisor.Some?
        ensures t'[m].role == Manager && Supervises(t', t'[m].supervisor.value, t'[m].workspace)
      {
        var s := t'[m].supervisor.value;
        if m != id {
          assert t[m].supervisor == Some(s) && Supervises(t, s, t[m].workspace);
        }
      }
    }
  }

  /** Whatever the row names, an accepted UPDATE spoils no other link. */
  lemma UpdateKeepsLinks(t: Table, id: Id, after: Membership)
    requires id in t && after.workspace == t[id].workspace
    requires LinksOk(t) && UpdateRefusal(t, id, after).None?
    ensures LinksOk(Updated(t, id, after))
  {
    var t' := Updated(t, id, after);
    forall m | m in t' && t'[m].supervisor.Some?
      ensures t'[m].role == Manager
      ensures t'[m].supervisor == Some(m) || Supervises(t', t'[m].supervisor.value, t'[m].workspace)
    {
      var s := t'[m].supervisor.value;
      if m != id && s != m {
        assert t[m].supervisor == Some(s) && Supervises(t, s, t[m].workspace);
      }
    }
  }

  lemma DeleteKeepsLinks(t: Table, id: Id)
    requires LinksOk(t)
    ensures LinksOk(Deleted(t, id))
  {
    var t' := Deleted(t, id);
    forall m | m in t' && t'[m].supervisor.Some?
      ensures t'[m].role == Manager
      ensures t'[m].supervisor == Some(m) || Supervises(t', t'[m].supervisor.value, t'[m].workspace)
    {
      assert t[m].supervisor == t'[m].supervisor;
    }
  }

  lemma StoreOperationsKeepLinks(t: Table, workspace: Workspace, id: Id, input: UpdateInput)
    requires LinksOk(t)
    ensures LinksOk(StoreUpdate(t, workspace, id, input))
    ensures LinksOk(StoreDelete(t, workspace, id))
  {
    if StoreUpdateRefusal(t, workspace, id, input).None? { UpdateKeepsLinks(t, id, Edited(t[id], input)); }
    DeleteKeepsLinks(t, id);
  }

  /** An accepted UPDATE leaves every workspace that had an active owner with one. */
  lemma UpdateKeepsOwners(t: Table, id: Id, after: Membership, workspace: Workspace)
    requires id in t && after.workspace == t[id].workspace
    requires UpdateRefusal(t, id, after).None? && HasOwner(t, workspace)
    ensures HasOwner(Updated(t, id, after), workspace)
  {
    var t' := Updated(t, id, after);
    var m :| m in t && t[m].workspace == workspace && ActiveOwner(t[m]);
    if m == id && !ActiveOwner(after) {
      var other :| other in t && other != id && t[other].workspace == workspace && ActiveOwner(t[other]);
      assert other in t' && ActiveOwner(t'[other]);
    } else {
      assert m in t' && ActiveOwner(t'[m]);
    }
  }

  lemma DeleteKeepsSupervisors(t: Table, id: Id)
    requires SupervisorsOk(t)
    ensures SupervisorsOk(Deleted(t, id))
  {
    var t' := Deleted(t, id);
    forall m | m in t' && t'[m].supervisor.Some?
      ensures t'[m].role == Manager && Supervises(t', t'[m].supervisor.value, t'[m].workspace)
    {
      assert Supervises(t, t[m].supervisor.value, t[m].workspace);
    }
  }

  lemma DeleteKeepsOwners(t: Table, id: Id, workspace: Workspace)
    requires id in t && !DeleteRefused(t, id) && HasOwner(t, workspace)
    ensures HasOwner(Deleted(t, id), workspace)
  {
    var t' := Deleted(t, id);
    var m :| m in t && t[m].workspace == workspace && ActiveOwner(t[m]);
    if m == id {
      var other :| other in t && other != id && t[other].workspace == workspace && ActiveOwner(t[other]);
      assert other in t' && ActiveOwner(t'[other]);
    } else {
      assert m in t' && ActiveOwner(t'[m]);
    }
  }

  // ----- the store's Update and Delete -----

  datatype UpdateInput = UpdateInput(
    role: Option<Role>, status: Option<Standing>, supervisor: Option<Id>, clearSupervisor: bool)

  /** The row the store writes back. */
  function Edited(current: Membership, input: UpdateInput): Membership {
    var role := if input.role.Some? then input.role.value else current.role;
    var status := if input.status.Some? then input.status.value else current.status;
    var supervisor :=
      if role != Manager || input.clearSupervisor then None
      else if input.supervisor.Some? then input.supervisor else current.supervisor;
    current.(role := role, status := status, supervisor := supervisor)
  }

  function StoreUpdateRefusal(t: Table, workspace: Workspace, id: Id, input: UpdateInput): Option<Refusal> {
    if id !in t || t[id].workspace != workspace then Some(MembershipNotFound)
    else if !input.clearSupervisor && input.supervisor.Some? && !Supervises(t, input.supervisor.value, workspace) then
      Some(InvalidSupervisor)
    else UpdateRefusal(t, id, Edited(t[id], input))
  }

  function StoreUpdate(t: Table, workspace: Workspace, id: Id, input: UpdateInput): Table {
    if StoreUpdateRefusal(t, workspace, id, input).None? then Updated(t, id, Edited(t[id], input)) else t
  }

  function StoreDeleteRefusal(t: Table, workspace: Workspace, id: Id): Option<Refusal> {
    if id !in t || t[id].workspace != workspace then Some(MembershipNotFound)
    else if DeleteRefused(t, id) then Some(LastOwner)
    else None
  }

  function StoreDelete(t: Table, workspace: Workspace, id: Id): Table {
    if StoreDeleteRefusal(t, workspace, id).None? then Deleted(t, id) else t
  }

  /** A request to turn a membership into a manager supervised by itself. */
  predicate AsksForSelf(id: Id, input: UpdateInput) {
    input.role == Some(Manager) && input.supervisor == Some(id) && !input.clearSupervisor
  }

  /**
   `Update`, exactly: it breaks the supervisor links if and only if it is asked to
   demote an active supervisor to manager while naming that same membership as the
   supervisor. Then both checks pass, because both still see the old row.
   */
  lemma StoreUpdateKeepsSupervisorsExactly(t: Table, workspace: Workspace, id: Id, input: UpdateInput)
    requires SupervisorsOk(t)
    ensures SupervisorsOk(StoreUpdate(t, workspace, id, input))
            <==> !(AsksForSelf(id, input) && Supervises(t, id, workspace))
  {
    if StoreUpdateRefusal(t, workspace, id, input).None? {
      var after := Edited(t[id], input);
      UpdateKeepsSupervisorsExactly(t, id, after);
    }
  }

  /** The failing case on a two-row table: accepted, and the row ends up its own supervisor. */
  lemma SelfSupervisionIsAccepted()
    ensures var t := map[1 := Membership(7, 1, Owner, Active, None), 2 := Membership(7, 2, Supervisor, Active, None)];
            var input := UpdateInput(Some(Manager), None, Some(2), false);
            && SupervisorsOk(t)
            && StoreUpdateRefusal(t, 7, 2, input).None?
            && StoreUpdate(t, 7, 2, input)[2] == Membership(7, 2, Manager, Active, Some(2))
            && !SupervisorsOk(StoreUpdate(t, 7, 2, input))
  {
    var t := map[1 := Membership(7, 1, Owner, Active, None), 2 := Membership(7, 2, Supervisor, Active, None)];
    StoreUpdateKeepsSupervisorsExactly(t, 7, 2, UpdateInput(Some(Manager), None, Some(2), false));
  }

  lemma StoreOperationsKeepOwners(t: Table, workspace: Workspace, id: Id, input: UpdateInput, any: Workspace)
    requires HasOwner(t, any)
    ensures HasOwner(StoreUpdate(t, workspace, id, input), any)
    ensures HasOwner(StoreDelete(t, workspace, id), any)
  {
    if StoreUpdateRefusal(t, workspace, id, input).None? { UpdateKeepsOwners(t, id, Edited(t[id], input), any); }
    if StoreDeleteRefusal(t, workspace, id).None? { DeleteKeepsOwners(t, id, any); }
  }

  // ----- what a successful Update or Delete writes -----

  /** A statement touches other rows only by clearing links to the row it changed. */
  lemma OtherRowsLoseLinksOnly(t: Table, id: Id, after: Membership, m: Id)
    requires id in t && m in t && m != id
    ensures m in Updated(t, id, after)
    ensures Updated(t, id, after)[m] ==
            if t[m].supervisor == Some(id) && t[m].workspace == t[id].workspace
               && t[id].role == Supervisor && t[id].status == Active
               && !(after.role == Supervisor && after.status == Active)
            then t[m].(supervisor := None) else t[m]
  {
  }

  /**
   A successful `Update` writes each field as asked, and keeps the ones not asked for: a
   supervisor survives only on a manager, unless it is cleared or replaced. Workspace and
   user stay, and every other row changes at most by losing its link to this one.
   */
  lemma UpdateWritesExactly(t: Table, workspace: Workspace, id: Id, input: UpdateInput, m: Id)
    requires StoreUpdateRefusal(t, workspace, id, input).None?
    ensures var t' := StoreUpdate(t, workspace, id, input);
            && id in t && t[id].workspace == workspace && t'.Keys == t.Keys
            && t'[id].workspace == t[id].workspace && t'[id].user == t[id].user
            && t'[id].role == (match input.role case Some(role) => role case None => t[id].role)
            && t'[id].status == (match input.status case Some(status) => status case None => t[id].status)
            && (t'[id].role != Manager || input.clearSupervisor ==> t'[id].supervisor == None)
            && (t'[id].role == Manager && !input.clearSupervisor ==>
                  t'[id].supervisor == (match input.supervisor case Some(s) => Some(s) case None => t[id].supervisor))
            && (m in t && m != id ==>
                  t'[m] == t[m] || (t[m].supervisor == Some(id) && t'[m] == t[m].(supervisor := None)))
  {
    if m in t && m != id { OtherRowsLoseLinksOnly(t, id, Edited(t[id], input), m); }
  }

  /**
   `Update` is refused exactly when there is no such row in the workspace, a supervisor is
   named who is none, the last active owner would go, or the row would keep itself as its
   supervisor; and then nothing changes.
   */
  lemma UpdateRefusedExactly(t: Table, workspace: Workspace, id: Id, input: UpdateInput)
    requires LinksOk(t)
    ensures StoreUpdateRefusal(t, workspace, id, input).Some? <==>
            || id !in t || t[id].workspace != workspace
            || (!input.clearSupervisor && input.supervisor.Some? && !Supervises(t, input.supervisor.value, workspace))
            || (ActiveOwner(t[id]) && !OtherOwner(t, id)
                && ((input.role.Some? && input.role != Some(Owner)) || (input.status.Some? && input.status != Some(Active))))
            || (!input.clearSupervisor && input.supervisor.None? && t[id].supervisor == Some(id)
                && (input.role.None? || input.role == Some(Manager)))
    ensures StoreUpdateRefusal(t, workspace, id, input).Some? ==> StoreUpdate(t, workspace, id, input) == t
  {
    if id in t && t[id].workspace == workspace && t[id].supervisor.Some? && t[id].supervisor != Some(id) {
      assert Supervises(t, t[id].supervisor.value, workspace);
    }
  }

  /** `Delete` is refused exactly for an absent row or the last active owner; else only links to the row go with it. */
  lemma DeleteWritesExactly(t: Table, workspace: Workspace, id: Id)
    ensures StoreDeleteRefusal(t, workspace, id).Some? <==>
            id !in t || t[id].workspace != workspace || (ActiveOwner(t[id]) && !OtherOwner(t, id))
    ensures StoreDeleteRefusal(t, workspace, id).Some? ==> StoreDelete(t, workspace, id) == t
    ensures StoreDeleteRefusal(t, workspace, id).None? ==>
              var t' := StoreDelete(t, workspace, id);
              && t'.Keys == t.Keys - {id}
              && forall m | m in t' ::
                   t'[m] == if t[m].supervisor == Some(id) then t[m].(supervisor := None) else t[m]
  {
  }

  /** An active supervisor who steps down or leaves takes every link of the team along. */
  lemma LeavingSupervisorFreesTheTeam(t: Table, workspace: Workspace, id: Id, input: UpdateInput, m: Id)
    requires LinksOk(t) && Supervises(t, id, workspace) && !AsksForSelf(id, input)
    requires m in t && t[m].supervisor == Some(id)
    ensures StoreUpdateRefusal(t, workspace, id, input).None? && !ActiveSupervisor(Edited(t[id], input)) ==>
              StoreUpdate(t, workspace, id, input)[m] == t[m].(supervisor := None)
    ensures StoreDelete(t, workspace, id) == Deleted(t, id) && StoreDelete(t, workspace, id)[m] == t[m].(supervisor := None)
  {
    assert m != id;
  }

  // ----- the service on top -----

  datatype Actor = Actor(workspace: Workspace, user: User, role: Role, member: bool, personal: bool)

  predicate CanManageMembers(a: Actor) {
    !a.personal && a.member && (a.role == Owner || a.role == Admin)
  }

  predicate CanManageAdmins(a: Actor) {
    !a.personal && a.member && a.role == Owner
  }

  predicate CanAssign(a: Actor, role: Role) {
    role == Owner || role == Admin ==> CanManageAdmins(a)
  }

  predicate CanManageTarget(a: Actor, target: Membership) {
    && target.workspace == a.workspace
    && (target.role == Owner || target.role == Admin ==> CanManageAdmins(a))
  }

  function ServiceUpdate(t: Table, a: Actor, id: Id, input: UpdateInput): Table {
    if !CanManageMembers(a) || id !in t || t[id].workspace != a.workspace then t
    else if !CanManageTarget(a, t[id]) || (input.role.Some? && !CanAssign(a, input.role.value)) then t
    else if t[id].role == Owner && t[id].user == a.user && input.status.Some? && input.status.value != Active then t
    else StoreUpdate(t, a.workspace, id, input)
  }

  function ServiceDelete(t: Table, a: Actor, id: Id): Table {
    if !CanManageMembers(a) || id !in t || t[id].workspace != a.workspace then t
    else if !CanManageTarget(a, t[id]) || (t[id].role == Owner && t[id].user == a.user) then t
    else StoreDelete(t, a.workspace, id)
  }

  /** Who may manage anybody at all: active owners and admins of a company. */
  predicate MayManage(a: Actor) {
    !a.personal && a.member && (a.role == Owner || a.role == Admin)
  }

  /**
   Who may change whom, exactly: the service passes an update on if and only if the actor
   manages the company the row belongs to, owners and admins are changed or made by an
   owner only, and no owner deactivates itself. Otherwise nothing changes.
   */
  lemma ServiceUpdatesExactly(t: Table, a: Actor, id: Id, input: UpdateInput)
    ensures var passed :=
              && MayManage(a) && id in t && t[id].workspace == a.workspace
              && (t[id].role in {Owner, Admin} || input.role in {Some(Owner), Some(Admin)} ==> a.role == Owner)
              && !(t[id].role == Owner && t[id].user == a.user && input.status.Some? && input.status != Some(Active));
            ServiceUpdate(t, a, id, input) == if passed then StoreUpdate(t, a.workspace, id, input) else t
  {
  }

  /** The same for deletions; no owner deletes itself. */
  lemma ServiceDeletesExactly(t: Table, a: Actor, id: Id)
    ensures var passed :=
              && MayManage(a) && id in t && t[id].workspace == a.workspace
              && (t[id].role in {Owner, Admin} ==> a.role == Owner)
              && !(t[id].role == Owner && t[id].user == a.user);
            ServiceDelete(t, a, id) == if passed then StoreDelete(t, a.workspace, id) else t
  {
  }

  predicate Leading(m: Membership) {
    m.role == Owner || m.role == Admin
  }

  /**
   Nobody below owner can change who leads: through the service, an actor who is not an
   active owner of a company workspace leaves every owner and admin row as it was and
   creates none.
   */
  lemma OnlyOwnersChangeLeaders(t: Table, a: Actor, id: Id, input: UpdateInput, m: Id)
    requires LinksOk(t) && !CanManageAdmins(a)
    ensures forall t' | t' == ServiceUpdate(t, a, id, input) || t' == ServiceDelete(t, a, id) ::
              (m in t && Leading(t[m])) == (m in t' && Leading(t'[m]))
              && (m in t && Leading(t[m]) ==> t'[m] == t[m])
  {
  }

  // ----- the table with its triggers -----

  class MembershipTable {
    var rows: Table

    constructor (rows: Table)
      ensures this.rows == rows
    {
      this.rows := rows;
    }

    /** `protect_last_workspace_owner`, for a row that will no longer be an active owner. */
    method LastOwnerGuard(id: Id) returns (raised: bool)
      requires id in rows
      ensures raised <==> !OtherOwner(rows, id)
    {
      var others := rows.Keys - {id};
      while others != {}
        invariant others <= rows.Keys - {id}
        invariant forall other | other in rows.Keys - {id} - others ::
            !(rows[other].workspace == rows[id].workspace && ActiveOwner(rows[other]))
        decreases |others|
      {
        var other :| other in others;
        if rows[other].workspace == rows[id].workspace && rows[other].role == Owner && rows[other].status == Active {
          return false;
        }
        others := others - {other};
      }
      return true;
    }

    /** The nested UPDATE of `validate_membership_supervisor`, row by row. */
    method ClearTeam(id: Id, workspace: Workspace)
      modifies this
      ensures rows == Unlinked(old(rows), id, workspace)
    {
      ghost var before := rows;
      var pending := rows.Keys;
      while pending != {}
        invariant pending <= before.Keys && rows.Keys == before.Keys
        invariant forall m | m in pending :: rows[m] == before[m]
        invariant forall m | m in before.Keys - pending :: rows[m] == Unlinked(before, id, workspace)[m]
        decreases |pending|
      {
        var m :| m in pending;
        if rows[m].workspace == workspace && rows[m].supervisor == Some(id) {
          rows := rows[m := rows[m].(supervisor := None)];
        }
        pending := pending - {m};
      }
    }

    /**
     An UPDATE of role, status and supervisor of one row. The owner guard fires first,
     by name order; then the supervisor guard, whose nested UPDATE is visible to its
     own checks while the new row is not. A refusal rolls the statement back.
     */
    method UpdateRow(id: Id, after: Membership) returns (refusal: Option<Refusal>)
      requires id in rows && after.workspace == rows[id].workspace && after.user == rows[id].user
      modifies this
      ensures refusal == UpdateRefusal(old(rows), id, after)
      ensures rows == if refusal.None? then Updated(old(rows), id, after) else old(rows)
    {
      var saved := rows;
      var before := rows[id];
      if before.role == Owner && before.status == Active && (after.role != Owner || after.status != Active) {
        var raised := LastOwnerGuard(id);
        if raised {
          return Some(LastOwner);
        }
      }
      if before.role == Supervisor && before.status == Active && (after.role != Supervisor || after.status != Active) {
        ClearTeam(id, before.workspace);
      }
      if after.role != Manager && after.supervisor.Some? {
        rows := saved;
        return Some(OnlyManagers);
      }
      if after.supervisor.Some? && !Supervises(rows, after.supervisor.value, after.workspace) {
        rows := saved;
        return Some(BadSupervisor);
      }
      if rows[id] != before {
        // the row was already changed by its own trigger
        rows := saved;
        return Some(RowBusy);
      }
      rows := rows[id := after];
      return None;
    }

    /** A DELETE of one row, followed by the foreign key's SET NULL. */
    method DeleteRow(id: Id) returns (refusal: Option<Refusal>)
      requires id in rows
      modifies this
      ensures refusal == if DeleteRefused(old(rows), id) then Some(LastOwner) else None
      ensures rows == if refusal.None? then Deleted(old(rows), id) else old(rows)
    {
      if rows[id].role == Owner && rows[id].status == Active {
        var raised := LastOwnerGuard(id);
        if raised {
          return Some(LastOwner);
        }
      }
      rows := rows - {id};
      rows := map m | m in rows :: if rows[m].supervisor == Some(id) then rows[m].(supervisor := None) else rows[m];
      return None;
    }

    /** `PostgresStore.Update`: load the row, edit it, write it back, all or nothing. */
    method Update(workspace: Workspace, id: Id, input: UpdateInput) returns (refusal: Option<Refusal>)
      modifies this
      ensures refusal == StoreUpdateRefusal(old(rows), workspace, id, input)
      ensures rows == StoreUpdate(old(rows), workspace, id, input)
    {
      if id !in rows || rows[id].workspace != workspace {
        return Some(MembershipNotFound);
      }
      var current := rows[id];
      if input.role.Some? {
        current := current.(role := input.role.value);
      }
      if input.status.Some? {
        current := current.(status := input.status.value);
      }
      if input.clearSupervisor {
        current := current.(supervisor := None);
      } else if input.supervisor.Some? {
        var valid := Supervises(rows, input.supervisor.value, workspace);
        if !valid {
          return Some(InvalidSupervisor);
        }
        current := current.(supervisor := input.supervisor);
      }
      if current.role != Manager {
        current := current.(supervisor := None);
      }
      refusal := UpdateRow(id, current);
    }

    /** `PostgresStore.Delete`. */
    method Delete(workspace: Workspace, id: Id) returns (refusal: Option<Refusal>)
      modifies this
      ensures refusal == StoreDeleteRefusal(old(rows), workspace, id)
      ensures rows == StoreDelete(old(rows), workspace, id)
    {
      if id !in rows || rows[id].workspace != workspace {
        return Some(MembershipNotFound);
      }
      refusal := DeleteRow(id);
    }
  }
}
