/**
 The playbook store's default flag: two-statement transactions that move it, a logical
 delete that drops it, and the service's updates, which read a playbook in one step and
 write the edited copy back in a later one.
 */
module PlaybookDefaults {
  import opened Results

  type Id = nat
  type Workspace = nat

  /** `body` stands for the name, description and criteria. */
  datatype Row = Row(workspace: Workspace, body: nat, isDefault: bool, deleted: bool, created: nat)

  type Table = map<Id, Row>

  predicate Listed(t: Table, workspace: Workspace, id: Id) {
    id in t && t[id].workspace == workspace && !t[id].deleted
  }

  predicate IsDefaultOf(t: Table, workspace: Workspace, id: Id) {
    Listed(t, workspace, id) && t[id].isDefault
  }

  function Cleared(t: Table, workspace: Workspace, but: Option<Id>): Table {
    map id | id in t :: if Listed(t, workspace, id) && but != Some(id) then t[id].(isDefault := false) else t[id]
  }

  function Created(t: Table, id: Id, workspace: Workspace, body: nat, isDefault: bool, now: nat): Table {
    (if isDefault then Cleared(t, workspace, None) else t)[id := Row(workspace, body, isDefault, false, now)]
  }

  function Updated(t: Table, id: Id, workspace: Workspace, body: nat, isDefault: bool): Table {
    if !Listed(t, workspace, id) then t else
      (if isDefault then Cleared(t, workspace, Some(id)) else t)[id := t[id].(body := body, isDefault := isDefault)]
  }

  function Deleted(t: Table, id: Id, workspace: Workspace): Table {
    if Listed(t, workspace, id) then t[id := t[id].(deleted := true, isDefault := false)] else t
  }

  // ----- interleaved service steps -----

  /** `drafts` holds the playbooks read by updates that have not written back yet. */
  datatype State = State(rows: Table, drafts: map<nat, (Id, Row)>)

  datatype Event =
    | Create(id: Id, workspace: Workspace, body: nat, isDefault: bool, now: nat)
    | Read(request: nat, workspace: Workspace, id: Id)
    | Write(request: nat, newBody: Option<nat>, newDefault: Option<bool>)
    | Delete(id: Id, workspace: Workspace)

  function Or<T>(o: Option<T>, default: T): T {
    if o.Some? then o.value else default
  }

  function Apply(s: State, e: Event): State {
    match e
    case Create(id, workspace, body, isDefault, now) =>
      if id in s.rows then s else s.(rows := Created(s.rows, id, workspace, body, isDefault, now))
    case Read(request, workspace, id) =>
      if Listed(s.rows, workspace, id) then s.(drafts := s.drafts[request := (id, s.rows[id])]) else s
    case Write(request, body, isDefault) =>
      if request !in s.drafts then s else
        var (id, draft) := s.drafts[request];
        State(Updated(s.rows, id, draft.workspace, Or(body, draft.body), Or(isDefault, draft.isDefault)), s.drafts - {request})
    case Delete(id, workspace) => s.(rows := Deleted(s.rows, id, workspace))
  }

  ghost function Run(s: State, events: seq<Event>): State
    decreases |events|
  {
    if events == [] then s else Run(Apply(s, events[0]), events[1..])
  }

  /** What the unique index of migration 7 demands. */
  ghost predicate OneDefault(t: Table) {
    forall w, id, other | IsDefaultOf(t, w, id) && IsDefaultOf(t, w, other) :: id == other
  }

  // ----- what the statements write -----

  /** A create writes its row as given; other rows change at most by losing the flag, in that workspace. */
  lemma CreateWritesExactly(t: Table, id: Id, workspace: Workspace, body: nat, isDefault: bool, now: nat, other: Id)
    requires id !in t
    ensures var t' := Created(t, id, workspace, body, isDefault, now);
            && t'.Keys == t.Keys + {id} && t'[id] == Row(workspace, body, isDefault, false, now)
            && (other in t ==>
                  t'[other] == t[other].(isDefault := t[other].isDefault
                                           && !(isDefault && t[other].workspace == workspace && !t[other].deleted)))
  {
  }

  /**
   An update writes the body and the flag of a live playbook of the workspace, and keeps the
   rest of it; other rows change at most by losing the flag; without such a playbook nothing changes.
   */
  lemma UpdateWritesExactly(t: Table, id: Id, workspace: Workspace, body: nat, isDefault: bool, other: Id)
    ensures var t' := Updated(t, id, workspace, body, isDefault);
            && t'.Keys == t.Keys
            && (!(id in t && t[id].workspace == workspace && !t[id].deleted) ==> t' == t)
            && (id in t && t[id].workspace == workspace && !t[id].deleted ==>
                  && t'[id].body == body && t'[id].isDefault == isDefault
                  && t'[id].workspace == workspace && !t'[id].deleted && t'[id].created == t[id].created
                  && (other in t && other != id ==>
                        t'[other] == t[other].(isDefault := t[other].isDefault
                                                 && !(isDefault && t[other].workspace == workspace && !t[other].deleted))))
  {
  }

  /** The write of an edit: the new body and flag where the request names them, the ones read otherwise. */
  lemma EditWritesExactly(s: State, request: nat, newBody: Option<nat>, newDefault: Option<bool>)
    requires request in s.drafts
    ensures var (id, draft) := s.drafts[request];
            var s' := Apply(s, Write(request, newBody, newDefault));
            && request !in s'.drafts
            && (Listed(s.rows, draft.workspace, id) ==>
                  && s'.rows[id].body == (match newBody case Some(b) => b case None => draft.body)
                  && s'.rows[id].isDefault == (match newDefault case Some(f) => f case None => draft.isDefault))
  {
  }

  /** A delete marks the row and drops its flag; the row and all others stay otherwise as they are. */
  lemma DeleteWritesExactly(t: Table, id: Id, workspace: Workspace)
    ensures var t' := Deleted(t, id, workspace);
            && t'.Keys == t.Keys
            && (forall other | other in t && other != id :: t'[other] == t[other])
            && (id in t ==> t'[id] == if t[id].workspace == workspace && !t[id].deleted
                                      then t[id].(deleted := true, isDefault := false) else t[id])
  {
  }

  // ----- which playbook a workspace's calls are scored with -----

  /** First by flag, then by age: the row `GetDefault` takes. */
  predicate IsFirst(t: Table, workspace: Workspace, id: Id) {
    && Listed(t, workspace, id)
    && forall other | other in t && Listed(t, workspace, other) ::
         if t[id].isDefault == t[other].isDefault then t[id].created <= t[other].created else t[id].isDefault
  }

  lemma {:induction false} SomeRowIsFirst(t: Table, rows: set<Id>) returns (first: Id)
    requires rows != {} && rows <= t.Keys
    ensures first in rows && first in t
    ensures forall other | other in rows ::
              if t[first].isDefault == t[other].isDefault then t[first].created <= t[other].created else t[first].isDefault
    decreases |rows|
  {
    first :| first in rows;
    if rows != {first} {
      var rest := SomeRowIsFirst(t, rows - {first});
      if if t[rest].isDefault == t[first].isDefault then t[rest].created < t[first].created else t[rest].isDefault {
        first := rest;
      }
    }
  }

  lemma FirstExists(t: Table, workspace: Workspace)
    requires exists id :: Listed(t, workspace, id)
    ensures exists id :: IsFirst(t, workspace, id)
  {
    var rows := set id | id in t && Listed(t, workspace, id);
    var some :| Listed(t, workspace, some);
    assert some in rows;
    var first := SomeRowIsFirst(t, rows);
    assert IsFirst(t, workspace, first);
  }

  /** With at most one default, the playbook taken is that default if there is one, and else an earliest live one. */
  lemma DefaultIsTaken(t: Table, workspace: Workspace, id: Id)
    requires OneDefault(t) && IsFirst(t, workspace, id)
    ensures forall other | IsDefaultOf(t, workspace, other) :: id == other
    ensures (forall other :: !IsDefaultOf(t, workspace, other)) ==>
              forall other | other in t && Listed(t, workspace, other) :: t[id].created <= t[other].created
  {
    forall other | IsDefaultOf(t, workspace, other) ensures id == other {
      assert t[id].isDefault && IsDefaultOf(t, workspace, id);
    }
    if forall other :: !IsDefaultOf(t, workspace, other) {
      forall other | other in t && Listed(t, workspace, other) ensures t[id].created <= t[other].created {
        assert !IsDefaultOf(t, workspace, id) && !IsDefaultOf(t, workspace, other);
      }
    }
  }

  // ----- whose the default is -----

  ghost function Defaults(t: Table, workspace: Workspace): set<Id> {
    set id | id in t && IsDefaultOf(t, workspace, id)
  }

  /** After a create or a successful update, the default is the row just written or nothing new. */
  lemma CreatedDefaults(t: Table, id: Id, workspace: Workspace, body: nat, isDefault: bool, now: nat, w: Workspace)
    requires id !in t
    ensures Defaults(Created(t, id, workspace, body, isDefault, now), w) ==
            if isDefault && w == workspace then {id} else Defaults(t, w)
  {
  }

  lemma UpdatedDefaults(t: Table, id: Id, workspace: Workspace, body: nat, isDefault: bool, w: Workspace)
    ensures Defaults(Updated(t, id, workspace, body, isDefault), w) ==
            if !Listed(t, workspace, id) || w != workspace then Defaults(t, w)
            else if isDefault then {id} else Defaults(t, w) - {id}
  {
  }

  lemma DeletedDefaults(t: Table, id: Id, workspace: Workspace, w: Workspace)
    ensures Defaults(Deleted(t, id, workspace), w) == if w == workspace then Defaults(t, w) - {id} else Defaults(t, w)
  {
  }

  lemma StepKeepsOneDefault(s: State, e: Event)
    requires OneDefault(s.rows)
    ensures OneDefault(Apply(s, e).rows)
  {
    var t, t' := s.rows, Apply(s, e).rows;
    forall w, id, other | IsDefaultOf(t', w, id) && IsDefaultOf(t', w, other) ensures id == other {
      assert id in Defaults(t', w) && other in Defaults(t', w);
      match e
      case Create(new', workspace, body, isDefault, now) =>
        if new' !in t { CreatedDefaults(t, new', workspace, body, isDefault, now, w); }
      case Read(_, _, _) =>
      case Write(request, body, isDefault) =>
        if request in s.drafts {
          var (target, draft) := s.drafts[request];
          UpdatedDefaults(t, target, draft.workspace, Or(body, draft.body), Or(isDefault, draft.isDefault), w);
        }
      case Delete(target, workspace) => DeletedDefaults(t, target, workspace, w);
    }
  }

  /**
   At most one live default in every workspace, over every interleaving, so the unique
   index never refuses a statement, not even the write of a draft read before the flag moved.
   */
  lemma {:induction false} EveryRunKeepsOneDefault(s: State, events: seq<Event>)
    requires OneDefault(s.rows)
    ensures OneDefault(Run(s, events).rows)
    decreases |events|
  {
    if events != [] {
      StepKeepsOneDefault(s, events[0]);
      EveryRunKeepsOneDefault(Apply(s, events[0]), events[1..]);
    }
  }

  /**
   An update that does not name the flag, exactly: it moves no default if and only if its
   playbook is gone or still has the flag it had when the update read it.
   */
  lemma RenameKeepsDefaultsExactly(s: State, request: nat, name: Option<nat>, w: Workspace)
    requires OneDefault(s.rows) && request in s.drafts
    ensures var (id, draft) := s.drafts[request];
            Defaults(Apply(s, Write(request, name, None)).rows, w) == Defaults(s.rows, w) <==>
            (w == draft.workspace && Listed(s.rows, w, id) ==> draft.isDefault == s.rows[id].isDefault)
  {
    var (id, draft) := s.drafts[request];
    UpdatedDefaults(s.rows, id, draft.workspace, Or(name, draft.body), draft.isDefault, w);
    if w == draft.workspace && Listed(s.rows, w, id) && s.rows[id].isDefault {
      assert forall other | other in Defaults(s.rows, w) :: IsDefaultOf(s.rows, w, other) && IsDefaultOf(s.rows, w, id);
    }
  }

  /**
   A stale draft takes the default back: a rename that read its playbook while it was the
   default moves the flag from the playbook made default since.
   */
  lemma StaleRenameTakesTheDefaultBack(t: Table, workspace: Workspace, old': Id, new': Id, body: nat, name: nat, now: nat)
    requires OneDefault(t) && IsDefaultOf(t, workspace, old') && new' !in t
    ensures var s := Run(State(t, map[]), [Read(0, workspace, old'), Create(new', workspace, body, true, now)]);
            && Defaults(s.rows, workspace) == {new'}
            && Defaults(Apply(s, Write(0, Some(name), None)).rows, workspace) == {old'}
  {
    var e0, e1 := Read(0, workspace, old'), Create(new', workspace, body, true, now);
    var s1 := Apply(State(t, map[]), e0);
    var s := Apply(s1, e1);
    assert [e0, e1][1..] == [e1] && [e1][1..] == [];
    assert Run(State(t, map[]), [e0, e1]) == Run(s1, [e1]) == Run(s, []) == s;
    CreatedDefaults(t, new', workspace, body, true, now, workspace);
    UpdatedDefaults(s.rows, old', workspace, name, true, workspace);
  }

  // ----- the store -----

  class PlaybookStore {
    var rows: Table

    constructor ()
      ensures rows == map[]
    {
      rows := map[];
    }

    /** `GetDefault`: one query, ordered by the flag and the age. */
    method GetDefault(workspace: Workspace) returns (found: Option<Id>)
      ensures found.None? <==> forall id :: !Listed(rows, workspace, id)
      ensures found.Some? ==> IsFirst(rows, workspace, found.value)
    {
      if forall id | id in rows :: !Listed(rows, workspace, id) {
        return None;
      }
      FirstExists(rows, workspace);
      var id :| id in rows && IsFirst(rows, workspace, id);
      return Some(id);
    }

    /** `GetByID`: a live playbook of that workspace, or none. */
    method GetByID(workspace: Workspace, id: Id) returns (found: Option<Row>)
      ensures found.Some? <==> id in rows && rows[id].workspace == workspace && !rows[id].deleted
      ensures found.Some? ==> found.value == rows[id]
    {
      return if Listed(rows, workspace, id) then Some(rows[id]) else None;
    }

    /**
     The lookup before an analysis: the call's own playbook if it names one, else the default
     of the delivery's workspace. A playbook of another workspace, a deleted one, and any
     without a workspace are not found.
     */
    method LookUp(workspace: Option<Workspace>, playbook: Option<Id>) returns (found: Option<Id>)
      ensures workspace.None? ==> found.None?
      ensures workspace.Some? && playbook.Some? ==>
                (found == playbook <==> Listed(rows, workspace.value, playbook.value)) && (found == playbook || found.None?)
      ensures workspace.Some? && playbook.None? && found.Some? ==> IsFirst(rows, workspace.value, found.value)
      ensures workspace.Some? && playbook.None? && found.None? ==> forall id :: !Listed(rows, workspace.value, id)
    {
      if workspace.None? {
        return None;
      }
      if playbook.Some? {
        var row := GetByID(workspace.value, playbook.value);
        return if row.Some? then playbook else None;
      }
      found := GetDefault(workspace.value);
    }

    /** The clearing statement, row by row. */
    method Clear(workspace: Workspace, but: Option<Id>)
      modifies this
      ensures rows == Cleared(old(rows), workspace, but)
    {
      ghost var before := rows;
      var pending := rows.Keys;
      while pending != {}
        invariant pending <= before.Keys && rows.Keys == before.Keys
        invariant forall id | id in pending :: rows[id] == before[id]
        invariant forall id | id in before.Keys - pending :: rows[id] == Cleared(before, workspace, but)[id]
        decreases |pending|
      {
        var id :| id in pending;
        if rows[id].workspace == workspace && !rows[id].deleted && but != Some(id) {
          rows := rows[id := rows[id].(isDefault := false)];
        }
        pending := pending - {id};
      }
    }

    /** `Create`: `refused` is an insert the table's other checks reject; it rolls everything back. */
    method Create(id: Id, workspace: Workspace, body: nat, isDefault: bool, now: nat, refused: bool) returns (ok: bool)
      requires id !in rows
      modifies this
      ensures ok == !refused
      ensures rows == if ok then Created(old(rows), id, workspace, body, isDefault, now) else old(rows)
    {
      var saved := rows;
      if isDefault {
        Clear(workspace, None);
      }
      if refused {
        rows := saved;
        return false;
      }
      rows := rows[id := Row(workspace, body, isDefault, false, now)];
      return true;
    }

    /** `Update`: an update that finds no live row must not leave the defaults cleared. */
    method Update(id: Id, workspace: Workspace, body: nat, isDefault: bool, refused: bool) returns (ok: bool)
      modifies this
      ensures ok <==> Listed(old(rows), workspace, id) && !refused
      ensures rows == if ok then Updated(old(rows), id, workspace, body, isDefault) else old(rows)
    {
      var saved := rows;
      if isDefault {
        Clear(workspace, Some(id));
      }
      if refused || !(id in rows && rows[id].workspace == workspace && !rows[id].deleted) {
        rows := saved;
        return false;
      }
      rows := rows[id := rows[id].(body := body, isDefault := isDefault)];
      return true;
    }

    /** `Delete`. */
    method Delete(id: Id, workspace: Workspace) returns (ok: bool)
      modifies this
      ensures ok <==> Listed(old(rows), workspace, id)
      ensures rows == Deleted(old(rows), id, workspace)
    {
      if !(id in rows && rows[id].workspace == workspace && !rows[id].deleted) {
        return false;
      }
      rows := rows[id := rows[id].(deleted := true, isDefault := false)];
      return true;
    }
  }
}
