/**
 Uploading a call: store the audio, insert the row, queue it, hand it to the workers, and
 undo on failure. Requests interleave step by step with each other and with the workers,
 and may stop anywhere; every step may be refused or may take effect yet report an error.
 */
module UploadSaga {
  import opened Results
  import opened CallStatus

  type CallId = nat
  type Workspace = nat

  /** The call ID is part of its object key, so different calls never share an object. */
  datatype Key = Key(workspace: Option<Workspace>, call: CallId, nonce: nat, extension: string)

  datatype Outcome = Done | Refused | Ambiguous

  datatype Stage =
    | Putting | Creating | CleaningUp | Queueing | Enqueuing | DroppingRow | DroppingObject
    | Finished(ok: bool)

  // ----- one request, as it sees itself -----

  /** One call's share of the stores: its row, its audio object, its queued task. */
  datatype View = View(stage: Stage, row: Option<Status>, audio: bool, task: bool)

  /** The request takes its next step, or a worker holding its task writes a status. */
  datatype Act = Take(outcome: Outcome) | Work(to: Status)

  const Opened := View(Putting, None, false, false)

  function Next(configured: bool, v: View, a: Act): View {
    match a
    case Take(outcome) => TakeStep(configured, v, outcome)
    case Work(to) =>
      if v.task && v.row.Some? && CanTransition(v.row.value, to) then v.(row := Some(to)) else v
  }

  function TakeStep(configured: bool, v: View, outcome: Outcome): View {
    var effect, ok := outcome != Refused, outcome == Done;
    match v.stage
    case Putting =>
      v.(audio := v.audio || effect, stage := if ok then Creating else Finished(false))
    case Creating =>
      v.(row := if effect then Some(Uploaded) else v.row,
         stage := if !ok then CleaningUp else if configured then Queueing else DroppingRow)
    case CleaningUp => v.(audio := v.audio && !effect, stage := Finished(false))
    case Queueing =>
      v.(row := if effect && v.row.Some? && CanTransition(v.row.value, Queued) then Some(Queued) else v.row,
         stage := if ok then Enqueuing else DroppingRow)
    case Enqueuing => v.(task := v.task || effect, stage := if ok then Finished(true) else DroppingRow)
    case DroppingRow =>
      v.(row := if effect then None else v.row, stage := if ok then DroppingObject else Finished(false))
    case DroppingObject => v.(audio := v.audio && !effect, stage := Finished(false))
    case Finished(_) => v
  }

  function Run(configured: bool, acts: seq<Act>): View {
    if acts == [] then Opened else Next(configured, Run(configured, acts[..|acts| - 1]), acts[|acts| - 1])
  }

  /** What the request's own steps reported, while it was at work. */
  function Outcomes(configured: bool, acts: seq<Act>): seq<Outcome> {
    if acts == [] then [] else
      var before, last := acts[..|acts| - 1], acts[|acts| - 1];
      Outcomes(configured, before)
      + (if last.Take? && !Run(configured, before).stage.Finished? then [last.outcome] else [])
  }

  predicate MissingAudio(v: View) {
    v.row.Some? && !v.audio
  }

  /** The insert committed but reported an error, and the cleanup then removed the audio. */
  predicate Stranding(o: seq<Outcome>) {
    |o| >= 3 && o[0] == Done && o[1] == Ambiguous && o[2] != Refused
  }

  /** How many steps a request with its row in place takes before it starts undoing. */
  function StepsDone(configured: bool, o: seq<Outcome>): nat {
    if !configured then 2 else if |o| > 2 && o[2] != Done then 3 else 4
  }

  /** Nothing took effect, or what did was reported as such and has been removed again. */
  predicate Vanished(configured: bool, o: seq<Outcome>) {
    || (|o| >= 1 && o[0] == Refused)
    || (|o| >= 3 && o[0] == Done && o[1] == Refused && o[2] != Refused)
    || (var at := StepsDone(configured, o);
        |o| >= at + 2 && o[0] == Done && o[1] == Done && o[at] == Done && o[at + 1] != Refused)
  }

  ghost predicate Traced(configured: bool, v: View, o: seq<Outcome>) {
    match v.stage
    case Putting => o == [] && v == Opened
    case Creating => o == [Done] && v == View(Creating, None, true, false)
    case CleaningUp => |o| == 2 && o[0] == Done && o[1] != Done && v.audio && !v.task && (v.row.Some? <==> o[1] == Ambiguous)
    case Queueing => configured && o == [Done, Done] && v == View(Queueing, Some(Uploaded), true, false)
    case Enqueuing => configured && o == [Done, Done, Done] && v == View(Enqueuing, Some(Queued), true, false)
    case DroppingRow =>
      |o| == StepsDone(configured, o) && o[0] == Done && o[1] == Done && v.row.Some? && v.audio
    case DroppingObject =>
      && |o| == StepsDone(configured, o) + 1 && o[0] == Done && o[1] == Done && o[|o| - 1] == Done
      && v.row.None? && v.audio
    case Finished(ok) =>
      && (MissingAudio(v) <==> Stranding(o))
      && (ok ==> v.row.Some? && v.audio && v.task)
      && (!ok ==> ((v.row.None? && !v.audio) <==> Vanished(configured, o)))
  }

  lemma TakeIsTraced(configured: bool, v: View, o: seq<Outcome>, outcome: Outcome)
    requires Traced(configured, v, o) && !v.stage.Finished?
    ensures Traced(configured, Next(configured, v, Take(outcome)), o + [outcome])
  {
  }

  lemma {:induction false} RunIsTraced(configured: bool, acts: seq<Act>)
    ensures Traced(configured, Run(configured, acts), Outcomes(configured, acts))
  {
    if acts != [] {
      var before, last := acts[..|acts| - 1], acts[|acts| - 1];
      RunIsTraced(configured, before);
      if last.Take? && !Run(configured, before).stage.Finished? {
        TakeIsTraced(configured, Run(configured, before), Outcomes(configured, before), last.outcome);
      } else {
        assert Outcomes(configured, acts) == Outcomes(configured, before);
      }
    }
  }

  /**
   Stopped at any point, a request leaves a row without its audio exactly when the insert
   committed but reported an error and the cleanup removed the audio.
   */
  lemma MissingAudioExactly(configured: bool, acts: seq<Act>)
    ensures MissingAudio(Run(configured, acts)) <==> Stranding(Outcomes(configured, acts))
  {
    RunIsTraced(configured, acts);
  }

  /** A request that reports success has its row, its audio and its task, for good. */
  lemma SuccessKeepsEverything(configured: bool, acts: seq<Act>)
    requires Run(configured, acts).stage == Finished(true)
    ensures var v := Run(configured, acts); v.row.Some? && v.audio && v.task
  {
    RunIsTraced(configured, acts);
  }

  /**
   A failed request, whatever a worker did meanwhile, leaves neither row nor audio exactly
   when its undoing works and neither the upload nor the insert took effect behind an
   error: those two are never undone in full.
   */
  lemma FailedRequestLeavesNothingExactly(configured: bool, acts: seq<Act>)
    requires Run(configured, acts).stage == Finished(false)
    ensures var v := Run(configured, acts);
            (v.row.None? && !v.audio) <==> Vanished(configured, Outcomes(configured, acts))
  {
    RunIsTraced(configured, acts);
  }

  /** A request that strands its row: the audio is stored, the insert loses its reply, the audio goes. */
  lemma AStrandedRun(configured: bool)
    ensures MissingAudio(Run(configured, [Take(Done), Take(Ambiguous), Take(Done)]))
  {
    var acts := [Take(Done), Take(Ambiguous), Take(Done)];
    assert acts[..2] == [Take(Done), Take(Ambiguous)] && acts[..2][..1] == [Take(Done)];
    assert Run(configured, acts[..2][..1][..0]) == Opened;
    assert Run(configured, acts[..2][..1]) == View(Creating, None, true, false);
    assert Run(configured, acts[..2]) == View(CleaningUp, Some(Uploaded), true, false);
  }

  // ----- a request that runs to its end -----

  /** How each step of one request fares; every step is taken at most once. */
  datatype Fates = Fates(put: Outcome, create: Outcome, cleanup: Outcome, queue: Outcome,
                         enqueue: Outcome, dropRow: Outcome, dropObject: Outcome)

  function FateOf(f: Fates, stage: Stage): Outcome {
    match stage
    case Putting => f.put
    case Creating => f.create
    case CleaningUp => f.cleanup
    case Queueing => f.queue
    case Enqueuing => f.enqueue
    case DroppingRow => f.dropRow
    case DroppingObject => f.dropObject
    case Finished(_) => Done
  }

  function StepsLeft(stage: Stage): nat {
    match stage
    case Putting => 6
    case Creating => 5
    case Queueing => 4
    case Enqueuing => 3
    case DroppingRow => 2
    case CleaningUp => 1
    case DroppingObject => 1
    case Finished(_) => 0
  }

  function Drive(configured: bool, f: Fates, v: View): View
    decreases StepsLeft(v.stage)
  {
    if v.stage.Finished? then v else Drive(configured, f, Next(configured, v, Take(FateOf(f, v.stage))))
  }

  /** Every request ends, and what it leaves is one of the runs above. */
  lemma {:induction false} DriveIsARun(configured: bool, f: Fates, acts: seq<Act>) returns (more: seq<Act>)
    ensures Drive(configured, f, Run(configured, acts)) == Run(configured, more)
    ensures Run(configured, more).stage.Finished?
    decreases StepsLeft(Run(configured, acts).stage)
  {
    var v := Run(configured, acts);
    more := acts;
    if !v.stage.Finished? {
      var a := Take(FateOf(f, v.stage));
      assert (acts + [a])[..|acts + [a]| - 1] == acts;
      more := DriveIsARun(configured, f, acts + [a]);
    }
  }

  /** What a request that ran to its end leaves behind, by the fate of each step. */
  function Ending(configured: bool, f: Fates): View {
    if f.put != Done then View(Finished(false), None, f.put == Ambiguous, false)
    else if f.create != Done then
      View(Finished(false), if f.create == Ambiguous then Some(Uploaded) else None, f.cleanup == Refused, false)
    else if configured && f.queue == Done && f.enqueue == Done then View(Finished(true), Some(Queued), true, true)
    else View(Finished(false),
              if f.dropRow != Refused then None else Some(if configured && f.queue != Refused then Queued else Uploaded),
              f.dropRow != Done || f.dropObject == Refused,
              configured && f.queue == Done && f.enqueue == Ambiguous)
  }

  lemma UndoingEnds(configured: bool, f: Fates, v: View)
    requires v.stage == DroppingRow && v.audio
    ensures Drive(configured, f, v) == View(Finished(false), if f.dropRow != Refused then None else v.row,
                                            f.dropRow != Done || f.dropObject == Refused, v.task)
  {
    var next := Next(configured, v, Take(f.dropRow));
    assert Drive(configured, f, v) == Drive(configured, f, next);
    if f.dropRow == Done {
      assert Drive(configured, f, next) == Next(configured, next, Take(f.dropObject));
    }
  }

  lemma DriveEnds(configured: bool, f: Fates)
    ensures Drive(configured, f, Opened) == Ending(configured, f)
  {
    var v := Next(configured, Opened, Take(f.put));
    assert Drive(configured, f, Opened) == Drive(configured, f, v);
    if f.put == Done {
      var v2 := Next(configured, v, Take(f.create));
      assert Drive(configured, f, v) == Drive(configured, f, v2);
      if f.create != Done {
        assert Drive(configured, f, v2) == Next(configured, v2, Take(f.cleanup));
      } else if !configured {
        UndoingEnds(configured, f, v2);
      } else {
        var v3 := Next(configured, v2, Take(f.queue));
        assert Drive(configured, f, v2) == Drive(configured, f, v3);
        if f.queue != Done {
          UndoingEnds(configured, f, v3);
        } else {
          var v4 := Next(configured, v3, Take(f.enqueue));
          assert Drive(configured, f, v3) == Drive(configured, f, v4);
          if f.enqueue != Done { UndoingEnds(configured, f, v4); }
        }
      }
    }
  }

  lemma SucceedsExactly(configured: bool, f: Fates)
    ensures Drive(configured, f, Opened).stage == Finished(true) <==>
            configured && f.put == Done && f.create == Done && f.queue == Done && f.enqueue == Done
    ensures Drive(configured, f, Opened).stage == Finished(true) ==>
              Drive(configured, f, Opened) == View(Finished(true), Some(Queued), true, true)
  {
    DriveEnds(configured, f);
  }

  // ----- all requests on shared stores -----

  datatype Request = Request(workspace: Option<Workspace>, nonce: nat, extension: string, configured: bool, stage: Stage)

  datatype Row = Row(workspace: Option<Workspace>, key: Key, status: Status)

  datatype World = World(rows: map<CallId, Row>, objects: set<Key>, tasks: set<CallId>, requests: map<CallId, Request>)

  function KeyOf(call: CallId, r: Request): Key {
    Key(r.workspace, call, r.nonce, r.extension)
  }

  /** The delete is confined to the workspace when the call has one. */
  function WithoutRow(rows: map<CallId, Row>, call: CallId, workspace: Option<Workspace>): map<CallId, Row> {
    if call in rows && (workspace.None? || rows[call].workspace == workspace) then rows - {call} else rows
  }

  /** An undo deletes its own row at most, and never one of another workspace. */
  lemma UndoStaysInItsWorkspace(rows: map<CallId, Row>, call: CallId, workspace: Option<Workspace>, other: CallId)
    requires other in rows
    ensures other !in WithoutRow(rows, call, workspace) <==>
            other == call && (workspace.Some? ==> rows[call].workspace == workspace)
    ensures other in WithoutRow(rows, call, workspace) ==> WithoutRow(rows, call, workspace)[other] == rows[other]
  {
  }

  function WithStatus(rows: map<CallId, Row>, call: CallId, to: Status): map<CallId, Row> {
    if call in rows && CanTransition(rows[call].status, to) then rows[call := rows[call].(status := to)] else rows
  }

  function Effect(w: World, call: CallId, r: Request): World {
    var key := KeyOf(call, r);
    match r.stage
    case Putting => w.(objects := w.objects + {key})
    case Creating => w.(rows := w.rows[call := Row(r.workspace, key, Uploaded)])
    case CleaningUp => w.(objects := w.objects - {key})
    case Queueing => w.(rows := WithStatus(w.rows, call, Queued))
    case Enqueuing => w.(tasks := w.tasks + {call})
    case DroppingRow => w.(rows := WithoutRow(w.rows, call, r.workspace))
    case DroppingObject => w.(objects := w.objects - {key})
    case Finished(_) => w
  }

  function AfterStage(stage: Stage, configured: bool, ok: bool): Stage {
    match stage
    case Putting => if ok then Creating else Finished(false)
    case Creating => if !ok then CleaningUp else if configured then Queueing else DroppingRow
    case Queueing => if ok then Enqueuing else DroppingRow
    case Enqueuing => if ok then Finished(true) else DroppingRow
    case DroppingRow => if ok then DroppingObject else Finished(false)
    case CleaningUp => Finished(false)
    case DroppingObject => Finished(false)
    case Finished(_) => stage
  }

  /** One step of one request, or one status write by a worker holding its task. */
  function Apply(w: World, call: CallId, a: Act): World {
    match a
    case Take(outcome) =>
      if call !in w.requests then w else
        var r := w.requests[call];
        var effected := if outcome == Refused then w else Effect(w, call, r);
        effected.(requests := w.requests[call := r.(stage := AfterStage(r.stage, r.configured, outcome == Done))])
    case Work(to) =>
      if call in w.tasks then w.(rows := WithStatus(w.rows, call, to)) else w
  }

  datatype Event = Event(call: CallId, act: Act)

  function RunAll(w: World, events: seq<Event>): World {
    if events == [] then w
    else Apply(RunAll(w, events[..|events| - 1]), events[|events| - 1].call, events[|events| - 1].act)
  }

  function ActsOf(events: seq<Event>, call: CallId): seq<Act> {
    if events == [] then [] else
      ActsOf(events[..|events| - 1], call)
      + (if events[|events| - 1].call == call then [events[|events| - 1].act] else [])
  }

  function ViewOf(w: World, call: CallId): View
    requires call in w.requests
  {
    View(w.requests[call].stage,
         if call in w.rows then Some(w.rows[call].status) else None,
         KeyOf(call, w.requests[call]) in w.objects,
         call in w.tasks)
  }

  /** The row of a request carries its workspace and names its own object. */
  ghost predicate RowsBelong(w: World) {
    forall call | call in w.requests && call in w.rows ::
      w.rows[call].workspace == w.requests[call].workspace && w.rows[call].key == KeyOf(call, w.requests[call])
  }

  lemma StepKeepsRows(w: World, call: CallId, a: Act)
    requires RowsBelong(w)
    ensures RowsBelong(Apply(w, call, a))
  {
  }

  lemma OwnStep(w: World, call: CallId, a: Act)
    requires RowsBelong(w) && call in w.requests
    ensures var w' := Apply(w, call, a);
            && call in w'.requests && w'.requests[call].configured == w.requests[call].configured
            && ViewOf(w', call) == Next(w.requests[call].configured, ViewOf(w, call), a)
  {
    if a.Take? { OwnTake(w, call, a.outcome); }
  }

  lemma OwnTake(w: World, call: CallId, outcome: Outcome)
    requires RowsBelong(w) && call in w.requests
    ensures var w' := Apply(w, call, Take(outcome));
            && call in w'.requests && w'.requests[call].configured == w.requests[call].configured
            && ViewOf(w', call) == TakeStep(w.requests[call].configured, ViewOf(w, call), outcome)
  {
    var r := w.requests[call];
    match r.stage
    case Creating =>
    case DroppingRow => assert call in w.rows ==> w.rows[call].workspace == r.workspace;
    case Queueing =>
    case _ =>
  }

  lemma OthersStep(w: World, call: CallId, a: Act, other: CallId)
    requires other in w.requests && other != call
    ensures var w' := Apply(w, call, a);
            other in w'.requests && w'.requests[other] == w.requests[other] && ViewOf(w', other) == ViewOf(w, other)
  {
  }

  /** A request has opened: nothing of it is stored yet. */
  predicate Fresh(w: World, call: CallId) {
    call in w.requests && ViewOf(w, call) == Opened
  }

  /**
   However requests and workers interleave, each request sees exactly the run of its own
   steps and its own worker's writes: nobody else's failure or undoing reaches its call.
   */
  lemma {:induction false} EachRequestRunsAlone(w: World, events: seq<Event>, call: CallId)
    requires RowsBelong(w) && Fresh(w, call)
    ensures var w' := RunAll(w, events);
            && RowsBelong(w') && call in w'.requests
            && w'.requests[call].configured == w.requests[call].configured
            && ViewOf(w', call) == Run(w.requests[call].configured, ActsOf(events, call))
  {
    if events != [] {
      var before, e := events[..|events| - 1], events[|events| - 1];
      EachRequestRunsAlone(w, before, call);
      StepKeepsRows(RunAll(w, before), e.call, e.act);
      var acts, acts' := ActsOf(before, call), ActsOf(events, call);
      if e.call == call {
        OwnStep(RunAll(w, before), call, e.act);
        assert acts' == acts + [e.act] && acts'[..|acts'| - 1] == acts;
      } else {
        OthersStep(RunAll(w, before), e.call, e.act, call);
        assert acts' == acts;
      }
    }
  }

  /** Over every interleaving, which calls are left without audio is decided by their own outcomes. */
  lemma MissingAudioEverywhere(w: World, events: seq<Event>, call: CallId)
    requires RowsBelong(w) && Fresh(w, call)
    ensures var w' := RunAll(w, events);
            call in w'.requests
            && (call in w'.rows ==> w'.rows[call].key == KeyOf(call, w'.requests[call]))
            && ((call in w'.rows && w'.rows[call].key !in w'.objects)
                <==> Stranding(Outcomes(w.requests[call].configured, ActsOf(events, call))))
  {
    EachRequestRunsAlone(w, events, call);
    MissingAudioExactly(w.requests[call].configured, ActsOf(events, call));
  }

  /** And what a failed request leaves behind is decided by its own outcomes, too. */
  lemma FailedRequestsEverywhere(w: World, events: seq<Event>, call: CallId)
    requires RowsBelong(w) && Fresh(w, call)
    ensures var w' := RunAll(w, events);
            call in w'.requests
            && (w'.requests[call].stage == Finished(false) ==>
                  ((call !in w'.rows && KeyOf(call, w'.requests[call]) !in w'.objects) <==>
                   Vanished(w.requests[call].configured, Outcomes(w.requests[call].configured, ActsOf(events, call)))))
  {
    EachRequestRunsAlone(w, events, call);
    if RunAll(w, events).requests[call].stage == Finished(false) {
      FailedRequestLeavesNothingExactly(w.requests[call].configured, ActsOf(events, call));
    }
  }

  // ----- the service -----

  class UploadService {
    var rows: map<CallId, Row>
    var objects: set<Key>
    var tasks: set<CallId>

    constructor ()
      ensures rows == map[] && objects == {} && tasks == {}
    {
      rows, objects, tasks := map[], {}, {};
    }

    /** This call's share of the stores. */
    function Share(stage: Stage, call: CallId, key: Key): View
      reads this
    {
      View(stage, if call in rows then Some(rows[call].status) else None, key in objects, call in tasks)
    }

    method Put(key: Key, fate: Outcome) returns (ok: bool)
      modifies this`objects
      ensures ok == (fate == Done)
      ensures objects == if fate == Refused then old(objects) else old(objects) + {key}
    {
      if fate != Refused {
        objects := objects + {key};
      }
      return fate == Done;
    }

    method DeleteObject(key: Key, fate: Outcome) returns (ok: bool)
      modifies this`objects
      ensures ok == (fate == Done)
      ensures objects == if fate == Refused then old(objects) else old(objects) - {key}
    {
      if fate != Refused {
        objects := objects - {key};
      }
      return fate == Done;
    }

    /** `Service.Create`: audio first, then the row; a failed insert removes the audio. */
    method Create(call: CallId, workspace: Option<Workspace>, key: Key, f: Fates) returns (ok: bool)
      requires call !in rows
      modifies this`rows, this`objects
      ensures ok <==> f.put == Done && f.create == Done
      ensures rows == if f.put == Done && f.create != Refused
                      then old(rows)[call := Row(workspace, key, Uploaded)] else old(rows)
      ensures objects == if f.put == Refused then old(objects)
                         else if f.put == Done && f.create != Done && f.cleanup != Refused then old(objects) - {key}
                         else old(objects) + {key}
    {
      var stored := Put(key, f.put);
      if !stored {
        return false;
      }
      if f.create != Refused {
        rows := rows[call := Row(workspace, key, Uploaded)];
      }
      if f.create != Done {
        var cleaned := DeleteObject(key, f.cleanup);
        return false;
      }
      return true;
    }

    /** `Service.Queue`: read the row, then compare and set its status. */
    method Queue(call: CallId, fate: Outcome) returns (ok: bool)
      requires call in rows
      modifies this`rows
      ensures ok <==> fate == Done && (old(rows)[call].status == Queued || CanTransition(old(rows)[call].status, Queued))
      ensures rows == if fate == Refused then old(rows) else WithStatus(old(rows), call, Queued)
    {
      var status := rows[call].status;
      if fate == Refused {
        return false;
      }
      if status == Queued {
        return fate == Done;
      }
      if !CanTransition(status, Queued) {
        return false;
      }
      rows := rows[call := rows[call].(status := Queued)];
      return fate == Done;
    }

    /** `Service.RollbackCreate`: the row first; its audio only once the row is gone. */
    method RollbackCreate(call: CallId, workspace: Option<Workspace>, key: Key, f: Fates)
      modifies this`rows, this`objects
      ensures rows == if f.dropRow == Refused then old(rows) else WithoutRow(old(rows), call, workspace)
      ensures objects == if f.dropRow == Done && f.dropObject != Refused then old(objects) - {key} else old(objects)
    {
      if f.dropRow != Refused && call in rows && (workspace.None? || rows[call].workspace == workspace) {
        rows := rows - {call};
      }
      if f.dropRow != Done {
        return;
      }
      var dropped := DeleteObject(key, f.dropObject);
    }

    /** `createCall`, from the upload to the response. */
    method CreateCall(call: CallId, workspace: Option<Workspace>, key: Key, configured: bool, f: Fates) returns (ok: bool)
      requires call !in rows && key !in objects && call !in tasks
      modifies this
      ensures Share(Finished(ok), call, key) == Drive(configured, f, Opened)
      ensures rows - {call} == old(rows) && objects - {key} == old(objects) && tasks - {call} == old(tasks)
      ensures call in rows ==> rows[call].workspace == workspace && rows[call].key == key
    {
      DriveEnds(configured, f);
      var created := Create(call, workspace, key, f);
      if !created {
        return false;
      }
      if !configured {
        RollbackCreate(call, workspace, key, f);
        return false;
      }
      var queued := Queue(call, f.queue);
      if !queued {
        RollbackCreate(call, workspace, key, f);
        return false;
      }
      if f.enqueue != Refused {
        tasks := tasks + {call};
      }
      if f.enqueue != Done {
        RollbackCreate(call, workspace, key, f);
        return false;
      }
      return true;
    }
  }
}
