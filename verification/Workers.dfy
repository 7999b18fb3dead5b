/**
 Any number of worker processes and the API on one database. Deliveries interleave
 operation by operation, each with its own possibly stale idea of the status; rows
 are created, queued and deleted underneath them; any delivery may crash anywhere.
 */
module Workers {
  import opened Results
  import opened CallStatus
  import opened Analysis
  import opened Pipeline

  type WorkerId = nat

  /** `used` remembers every call ID ever issued: IDs are fresh, so a deleted call stays deleted. */
  datatype State = State(rows: map<CallId, Row>, used: set<CallId>, workers: map<WorkerId, Worker>)

  datatype Event =
    | Create(call: CallId, home: Workspace)
    | Queue(call: CallId)
    | Delete(call: CallId)
    | Deliver(worker: WorkerId, target: CallId, workspace: Option<Workspace>)
    | Act(worker: WorkerId, reply: Reply)
    | Crash(worker: WorkerId)

  function RowAt(s: State, call: CallId): Option<Row> {
    if call in s.rows then Some(s.rows[call]) else None
  }

  function WithRow(rows: map<CallId, Row>, call: CallId, row: Option<Row>): map<CallId, Row> {
    if row.Some? then rows[call := row.value] else rows
  }

  function FreshRow(home: Workspace): Row {
    Row(home, Uploaded, None, None, None)
  }

  /** The committed effect of the API's `Queue`: uploaded and failed calls become queued. */
  function QueuedRow(row: Row): Row {
    if CanTransition(row.status, Queued) then row.(status := Queued, error := None) else row
  }

  predicate Enabled(s: State, e: Event) {
    match e
    case Create(call, _) => call !in s.used
    case Queue(call) => call in s.rows
    case Delete(call) => true
    case Deliver(w, _, _) => w !in s.workers
    case Act(w, _) => w in s.workers
    case Crash(w) => w in s.workers
  }

  function Apply(s: State, e: Event): State
    requires Enabled(s, e)
  {
    match e
    case Create(call, home) => s.(rows := s.rows[call := FreshRow(home)], used := s.used + {call})
    case Queue(call) => s.(rows := s.rows[call := QueuedRow(s.rows[call])])
    case Delete(call) => s.(rows := s.rows - {call})
    case Deliver(w, call, workspace) => s.(workers := s.workers[w := Worker(call, workspace, Start)])
    case Act(w, reply) =>
      var worker := s.workers[w];
      var row := RowAt(s, worker.call);
      var next := Next(row, worker, reply);
      s.(rows := WithRow(s.rows, worker.call, next.0), workers := s.workers[w := next.1])
    case Crash(w) => s.(workers := s.workers - {w})
  }

  ghost predicate Inv(s: State) {
    && s.rows.Keys <= s.used
    && (forall c | c in s.rows :: RowInv(s.rows[c]))
    && (forall w | w in s.workers ::
          && PointInv(RowAt(s, s.workers[w].call), s.workers[w].at)
          && (Unloaded(s.workers[w].at) || s.workers[w].call in s.used))
  }

  const Init := State(map[], {}, map[])

  /** An operation changes its own call's row and no other, and neither makes nor deletes one. */
  lemma ActTouchesOneRow(s: State, w: WorkerId, reply: Reply)
    requires w in s.workers
    ensures var worker := s.workers[w];
            var s' := Apply(s, Act(w, reply));
            && RowAt(s', worker.call) == NextRow(RowAt(s, worker.call), worker, reply)
            && (forall c | c != worker.call :: RowAt(s', c) == RowAt(s, c))
            && s'.rows.Keys == s.rows.Keys
  {
    var worker := s.workers[w];
    assert NextRow(RowAt(s, worker.call), worker, reply).Some? <==> worker.call in s.rows;
  }

  lemma LoadedCallsAreKnown(s: State, w: WorkerId, reply: Reply)
    requires w in s.workers && s.rows.Keys <= s.used
    requires Unloaded(s.workers[w].at) || s.workers[w].call in s.used
    ensures var worker := s.workers[w];
            Unloaded(NextPoint(RowAt(s, worker.call), worker, reply)) || worker.call in s.used
  {
  }

  lemma RowEvolves(s: State, e: Event, c: CallId)
    requires Inv(s) && Enabled(s, e)
    ensures MaybeRow(RowAt(Apply(s, e), c))
    ensures c in s.used ==> Evolves(RowAt(s, c), RowAt(Apply(s, e), c))
    ensures c in Apply(s, e).rows ==> c in Apply(s, e).used
  {
    if e.Act? {
      var worker := s.workers[e.worker];
      OperationIsSound(RowAt(s, worker.call), worker, e.reply);
      ActTouchesOneRow(s, e.worker, e.reply);
    }
  }

  lemma WorkerIsKept(s: State, e: Event, w: WorkerId)
    requires Inv(s) && Enabled(s, e) && w in Apply(s, e).workers
    ensures var worker := Apply(s, e).workers[w];
            && PointInv(RowAt(Apply(s, e), worker.call), worker.at)
            && (Unloaded(worker.at) || worker.call in Apply(s, e).used)
  {
    var s' := Apply(s, e);
    if e.Act? && e.worker == w {
      var worker := s.workers[w];
      OperationIsSound(RowAt(s, worker.call), worker, e.reply);
      ActTouchesOneRow(s, w, e.reply);
      LoadedCallsAreKnown(s, w, e.reply);
    } else if w in s.workers {
      var worker := s.workers[w];
      if worker.call in s.used {
        RowEvolves(s, e, worker.call);
        PointInvIsStable(RowAt(s, worker.call), RowAt(s', worker.call), worker.at);
      }
    }
  }

  /** One event of anybody keeps the invariant, and moves every issued row along `Evolves`. */
  lemma StepKeepsInv(s: State, e: Event)
    requires Inv(s) && Enabled(s, e)
    ensures Inv(Apply(s, e)) && s.used <= Apply(s, e).used
    ensures forall c | c in s.used :: Evolves(RowAt(s, c), RowAt(Apply(s, e), c))
  {
    var s' := Apply(s, e);
    forall c ensures MaybeRow(RowAt(s', c)) && (c in s.used ==> Evolves(RowAt(s, c), RowAt(s', c))) && (c in s'.rows ==> c in s'.used) {
      RowEvolves(s, e, c);
    }
    forall w | w in s'.workers
      ensures PointInv(RowAt(s', s'.workers[w].call), s'.workers[w].at)
      ensures Unloaded(s'.workers[w].at) || s'.workers[w].call in s'.used
    {
      WorkerIsKept(s, e, w);
    }
    assert forall c | c in s'.rows :: RowAt(s', c) == Some(s'.rows[c]);
  }

  ghost predicate Run(s: State, events: seq<Event>, end: State)
    decreases |events|
  {
    if events == [] then s == end
    else Enabled(s, events[0]) && Run(Apply(s, events[0]), events[1..], end)
  }

  lemma {:induction false} RunKeepsInv(s: State, events: seq<Event>, end: State)
    requires Inv(s) && Run(s, events, end)
    ensures Inv(end) && s.used <= end.used
    decreases |events|
  {
    if events != [] {
      StepKeepsInv(s, events[0]);
      RunKeepsInv(Apply(s, events[0]), events[1..], end);
    }
  }

  /**
   Safety over every run of any number of processes: past transcription a transcript
   is stored; a completed call has its transcript, analysis and storable score; a call
   carries one of the three failure messages exactly while it is failed; and a
   delivery that returned nil has left its call completed, unless the row was deleted.
   */
  lemma EveryReachableStateIsSafe(events: seq<Event>, end: State, c: CallId, w: WorkerId)
    requires Run(Init, events, end)
    ensures c in end.rows ==>
              var row := end.rows[c];
              && (row.status.Transcribed? || row.status.Analyzing? || row.status.Completed? ==> row.transcript.Some?)
              && (row.status.Completed? ==> row.result.Some? && Storable(row.result.value.score))
              && (row.error.Some? <==> row.status.Failed?)
              && (row.error.Some? ==> FailureMessage(row.error.value))
    ensures w in end.workers && end.workers[w].at == Done(Finished) && end.workers[w].call in end.rows ==>
              end.rows[end.workers[w].call].status == Completed
  {
    RunKeepsInv(Init, events, end);
    if c in end.rows && end.rows[c].status.Completed? {
      assert RowInv(end.rows[c]);
    }
  }

  /** Completed is absorbing: nothing but deletion ever takes a call out of it. */
  lemma {:induction false} CompletedIsAbsorbing(s: State, events: seq<Event>, end: State, c: CallId)
    requires Inv(s) && Run(s, events, end) && c in s.rows && s.rows[c].status == Completed
    ensures c in end.rows ==> end.rows[c].status == Completed && end.rows[c].workspace == s.rows[c].workspace
    decreases |events|
  {
    if events != [] {
      var s' := Apply(s, events[0]);
      StepKeepsInv(s, events[0]);
      assert Evolves(RowAt(s, c), RowAt(s', c));
      if c in s'.rows {
        CompletedIsAbsorbing(s', events[1..], end, c);
      } else {
        DeletedStaysDeleted(s', events[1..], end, c);
      }
    }
  }

  lemma {:induction false} DeletedStaysDeleted(s: State, events: seq<Event>, end: State, c: CallId)
    requires Inv(s) && Run(s, events, end) && c in s.used && c !in s.rows
    ensures c !in end.rows
    decreases |events|
  {
    if events != [] {
      var s' := Apply(s, events[0]);
      StepKeepsInv(s, events[0]);
      assert Evolves(RowAt(s, c), RowAt(s', c));
      DeletedStaysDeleted(s', events[1..], end, c);
    }
  }

  /** A finished delivery keeps its promise for good, not just at the moment it returns. */
  lemma FinishedStaysCompleted(s: State, events: seq<Event>, end: State, w: WorkerId)
    requires Inv(s) && Run(s, events, end)
    requires w in s.workers && s.workers[w].at == Done(Finished)
    ensures s.workers[w].call in end.rows ==> end.rows[s.workers[w].call].status == Completed
  {
    var c := s.workers[w].call;
    assert c in s.used;
    if c in s.rows {
      CompletedIsAbsorbing(s, events, end, c);
    } else {
      DeletedStaysDeleted(s, events, end, c);
    }
  }

  /** The table never refuses a worker: every status write any reachable worker attempts is in it. */
  lemma ReachableAttemptsAreAllowed(events: seq<Event>, end: State, w: WorkerId)
    requires Run(Init, events, end) && w in end.workers && Attempt(end.workers[w].at).Some?
    ensures CanTransition(Attempt(end.workers[w].at).value.0, Attempt(end.workers[w].at).value.1)
  {
    RunKeepsInv(Init, events, end);
    AttemptsAreAllowed(RowAt(end, end.workers[w].call), end.workers[w].at);
  }

  /** Driving one worker to its end is a run of the system in which only that worker acts. */
  lemma {:induction false} DriveIsARun(s: State, w: WorkerId, luck: Luck) returns (events: seq<Event>, end: State)
    requires Inv(s) && w in s.workers
    ensures Run(s, events, end) && Inv(end)
    ensures var worker := s.workers[w];
            var drive := Drive(RowAt(s, worker.call), worker, luck);
            && end.workers == s.workers[w := worker.(at := drive.1)]
            && RowAt(end, worker.call) == drive.0
            && (forall c | c != worker.call :: RowAt(end, c) == RowAt(s, c))
    decreases Rank(s.workers[w].at)
  {
    var worker := s.workers[w];
    if worker.at.Done? {
      assert s.workers == s.workers[w := worker];
      return [], s;
    }
    var row := RowAt(s, worker.call);
    var e := Act(w, Helpful(luck, worker.at));
    var s' := Apply(s, e);
    RankFalls(row, worker, e.reply);
    StepKeepsInv(s, e);
    ActTouchesOneRow(s, w, e.reply);
    DriveGoesOn(row, worker, luck);
    var rest;
    rest, end := DriveIsARun(s', w, luck);
    events := [e] + rest;
  }

  /**
   From every reachable state a new fault-free delivery acting on its own is a run
   that completes the call, whatever other deliveries left behind, in exactly as many
   status writes as the status has left: at most five.
   */
  lemma ReachableCallsCanComplete(history: seq<Event>, s: State, w: WorkerId, c: CallId, workspace: Option<Workspace>, luck: Luck)
    returns (events: seq<Event>, end: State)
    requires Run(Init, history, s) && c in s.rows && w !in s.workers
    requires workspace.None? || workspace.value == s.rows[c].workspace
    requires Lucky(luck)
    ensures Run(s, [Deliver(w, c, workspace)] + events, end)
    ensures w in end.workers && end.workers[w].at == Done(Finished)
    ensures c in end.rows && end.rows[c].status == Completed
    ensures Drive(Some(s.rows[c]), Worker(c, workspace, Start), luck).2 == Remaining(s.rows[c].status) <= 5
  {
    RunKeepsInv(Init, history, s);
    LuckyRunCompletes(s.rows[c], Worker(c, workspace, Start), luck);
    var s' := Apply(s, Deliver(w, c, workspace));
    StepKeepsInv(s, Deliver(w, c, workspace));
    events, end := DriveIsARun(s', w, luck);
  }

  // ----- tenants -----

  /** A worker past its load works on a row of the workspace it was delivered for. */
  ghost predicate InItsWorkspace(s: State, w: WorkerId)
    requires w in s.workers
  {
    Scoped(RowAt(s, s.workers[w].call), s.workers[w])
  }

  lemma ActorStaysInItsWorkspace(s: State, w: WorkerId, reply: Reply)
    requires w in s.workers && InItsWorkspace(s, w)
    ensures InItsWorkspace(Apply(s, Act(w, reply)), w)
  {
    ActTouchesOneRow(s, w, reply);
    OperationStaysScoped(RowAt(s, s.workers[w].call), s.workers[w], reply);
  }

  lemma {:induction false} WorkersStayInTheirWorkspace(s: State, events: seq<Event>, end: State, w: WorkerId)
    requires Inv(s) && Run(s, events, end)
    requires forall v | v in s.workers :: InItsWorkspace(s, v)
    ensures w in end.workers ==> InItsWorkspace(end, w)
    decreases |events|
  {
    if events != [] {
      var e := events[0];
      var s' := Apply(s, e);
      StepKeepsInv(s, e);
      forall v | v in s'.workers ensures InItsWorkspace(s', v) {
        if e.Act? && e.worker == v {
          ActorStaysInItsWorkspace(s, v, e.reply);
        } else if v in s.workers {
          BystanderStaysInItsWorkspace(s, e, v);
        }
      }
      WorkersStayInTheirWorkspace(s', events[1..], end, w);
    }
  }

  lemma BystanderStaysInItsWorkspace(s: State, e: Event, v: WorkerId)
    requires Inv(s) && Enabled(s, e) && v in s.workers && InItsWorkspace(s, v) && v in Apply(s, e).workers
    requires !(e.Act? && e.worker == v)
    ensures InItsWorkspace(Apply(s, e), v)
  {
    var c := s.workers[v].call;
    assert Apply(s, e).workers[v] == s.workers[v];
    if c in s.used {
      RowEvolves(s, e, c);
    }
  }

  /**
   Tenant isolation over every run: although transcripts and results are written by call
   ID alone, a worker delivered for a workspace never changes a row of another one.
   */
  lemma NoWorkerTouchesAnotherWorkspace(events: seq<Event>, end: State, w: WorkerId, reply: Reply, c: CallId)
    requires Run(Init, events, end) && w in end.workers && end.workers[w].workspace.Some? && c in end.rows
    ensures var s' := Apply(end, Act(w, reply));
            && c in s'.rows
            && (s'.rows[c] != end.rows[c] ==> end.rows[c].workspace == end.workers[w].workspace.value)
  {
    RunKeepsInv(Init, events, end);
    WorkersStayInTheirWorkspace(Init, events, end, w);
    ActTouchesOneRow(end, w, reply);
    assert RowAt(Apply(end, Act(w, reply)), c).Some?;
    assert c != end.workers[w].call ==> RowAt(Apply(end, Act(w, reply)), c) == RowAt(end, c);
  }

  lemma {:induction false} RunExtends(s: State, events: seq<Event>, mid: State, e: Event)
    requires Run(s, events, mid) && Enabled(mid, e)
    ensures Run(s, events + [e], Apply(mid, e))
    decreases |events|
  {
    assert Run(mid, [e], Apply(mid, e)) by { assert [e][1..] == []; }
    RunsCompose(s, events, mid, [e], Apply(mid, e));
  }

  lemma {:induction false} RunsCompose(s: State, first: seq<Event>, mid: State, second: seq<Event>, end: State)
    requires Run(s, first, mid) && Run(mid, second, end)
    ensures Run(s, first + second, end)
    decreases |first|
  {
    if first == [] {
      assert first + second == second;
    } else {
      RunsCompose(Apply(s, first[0]), first[1..], mid, second, end);
      assert (first + second)[1..] == first[1..] + second;
    }
  }
}
