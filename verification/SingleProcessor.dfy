/**
 All deliveries through one `Processor`: the lock registry and the pipeline composed.
 A delivery enters the registry, runs the pipeline only while it holds its call's
 lock, and leaves. The process may restart at any time, losing every thread; the API
 creates, queues and deletes rows underneath.
 */
module SingleProcessor {
  import opened Results
  import opened CallStatus
  import opened Pipeline
  import Locks = LockRegistry
  import Many = Workers

  type Lock = int

  datatype State = State(
    registry: Locks.State<Lock>,
    rows: map<CallId, Row>,
    used: set<CallId>,
    workers: map<Locks.Thread, Worker>)

  datatype Event =
    | Create(call: CallId, home: Workspace)
    | Queue(call: CallId)
    | Delete(call: CallId)
    | Enter(thread: Locks.Thread, target: CallId, unused: Lock)
    | Acquire(thread: Locks.Thread, workspace: Option<Workspace>)
    | Act(thread: Locks.Thread, reply: Reply)
    | Unlock(thread: Locks.Thread)
    | Drop(thread: Locks.Thread)
    | Restart

  /** The same state seen as one of many processes without locks. */
  function Unlocked(s: State): Many.State {
    Many.State(s.rows, s.used, s.workers)
  }

  /** The registry step and the unlocked event a composed event stands for. */
  function RegistryStep(e: Event): Option<Locks.Step<Lock>> {
    match e
    case Enter(t, call, unused) => Some(Locks.Enter(t, call, unused))
    case Acquire(t, _) => Some(Locks.Acquire(t))
    case Unlock(t) => Some(Locks.Unlock(t))
    case Drop(t) => Some(Locks.Drop(t))
    case _ => None
  }

  function PipelineEvent(s: State, e: Event): Option<Many.Event> {
    match e
    case Create(call, home) => Some(Many.Create(call, home))
    case Queue(call) => Some(Many.Queue(call))
    case Delete(call) => Some(Many.Delete(call))
    case Acquire(t, workspace) =>
      if t in s.registry.threads then Some(Many.Deliver(t, s.registry.threads[t].call, workspace)) else None
    case Act(t, reply) => Some(Many.Act(t, reply))
    case Unlock(t) => Some(Many.Crash(t))
    case _ => None
  }

  predicate Enabled(s: State, e: Event) {
    && (RegistryStep(e).Some? ==> Locks.Enabled(s.registry, RegistryStep(e).value))
    && (PipelineEvent(s, e).Some? ==> Many.Enabled(Unlocked(s), PipelineEvent(s, e).value))
    && (e.Act? ==> e.thread in s.registry.threads && s.registry.threads[e.thread].Holding?)
  }

  function Apply(s: State, e: Event): State
    requires Enabled(s, e)
  {
    if e.Restart? then State(Locks.Init(), s.rows, s.used, map[]) else
      var registry := if RegistryStep(e).Some? then Locks.Apply(s.registry, RegistryStep(e).value) else s.registry;
      var many := if PipelineEvent(s, e).Some? then Many.Apply(Unlocked(s), PipelineEvent(s, e).value) else Unlocked(s);
      State(registry, many.rows, many.used, many.workers)
  }

  /** The stored result was computed from the stored transcript. */
  ghost predicate Coherent(row: Row) {
    row.result.Some? ==> row.transcript == Some(row.result.value.source)
  }

  /** What the holder of the lock may rely on: nobody else moves this call's checkpoints. */
  ghost predicate Alone(row: Row, at: Point) {
    match at
    case Start => true
    case Loop(Uploaded) => row.status.Uploaded? || row.status.Queued?
    case Loop(Failed) => row.status.Failed? || row.status.Queued?
    case Loop(status) => row.status == status
    case NeedTranscript => row.status.Transcribing? && row.transcript.None?
    case GotTranscript(_) => row.status.Transcribing? && row.transcript.None?
    case ReadyTranscribed => row.status.Transcribing?
    case NeedAnalysis => row.status.Analyzing? && row.result.None?
    case GotSource(source) => row.status.Analyzing? && row.result.None? && row.transcript == Some(source)
    case GotResult(result) => row.status.Analyzing? && row.result.None? && row.transcript == Some(result.source)
    case ReadyCompleted => row.status.Analyzing?
    case Failing(from, _) => row.status == from
    case Done(_) => true
  }

  ghost predicate AloneIfAny(row: Option<Row>, at: Point) {
    row.Some? ==> Coherent(row.value) && Alone(row.value, at)
  }

  ghost predicate Inv(s: State) {
    && Locks.Inv(s.registry)
    && Many.Inv(Unlocked(s))
    && HoldersAreWorkers(s)
    && (forall c | c in s.rows :: Coherent(s.rows[c]))
    && (forall t | t in s.workers :: AloneIfAny(Many.RowAt(Unlocked(s), s.workers[t].call), s.workers[t].at))
  }

  /** What may still happen to a row: nothing stored is replaced, and completed rows are final. */
  ghost predicate Freezes(row: Row, row': Row) {
    && (row.transcript.Some? ==> row'.transcript == row.transcript)
    && (row.result.Some? ==> row'.result == row.result)
    && (row.status.Completed? ==> row' == row)
  }

  /** One operation of the lock's holder keeps the row coherent and never replaces a checkpoint. */
  lemma OperationAlone(row: Row, w: Worker, reply: Reply)
    requires RowInv(row) && PointInv(Some(row), w.at) && Coherent(row) && Alone(row, w.at)
    ensures NextRow(Some(row), w, reply).Some?
    ensures Coherent(NextRow(Some(row), w, reply).value) && Freezes(row, NextRow(Some(row), w, reply).value)
    ensures Alone(NextRow(Some(row), w, reply).value, NextPoint(Some(row), w, reply))
  {
    if Attempt(w.at).Some? {
      SwapAlone(row, w, reply);
    } else {
      CheckpointAlone(row, w, reply);
    }
  }

  lemma AloneAfterWrite(row: Row, at: Point)
    requires RowInv(row) && PointInv(Some(row), at) && Coherent(row) && Alone(row, at) && Attempt(at).Some?
    ensures !Attempt(at).value.0.Completed?
    ensures Alone(row.(status := Attempt(at).value.1, error := Attempt(at).value.2), AfterWrite(at, Attempt(at).value.1))
  {
  }

  lemma SwapAlone(row: Row, w: Worker, reply: Reply)
    requires RowInv(row) && PointInv(Some(row), w.at) && Coherent(row) && Alone(row, w.at) && Attempt(w.at).Some?
    ensures var row' := NextRow(Some(row), w, reply);
            row'.Some? && Coherent(row'.value) && Freezes(row, row'.value)
            && Alone(row'.value, NextPoint(Some(row), w, reply))
  {
    var (from, to, message) := Attempt(w.at).value;
    AloneAfterWrite(row, w.at);
    assert NextRow(Some(row), w, reply) == Swapped(Some(row), w.workspace, from, to, message, reply);
  }

  lemma CheckpointAlone(row: Row, w: Worker, reply: Reply)
    requires Coherent(row) && Alone(row, w.at) && Attempt(w.at).None?
    ensures var row' := NextRow(Some(row), w, reply);
            row'.Some? && Coherent(row'.value) && Freezes(row, row'.value)
            && Alone(row'.value, NextPoint(Some(row), w, reply))
  {
    match w.at
    case GotSource(source) => AnalysisKeepsSource(source, reply);
    case _ =>
  }

  lemma AnalysisKeepsSource(source: Transcript, reply: Reply)
    ensures var at := AnalyzePoint(source, reply);
            (at.GotResult? && at.result.source == source) || (at.Failing? && at.from == Analyzing)
  {
  }

  lemma QueueAlone(row: Row, at: Point)
    requires RowInv(row) && Coherent(row)
    ensures Coherent(Many.QueuedRow(row)) && Freezes(row, Many.QueuedRow(row))
    ensures PointInv(Some(row), at) && Alone(row, at) ==> Alone(Many.QueuedRow(row), at)
  {
  }

  lemma ActRowStep(s: State, t: Locks.Thread, reply: Reply, c: CallId)
    requires Inv(s) && Enabled(s, Act(t, reply))
    ensures var s' := Apply(s, Act(t, reply));
            && (c in s'.rows <==> c in s.rows)
            && (c in s.rows ==> Coherent(s'.rows[c]) && Freezes(s.rows[c], s'.rows[c]))
  {
    var s' := Apply(s, Act(t, reply));
    Many.ActTouchesOneRow(Unlocked(s), t, reply);
    if c in s.rows {
      assert Many.RowAt(Unlocked(s'), c) == Some(s'.rows[c]);
      assert Many.RowAt(Unlocked(s), c) == Some(s.rows[c]);
      if c == s.workers[t].call {
        OperationAlone(s.rows[c], s.workers[t], reply);
      }
    }
  }

  lemma RowStep(s: State, e: Event, c: CallId)
    requires Inv(s) && Enabled(s, e) && c in Apply(s, e).rows
    ensures Coherent(Apply(s, e).rows[c])
    ensures c in s.rows ==> Freezes(s.rows[c], Apply(s, e).rows[c])
  {
    var s' := Apply(s, e);
    match e
    case Act(t, reply) => ActRowStep(s, t, reply, c);
    case Queue(call) =>
      if c == call { QueueAlone(s.rows[c], Start); }
    case _ =>
  }

  ghost predicate HoldersAreWorkers(s: State) {
    && (forall t | t in s.workers ::
          && t in s.registry.threads && s.registry.threads[t].Holding?
          && s.registry.threads[t].call == s.workers[t].call)
    && (forall t | t in s.registry.threads && s.registry.threads[t].Holding? :: t in s.workers)
  }

  lemma LockingKeepsHolders(s: State, e: Event)
    requires HoldersAreWorkers(s) && Enabled(s, e) && RegistryStep(e).Some?
    ensures HoldersAreWorkers(Apply(s, e))
  {
    var s' := Apply(s, e);
    forall t | t != e.thread
      ensures t in s'.workers <==> t in s.workers
      ensures t in s'.registry.threads <==> t in s.registry.threads
      ensures t in s.workers ==> s'.workers[t] == s.workers[t]
      ensures t in s.registry.threads ==> s'.registry.threads[t] == s.registry.threads[t]
    {
    }
  }

  lemma ActingKeepsHolders(s: State, e: Event)
    requires HoldersAreWorkers(s) && Enabled(s, e) && RegistryStep(e).None?
    ensures HoldersAreWorkers(Apply(s, e))
  {
  }

  lemma OnlyQueueing(s: State, e: Event, c: CallId)
    requires Enabled(s, e) && !e.Act? && c in s.used && c in s.rows && c in Apply(s, e).rows
    ensures Apply(s, e).rows[c] == s.rows[c] || Apply(s, e).rows[c] == Many.QueuedRow(s.rows[c])
  {
  }

  lemma NewRowsAreUnseen(s: State, e: Event, t: Locks.Thread)
    requires Many.Inv(Unlocked(s)) && Enabled(s, e) && !e.Act? && t in s.workers
    requires s.workers[t].call in Apply(s, e).rows && s.workers[t].call !in s.rows
    ensures Unloaded(s.workers[t].at)
  {
  }

  lemma OthersKeepTheirPoint(s: State, e: Event, t: Locks.Thread)
    requires Inv(s) && Enabled(s, e) && !e.Act? && t in s.workers && t in Apply(s, e).workers
    requires Apply(s, e).workers[t] == s.workers[t]
    ensures AloneIfAny(Many.RowAt(Unlocked(Apply(s, e)), s.workers[t].call), s.workers[t].at)
  {
    var s' := Apply(s, e);
    var c := s.workers[t].call;
    if c in s'.rows {
      RowStep(s, e, c);
      if c in s.rows {
        QueueAlone(s.rows[c], s.workers[t].at);
        OnlyQueueing(s, e, c);
      } else {
        NewRowsAreUnseen(s, e, t);
      }
    }
  }

  lemma ActorKeepsPoint(s: State, t: Locks.Thread, reply: Reply)
    requires Inv(s) && Enabled(s, Act(t, reply)) && t in s.workers
    ensures var s' := Apply(s, Act(t, reply));
            AloneIfAny(Many.RowAt(Unlocked(s'), s.workers[t].call), s'.workers[t].at)
  {
    var row := Many.RowAt(Unlocked(s), s.workers[t].call);
    Many.ActTouchesOneRow(Unlocked(s), t, reply);
    ActorStaysAlone(row, s.workers[t], reply);
  }

  lemma BystanderKeepsPoint(s: State, u: Locks.Thread, reply: Reply, t: Locks.Thread)
    requires Inv(s) && Enabled(s, Act(u, reply)) && t in s.workers && t != u
    ensures var s' := Apply(s, Act(u, reply));
            && t in s'.workers && s'.workers[t] == s.workers[t]
            && Many.RowAt(Unlocked(s'), s.workers[t].call) == Many.RowAt(Unlocked(s), s.workers[t].call)
  {
    HoldersDiffer(s, t, u);
    Many.ActTouchesOneRow(Unlocked(s), u, reply);
  }

  lemma ActKeepsPoints(s: State, u: Locks.Thread, reply: Reply, t: Locks.Thread)
    requires Inv(s) && Enabled(s, Act(u, reply)) && t in s.workers
    ensures t in Apply(s, Act(u, reply)).workers
    ensures var s' := Apply(s, Act(u, reply));
            AloneIfAny(Many.RowAt(Unlocked(s'), s'.workers[t].call), s'.workers[t].at)
  {
    if t == u {
      ActorKeepsPoint(s, t, reply);
    } else {
      BystanderKeepsPoint(s, u, reply, t);
    }
  }

  lemma HoldersDiffer(s: State, t: Locks.Thread, u: Locks.Thread)
    requires Locks.Inv(s.registry) && HoldersAreWorkers(s) && t in s.workers && u in s.workers && t != u
    ensures s.workers[t].call != s.workers[u].call
  {
    if s.workers[t].call == s.workers[u].call {
      Locks.MutualExclusion(s.registry, t, u);
    }
  }

  lemma ActorStaysAlone(row: Option<Row>, w: Worker, reply: Reply)
    requires MaybeRow(row) && PointInv(row, w.at) && AloneIfAny(row, w.at)
    ensures AloneIfAny(NextRow(row, w, reply), NextPoint(row, w, reply))
  {
    if row.Some? { OperationAlone(row.value, w, reply); }
  }

  lemma WorkerStep(s: State, e: Event, t: Locks.Thread)
    requires Inv(s) && Enabled(s, e) && t in Apply(s, e).workers
    ensures AloneIfAny(Many.RowAt(Unlocked(Apply(s, e)), Apply(s, e).workers[t].call), Apply(s, e).workers[t].at)
  {
    if e.Act? {
      ActKeepsPoints(s, e.thread, e.reply, t);
    } else if e.Acquire? && e.thread == t {
      var c := Apply(s, e).workers[t].call;
      if c in Apply(s, e).rows { RowStep(s, e, c); }
    } else {
      OthersKeepTheirPoint(s, e, t);
    }
  }

  lemma PartsKeepInv(s: State, e: Event)
    requires Inv(s) && Enabled(s, e)
    ensures var s' := Apply(s, e); Locks.Inv(s'.registry) && Many.Inv(Unlocked(s')) && HoldersAreWorkers(s')
  {
    if RegistryStep(e).Some? { Locks.StepKeepsInv(s.registry, RegistryStep(e).value); }
    if e.Restart? { Locks.InitInv<Lock>(); }
    if PipelineEvent(s, e).Some? { Many.StepKeepsInv(Unlocked(s), PipelineEvent(s, e).value); }
    if RegistryStep(e).Some? { LockingKeepsHolders(s, e); } else { ActingKeepsHolders(s, e); }
  }

  /** Every event keeps the invariant: the locked system is a well-behaved case of the unlocked one. */
  lemma StepKeepsInv(s: State, e: Event)
    requires Inv(s) && Enabled(s, e)
    ensures Inv(Apply(s, e))
  {
    var s' := Apply(s, e);
    PartsKeepInv(s, e);
    forall c | c in s'.rows ensures Coherent(s'.rows[c]) { RowStep(s, e, c); }
    forall t | t in s'.workers
      ensures AloneIfAny(Many.RowAt(Unlocked(s'), s'.workers[t].call), s'.workers[t].at)
    {
      WorkerStep(s, e, t);
    }
  }

  const Init := State(Locks.Init(), map[], {}, map[])

  ghost predicate Run(s: State, events: seq<Event>, end: State)
    decreases |events|
  {
    if events == [] then s == end
    else Enabled(s, events[0]) && Run(Apply(s, events[0]), events[1..], end)
  }

  lemma {:induction false} RunKeepsInv(s: State, events: seq<Event>, end: State)
    requires Inv(s) && Run(s, events, end)
    ensures Inv(end)
    decreases |events|
  {
    if events != [] {
      StepKeepsInv(s, events[0]);
      RunKeepsInv(Apply(s, events[0]), events[1..], end);
    }
  }

  /**
   With all deliveries through one processor, over any sequence of overlapping
   deliveries, failures and restarts: once a transcript or a result is stored it is
   never replaced, and nothing about a completed call changes again; only deletion
   can remove it.
   */
  lemma {:induction false} StoredOnceAndForAll(s: State, events: seq<Event>, end: State, c: CallId)
    requires Inv(s) && Run(s, events, end) && c in s.rows && c in end.rows
    ensures Freezes(s.rows[c], end.rows[c])
    decreases |events|
  {
    if events != [] {
      var s' := Apply(s, events[0]);
      StepKeepsInv(s, events[0]);
      if c in s'.rows {
        RowStep(s, events[0], c);
        StoredOnceAndForAll(s', events[1..], end, c);
      } else {
        GoneForGood(s', events[1..], end, c);
      }
    }
  }

  lemma {:induction false} GoneForGood(s: State, events: seq<Event>, end: State, c: CallId)
    requires Inv(s) && Run(s, events, end) && c in s.used && c !in s.rows
    ensures c !in end.rows
    decreases |events|
  {
    if events != [] {
      var s' := Apply(s, events[0]);
      StepKeepsInv(s, events[0]);
      if PipelineEvent(s, events[0]).Some? {
        Many.RowEvolves(Unlocked(s), PipelineEvent(s, events[0]).value, c);
      }
      GoneForGood(s', events[1..], end, c);
    }
  }

  /** In every reachable state a stored result was computed from the stored transcript. */
  lemma ResultMatchesTranscript(events: seq<Event>, end: State, c: CallId)
    requires Run(Init, events, end) && c in end.rows && end.rows[c].result.Some?
    ensures end.rows[c].transcript == Some(end.rows[c].result.value.source)
  {
    Locks.InitInv<Lock>();
    RunKeepsInv(Init, events, end);
  }

  /** At most one delivery of a call runs the pipeline at a time. */
  lemma OneDeliveryAtATime(events: seq<Event>, end: State, t: Locks.Thread, u: Locks.Thread)
    requires Run(Init, events, end) && t in end.workers && u in end.workers
    requires end.workers[t].call == end.workers[u].call
    ensures t == u
  {
    Locks.InitInv<Lock>();
    RunKeepsInv(Init, events, end);
    Locks.MutualExclusion(end.registry, t, u);
  }
}
