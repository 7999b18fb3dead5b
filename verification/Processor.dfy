/**
 `Processor.process` as the loop it is: a status held in a local, stores and providers
 called one after the other, early returns through `fail`. Each call is answered by a
 world that fixes, for the n-th operation, the call's row as everybody else has left it
 and whether the operation works. The method is proved to do exactly what the step
 function of `Pipeline` does, for every world.
 */
module Processor {
  import opened Results
  import opened CallStatus
  import opened Scoring
  import opened Playbooks
  import opened Analysis
  import opened Pipeline

  datatype Tick = Tick(row: Option<Row>, reply: Reply)

  type World = nat -> Tick

  /** Iterating the step function from the n-th operation until the worker is done. */
  ghost function Play(world: World, n: nat, w: Worker): (Option<Row>, Worker)
    requires !w.at.Done?
    decreases Rank(w.at)
  {
    var next := Next(world(n).row, w, world(n).reply);
    RankFalls(world(n).row, w, world(n).reply);
    if next.1.at.Done? then next else Play(world, n + 1, next.1)
  }

  /** The stores and providers a processor is built from, with the durable row they work on. */
  class Stores {
    const world: World
    var clock: nat
    var row: Option<Row>

    constructor (world: World)
      ensures this.world == world && clock == 0
    {
      this.world := world;
      clock, row := 0, None;
    }

    /** An operation reaches the database: see the row as it now stands, and use up one tick. */
    method Begin() returns (reply: Reply)
      modifies this
      ensures clock == old(clock) + 1
      ensures row == world(old(clock)).row && reply == world(old(clock)).reply
    {
      row, reply := world(clock).row, world(clock).reply;
      clock := clock + 1;
    }

    /** `Get` and `GetInWorkspace`. */
    method Load(workspace: Option<Workspace>) returns (status: Option<Status>)
      modifies this
      ensures clock == old(clock) + 1 && row == world(old(clock)).row
      ensures status == if Failure(world(old(clock)).reply) || !Visible(row, workspace) then None
                        else Some(row.value.status)
    {
      var reply := Begin();
      if Failure(reply) || row.None? {
        return None;
      }
      if workspace.Some? && row.value.workspace != workspace.value {
        return None;
      }
      return Some(row.value.status);
    }

    /** `Transition` and `TransitionInWorkspace`: a guarded UPDATE, judged by the rows it affected. */
    method Transition(workspace: Option<Workspace>, from: Status, to: Status, message: Option<string>)
      returns (ok: bool)
      modifies this
      ensures clock == old(clock) + 1
      ensures row == Swapped(world(old(clock)).row, workspace, from, to, message, world(old(clock)).reply)
      ensures ok <==> SwapSucceeds(world(old(clock)).row, workspace, from, to, world(old(clock)).reply)
    {
      var reply := Begin();
      if !CanTransition(from, to) {
        return false;
      }
      if reply.Broken? {
        return false;
      }
      var affected := 0;
      if row.Some? && (workspace.None? || row.value.workspace == workspace.value) && row.value.status == from {
        row := Some(row.value.(status := to, error := message));
        affected := 1;
      }
      if reply.Lost? {
        return false;
      }
      return affected == 1;
    }

    method GetTranscript() returns (failed: bool, transcript: Option<Transcript>)
      modifies this
      ensures clock == old(clock) + 1 && row == world(old(clock)).row
      ensures failed <==> Failure(world(old(clock)).reply)
      ensures !failed ==> transcript == if row.Some? then row.value.transcript else None
    {
      var reply := Begin();
      if Failure(reply) {
        return true, None;
      }
      return false, if row.Some? then row.value.transcript else None;
    }

    method Transcribe() returns (transcript: Option<Transcript>)
      modifies this
      ensures clock == old(clock) + 1 && row == world(old(clock)).row
      ensures transcript == if world(old(clock)).reply.Transcription?
                            then Some(world(old(clock)).reply.transcript) else None
    {
      var reply := Begin();
      return if reply.Transcription? then Some(reply.transcript) else None;
    }

    method UpsertTranscript(transcript: Transcript) returns (ok: bool)
      modifies this
      ensures clock == old(clock) + 1
      ensures var before := world(old(clock)).row;
              row == if before.Some? && !world(old(clock)).reply.Broken?
                     then Some(before.value.(transcript := Some(transcript))) else before
      ensures ok <==> world(old(clock)).row.Some? && !Failure(world(old(clock)).reply)
    {
      var reply := Begin();
      if reply.Broken? || row.None? {
        return false;
      }
      row := Some(row.value.(transcript := Some(transcript)));
      return !reply.Lost?;
    }

    method AnalysisExists() returns (failed: bool, exists': bool)
      modifies this
      ensures clock == old(clock) + 1 && row == world(old(clock)).row
      ensures failed <==> Failure(world(old(clock)).reply)
      ensures exists' <==> !failed && row.Some? && row.value.result.Some?
    {
      var reply := Begin();
      if Failure(reply) {
        return true, false;
      }
      return false, row.Some? && row.value.result.Some?;
    }

    /** The playbook lookup and the analyzer's answer for the rubric it yields. */
    method Analyze() returns (playbook: Option<Playbook>, answer: Option<Answer>)
      modifies this
      ensures clock == old(clock) + 1 && row == world(old(clock)).row
      ensures var reply := world(old(clock)).reply;
              if reply.Analyzed? then playbook == reply.playbook && answer == Some(reply.answer) else answer.None?
    {
      var reply := Begin();
      if !reply.Analyzed? {
        return None, None;
      }
      return reply.playbook, Some(reply.answer);
    }

    method UpsertWithScore(result: CallResult) returns (ok: bool)
      modifies this
      ensures clock == old(clock) + 1
      ensures var before := world(old(clock)).row;
              row == if before.Some? && Storable(result.score) && !world(old(clock)).reply.Broken?
                     then Some(before.value.(result := Some(result))) else before
      ensures ok <==> world(old(clock)).row.Some? && Storable(result.score) && !Failure(world(old(clock)).reply)
    {
      var reply := Begin();
      if reply.Broken? || row.None? || !Storable(result.score) {
        return false;
      }
      row := Some(row.value.(result := Some(result)));
      return !reply.Lost?;
    }
  }

  /** One delivery: its call, its workspace and the worker the step function would have. */
  class Delivery {
    const stores: Stores
    const workspace: Option<Workspace>
    var status: Status
    ghost var worker: Worker

    constructor (stores: Stores, call: CallId, workspace: Option<Workspace>)
      ensures this.stores == stores && this.workspace == workspace
      ensures worker == Worker(call, workspace, Start)
    {
      this.stores, this.workspace := stores, workspace;
      status := Uploaded;
      worker := Worker(call, workspace, Start);
    }

    /** What is left to do, by the step function. */
    ghost function Rest(): (Option<Row>, Worker)
      reads this, stores
      requires !worker.at.Done?
    {
      Play(stores.world, stores.clock, worker)
    }

    /** The delivery is over and ended as `promise` said it would. */
    ghost predicate Over(outcome: Outcome, promise: (Option<Row>, Worker))
      reads this, stores
    {
      worker.at == Done(outcome) && promise == (stores.row, worker)
    }

    /** `transition`: attempt the status write, and on success remember the new status. */
    method Transition(to: Status) returns (ok: bool)
      requires worker.workspace == workspace && !worker.at.Failing?
      requires Attempt(worker.at) == Some((status, to, None))
      modifies this, stores
      ensures worker == old(worker).(at := worker.at) && status == if ok then to else old(status)
      ensures if ok then worker.at == Arrive(to) else worker.at == Done(TransitionFailed)
      ensures if worker.at.Done? then old(Rest()) == (stores.row, worker) else Rest() == old(Rest())
      ensures Rank(worker.at) < Rank(old(worker.at))
    {
      ghost var tick := stores.world(stores.clock);
      RankFalls(tick.row, worker, tick.reply);
      ok := stores.Transition(workspace, status, to, None);
      worker := Next(tick.row, worker, tick.reply).1;
      if ok {
        status := to;
      }
    }

    /** `fail`: mark the call failed with a fixed message, unless that write itself fails. */
    method Fail(message: string) returns (outcome: Outcome)
      requires worker.workspace == workspace && worker.at == Failing(status, message) && status != Failed
      modifies this, stores
      ensures outcome == Marked(message) || outcome == TransitionFailed
      ensures worker == old(worker).(at := worker.at) && status == old(status)
      ensures Over(outcome, old(Rest()))
    {
      ghost var tick := stores.world(stores.clock);
      var ok := stores.Transition(workspace, status, Failed, Some(message));
      worker := Next(tick.row, worker, tick.reply).1;
      return if ok then Marked(message) else TransitionFailed;
    }

    /** The `StatusTranscribing` case, up to the point where the status may move on. */
    method MakeTranscript() returns (outcome: Option<Outcome>)
      requires worker.workspace == workspace && worker.at == Loop(Transcribing) && status == Transcribing
      modifies this, stores
      ensures worker == old(worker).(at := worker.at) && status == old(status)
      ensures outcome.Some? ==> Over(outcome.value, old(Rest()))
      ensures outcome.None? ==> worker.at == ReadyTranscribed && Rest() == old(Rest())
    {
      ghost var promise := Rest();
      ghost var tick := stores.world(stores.clock);
      var failed, stored := stores.GetTranscript();
      worker := Next(tick.row, worker, tick.reply).1;
      assert Rest() == promise;
      if failed {
        var end := Fail(PROCESSING_FAILURE);
        return Some(end);
      }
      if stored.None? {
        tick := stores.world(stores.clock);
        var made := stores.Transcribe();
        worker := Next(tick.row, worker, tick.reply).1;
        assert Rest() == promise;
        if made.None? {
          var end := Fail(TRANSCRIPTION_PROVIDER_FAILURE);
          return Some(end);
        }
        tick := stores.world(stores.clock);
        var saved := stores.UpsertTranscript(made.value);
        worker := Next(tick.row, worker, tick.reply).1;
        assert Rest() == promise;
        if !saved {
          var end := Fail(PROCESSING_FAILURE);
          return Some(end);
        }
      }
      return None;
    }

    /** Choose the rubric, ask the analyzer, validate its answer and calculate the score. */
    method MakeResult(source: Transcript) returns (result: Option<CallResult>)
      requires worker.workspace == workspace && worker.at == GotSource(source) && status == Analyzing
      modifies this, stores
      ensures worker == old(worker).(at := worker.at) && status == old(status)
      ensures if result.Some? then worker.at == GotResult(result.value)
              else worker.at == Failing(Analyzing, ANALYSIS_PROVIDER_FAILURE)
      ensures Rest() == old(Rest())
    {
      ghost var tick := stores.world(stores.clock);
      var playbook, answer := stores.Analyze();
      worker := Next(tick.row, worker, tick.reply).1;
      if answer.None? {
        return None;
      }
      var criteria := DefaultRubric();
      if playbook.Some? && |playbook.value.criteria| > 0 {
        criteria := RubricOf(playbook.value.criteria);
      }
      var validated := ValidateAnswer(answer.value, criteria);
      if validated.Err? {
        return None;
      }
      var score := CalculateWithCriteria(validated.value.criterionResults, criteria);
      if score.Err? {
        return None;
      }
      return Some(CallResult(validated.value, score.value, source));
    }

    /** No analysis is stored yet: load the transcript, make the result and store it. */
    method NewAnalysis() returns (outcome: Option<Outcome>)
      requires worker.workspace == workspace && worker.at == NeedAnalysis && status == Analyzing
      modifies this, stores
      ensures worker == old(worker).(at := worker.at) && status == old(status)
      ensures outcome.Some? ==> Over(outcome.value, old(Rest()))
      ensures outcome.None? ==> worker.at == ReadyCompleted && Rest() == old(Rest())
    {
      ghost var promise := Rest();
      ghost var tick := stores.world(stores.clock);
      var lost, transcript := stores.GetTranscript();
      worker := Next(tick.row, worker, tick.reply).1;
      assert Rest() == promise;
      if lost || transcript.None? {
        var end := Fail(PROCESSING_FAILURE);
        return Some(end);
      }
      var result := MakeResult(transcript.value);
      if result.None? {
        var end := Fail(ANALYSIS_PROVIDER_FAILURE);
        return Some(end);
      }
      tick := stores.world(stores.clock);
      var saved := stores.UpsertWithScore(result.value);
      worker := Next(tick.row, worker, tick.reply).1;
      assert Rest() == promise;
      if !saved {
        var end := Fail(PROCESSING_FAILURE);
        return Some(end);
      }
      return None;
    }

    /** The `StatusAnalyzing` case, up to the point where the call may complete. */
    method MakeAnalysis() returns (outcome: Option<Outcome>)
      requires worker.workspace == workspace && worker.at == Loop(Analyzing) && status == Analyzing
      modifies this, stores
      ensures worker == old(worker).(at := worker.at) && status == old(status)
      ensures outcome.Some? ==> Over(outcome.value, old(Rest()))
      ensures outcome.None? ==> worker.at == ReadyCompleted && Rest() == old(Rest())
    {
      ghost var promise := Rest();
      ghost var tick := stores.world(stores.clock);
      var failed, stored := stores.AnalysisExists();
      worker := Next(tick.row, worker, tick.reply).1;
      assert Rest() == promise;
      if failed {
        var end := Fail(PROCESSING_FAILURE);
        return Some(end);
      }
      if !stored {
        outcome := NewAnalysis();
        return;
      }
      return None;
    }

    /**
     `process`: load the call, then loop over its status until it is completed or
     something fails. It terminates in every world, and ends with exactly the row and
     outcome the step function reaches.
     */
    method Process() returns (outcome: Outcome)
      requires worker.workspace == workspace && worker.at == Start
      modifies this, stores
      ensures Over(outcome, old(Rest()))
    {
      ghost var promise := Rest();
      ghost var tick := stores.world(stores.clock);
      var loaded := stores.Load(workspace);
      worker := Next(tick.row, worker, tick.reply).1;
      if loaded.None? {
        return LoadFailed;
      }
      status := loaded.value;
      while true
        invariant worker.workspace == workspace && worker.at == Arrive(status)
        invariant if worker.at.Done? then promise == (stores.row, worker) else Rest() == promise
        decreases Rank(worker.at)
      {
        ghost var at := worker.at;
        match status
        case Completed =>
          return Finished;
        case Failed =>
          var ok := Transition(Queued);
          if !ok { return TransitionFailed; }
        case Uploaded =>
          var ok := Transition(Transcribing);
          if !ok { return TransitionFailed; }
        case Queued =>
          var ok := Transition(Transcribing);
          if !ok { return TransitionFailed; }
        case Transcribing =>
          var failed := MakeTranscript();
          if failed.Some? { return failed.value; }
          var ok := Transition(Transcribed);
          if !ok { return TransitionFailed; }
        case Transcribed =>
          var ok := Transition(Analyzing);
          if !ok { return TransitionFailed; }
        case Analyzing =>
          var failed := MakeAnalysis();
          if failed.Some? { return failed.value; }
          var ok := Transition(Completed);
          if !ok { return TransitionFailed; }
          return Finished;
      }
    }
  }

  // ----- what that means in a world that only does what the protocol allows -----

  /** Between operations the others move the row along as `Pipeline` allows. */
  ghost predicate Lawful(world: World, n: nat, row: Option<Row>, w: Worker)
    requires !w.at.Done?
    decreases Rank(w.at)
  {
    var next := Next(world(n).row, w, world(n).reply);
    RankFalls(world(n).row, w, world(n).reply);
    && MaybeRow(world(n).row) && Evolves(row, world(n).row)
    && (next.1.at.Done? || Lawful(world, n + 1, next.0, next.1))
  }

  /**
   Whatever lawful interference and whatever failures a delivery meets, it leaves a
   sound row; if it returned nil the call is completed, unless it was deleted; and a
   marked failure carries one of the three messages.
   */
  lemma {:induction false} LawfulPlayIsSound(world: World, n: nat, row: Option<Row>, w: Worker)
    requires MaybeRow(row) && PointInv(row, w.at) && !w.at.Done? && Lawful(world, n, row, w)
    ensures var end := Play(world, n, w);
            && end.1.at.Done? && MaybeRow(end.0)
            && (end.1.at.outcome.Finished? && end.0.Some? ==> end.0.value.status.Completed?)
            && (end.1.at.outcome.Marked? ==> FailureMessage(end.1.at.outcome.message))
    decreases Rank(w.at)
  {
    var tick := world(n);
    RankFalls(tick.row, w, tick.reply);
    PointInvIsStable(row, tick.row, w.at);
    OperationIsSound(tick.row, w, tick.reply);
    var next := Next(tick.row, w, tick.reply);
    if !next.1.at.Done? {
      LawfulPlayIsSound(world, n + 1, next.0, next.1);
    }
  }

  /** A world in which nobody interferes and everything works. */
  ghost predicate Quiet(world: World, n: nat, row: Option<Row>, w: Worker, luck: Luck)
    requires !w.at.Done?
    decreases Rank(w.at)
  {
    var next := Next(row, w, Helpful(luck, w.at));
    RankFalls(row, w, Helpful(luck, w.at));
    && world(n) == Tick(row, Helpful(luck, w.at))
    && (next.1.at.Done? || Quiet(world, n + 1, next.0, next.1, luck))
  }

  lemma {:induction false} QuietPlayIsDrive(world: World, n: nat, row: Option<Row>, w: Worker, luck: Luck)
    requires !w.at.Done? && Quiet(world, n, row, w, luck)
    ensures Play(world, n, w).0 == Drive(row, w, luck).0 && Play(world, n, w).1.at == Drive(row, w, luck).1
    decreases Rank(w.at)
  {
    var next := Next(row, w, Helpful(luck, w.at));
    RankFalls(row, w, Helpful(luck, w.at));
    if !next.1.at.Done? {
      QuietPlayIsDrive(world, n + 1, next.0, next.1, luck);
    }
  }

  /** In a quiet world `Process` completes any sound call its delivery may see. */
  method ProcessQuietly(stores: Stores, call: CallId, workspace: Option<Workspace>, ghost row: Row, ghost luck: Luck)
    returns (outcome: Outcome)
    requires RowInv(row) && Visible(Some(row), workspace) && Lucky(luck)
    requires Quiet(stores.world, stores.clock, Some(row), Worker(call, workspace, Start), luck)
    modifies stores
    ensures outcome == Finished
    ensures stores.row.Some? && stores.row.value.status == Completed && stores.row.value.result.Some?
  {
    var delivery := new Delivery(stores, call, workspace);
    QuietPlayIsDrive(stores.world, stores.clock, Some(row), delivery.worker, luck);
    LuckyRunCompletes(row, delivery.worker, luck);
    outcome := delivery.Process();
  }

  /**
   In a quiet world `Process` scores a call without a result with the criteria of its
   playbook, or with the default rubric when it has none; it returns nil exactly when the
   answer validates against them and the score can be stored.
   */
  method ProcessScores(stores: Stores, call: CallId, workspace: Option<Workspace>, ghost row: Row, ghost luck: Luck, ghost rubric: Rubric)
    returns (outcome: Outcome)
    requires RowInv(row) && Visible(Some(row), workspace) && row.result.None?
    requires Quiet(stores.world, stores.clock, Some(row), Worker(call, workspace, Start), luck)
    requires luck.playbook.Some? && luck.playbook.value.criteria != [] ==> rubric == RubricOf(luck.playbook.value.criteria)
    requires luck.playbook.None? || luck.playbook.value.criteria == [] ==> rubric == DefaultRubric()
    modifies stores
    ensures var validated := ValidateAnswer(luck.answer, rubric);
            && stores.row.Some?
            && (outcome == Finished <==>
                  validated.Ok? && Storable(ScoreAgainst(validated.value.criterionResults, rubric)))
            && (outcome == Finished ==>
                  && stores.row.value.status == Completed && stores.row.value.result.Some?
                  && stores.row.value.result.value.analysis == validated.value
                  && stores.row.value.result.value.score == ScoreAgainst(validated.value.criterionResults, rubric))
            && (outcome != Finished ==> stores.row.value.status == Failed)
  {
    var delivery := new Delivery(stores, call, workspace);
    QuietPlayIsDrive(stores.world, stores.clock, Some(row), delivery.worker, luck);
    if luck.playbook.Some? && luck.playbook.value.criteria != [] {
      ScoredWithItsPlaybook(row, delivery.worker, luck, luck.playbook.value);
    } else {
      ScoredWithTheDefault(row, delivery.worker, luck);
    }
    outcome := delivery.Process();
  }
}
