/**
 One delivery of a call-processing task, as a step function: the durable row of the
 call and the position of the worker, advanced by one store or provider operation at
 a time. Every operation may succeed, fail without effect, or take effect and still
 report an error; a crash is a worker that takes no further step.
 */
module Pipeline {
  import opened Results
  import opened Machine
  import opened CallStatus
  import opened Scoring
  import opened Playbooks
  import opened Analysis

  type CallId = nat
  type Workspace = nat

  datatype Segment = Segment(speaker: string, text: string)
  datatype Transcript = Transcript(text: string, segments: seq<Segment>)

  /**
   A stored analysis and score; `analysis` stands for the columns and the raw response
   beside them, `source` records the transcript it was computed from.
   */
  datatype CallResult = CallResult(analysis: CallAnalysis, score: Score, source: Transcript)

  /** Everything durable about one call: its row and its two checkpoints. */
  datatype Row = Row(
    workspace: Workspace,
    status: Status,
    error: Option<string>,
    transcript: Option<Transcript>,
    result: Option<CallResult>)

  const TRANSCRIPTION_PROVIDER_FAILURE := "transcription provider failed"
  const ANALYSIS_PROVIDER_FAILURE := "analysis provider failed"
  const PROCESSING_FAILURE := "call processing failed"

  /** The three fixed messages a failed call may carry. */
  predicate FailureMessage(message: string) {
    message == TRANSCRIPTION_PROVIDER_FAILURE || message == ANALYSIS_PROVIDER_FAILURE || message == PROCESSING_FAILURE
  }

  /** How `process` ends; only `Finished` is a nil error. */
  datatype Outcome = Finished | LoadFailed | TransitionFailed | Marked(message: string)

  /** Where a worker is: the operation it performs next, with the locals it needs. */
  datatype Point =
    | Start
    | Loop(status: Status)
    | NeedTranscript
    | GotTranscript(transcript: Transcript)
    | ReadyTranscribed
    | NeedAnalysis
    | GotSource(source: Transcript)
    | GotResult(result: CallResult)
    | ReadyCompleted
    | Failing(from: Status, message: string)
    | Done(outcome: Outcome)

  /** A delivery names a call and, when it was enqueued for a workspace, that workspace. */
  datatype Worker = Worker(call: CallId, workspace: Option<Workspace>, at: Point)

  /** The answer of the store or provider to one operation. */
  datatype Reply =
    | Fine
    | Broken
    | Lost
    | Transcription(transcript: Transcript)
    | Analyzed(playbook: Option<Playbook>, answer: Answer)

  // ----- the status compare-and-set -----

  predicate Visible(row: Option<Row>, workspace: Option<Workspace>) {
    row.Some? && (workspace.None? || row.value.workspace == workspace.value)
  }

  predicate Swaps(row: Option<Row>, workspace: Option<Workspace>, from: Status, to: Status) {
    CanTransition(from, to) && Visible(row, workspace) && row.value.status == from
  }

  /** The row after `Transition` or `TransitionInWorkspace` answered with `reply`. */
  function Swapped(row: Option<Row>, workspace: Option<Workspace>, from: Status, to: Status,
                   message: Option<string>, reply: Reply): Option<Row>
  {
    if Swaps(row, workspace, from, to) && !reply.Broken?
    then Some(row.value.(status := to, error := message)) else row
  }

  predicate SwapSucceeds(row: Option<Row>, workspace: Option<Workspace>, from: Status, to: Status, reply: Reply) {
    Swaps(row, workspace, from, to) && !reply.Broken? && !reply.Lost?
  }

  predicate Failure(reply: Reply) {
    reply.Broken? || reply.Lost?
  }

  // ----- one operation -----

  /** The status write a worker is about to attempt, if its next operation is one. */
  function Attempt(at: Point): Option<(Status, Status, Option<string>)> {
    match at
    case Loop(Failed) => Some((Failed, Queued, None))
    case Loop(Uploaded) => Some((Uploaded, Transcribing, None))
    case Loop(Queued) => Some((Queued, Transcribing, None))
    case ReadyTranscribed => Some((Transcribing, Transcribed, None))
    case Loop(Transcribed) => Some((Transcribed, Analyzing, None))
    case ReadyCompleted => Some((Analyzing, Completed, None))
    case Failing(from, message) => Some((from, Failed, Some(message)))
    case _ => None
  }

  /** Where a worker goes once its status write succeeded, or its load found this status. */
  function Arrive(status: Status): Point {
    if status.Completed? then Done(Finished) else Loop(status)
  }

  function AfterWrite(at: Point, to: Status): Point {
    if at.Failing? then Done(Marked(at.message)) else Arrive(to)
  }

  /** The rubric `process` scores with: a playbook's when the lookup found one with criteria. */
  function ChosenRubric(playbook: Option<Playbook>): Rubric {
    if playbook.Some? && playbook.value.criteria != [] then RubricOf(playbook.value.criteria) else DefaultRubric()
  }

  function AnalyzePoint(source: Transcript, reply: Reply): Point {
    if !reply.Analyzed? then Failing(Analyzing, ANALYSIS_PROVIDER_FAILURE) else
      var rubric := ChosenRubric(reply.playbook);
      var validated := ValidateAnswer(reply.answer, rubric);
      if validated.Err? then Failing(Analyzing, ANALYSIS_PROVIDER_FAILURE)
      else if !Accepts(validated.value.criterionResults, rubric) then Failing(Analyzing, ANALYSIS_PROVIDER_FAILURE)
      else GotResult(CallResult(validated.value, Calculated(validated.value.criterionResults, rubric), source))
  }

  /** The durable effect of the worker's next operation. */
  function NextRow(row: Option<Row>, w: Worker, reply: Reply): Option<Row> {
    match w.at
    case GotTranscript(t) =>
      if row.Some? && !reply.Broken? then Some(row.value.(transcript := Some(t))) else row
    case GotResult(result) =>
      if row.Some? && Storable(result.score) && !reply.Broken?
      then Some(row.value.(result := Some(result))) else row
    case _ =>
      var attempt := Attempt(w.at);
      if attempt.Some?
      then Swapped(row, w.workspace, attempt.value.0, attempt.value.1, attempt.value.2, reply) else row
  }

  /** Where the worker is after it. */
  function NextPoint(row: Option<Row>, w: Worker, reply: Reply): Point {
    match w.at
    case Start =>
      if Failure(reply) || !Visible(row, w.workspace) then Done(LoadFailed) else Arrive(row.value.status)
    case Loop(Transcribing) =>
      if Failure(reply) then Failing(Transcribing, PROCESSING_FAILURE)
      else if row.Some? && row.value.transcript.Some? then ReadyTranscribed else NeedTranscript
    case NeedTranscript =>
      if reply.Transcription? then GotTranscript(reply.transcript)
      else Failing(Transcribing, TRANSCRIPTION_PROVIDER_FAILURE)
    case GotTranscript(_) =>
      if Failure(reply) || row.None? then Failing(Transcribing, PROCESSING_FAILURE) else ReadyTranscribed
    case Loop(Analyzing) =>
      if Failure(reply) then Failing(Analyzing, PROCESSING_FAILURE)
      else if row.Some? && row.value.result.Some? then ReadyCompleted else NeedAnalysis
    case NeedAnalysis =>
      if Failure(reply) || row.None? || row.value.transcript.None? then Failing(Analyzing, PROCESSING_FAILURE)
      else GotSource(row.value.transcript.value)
    case GotSource(source) => AnalyzePoint(source, reply)
    case GotResult(result) =>
      if Failure(reply) || row.None? || !Storable(result.score) then Failing(Analyzing, PROCESSING_FAILURE)
      else ReadyCompleted
    case Done(_) => w.at
    case _ =>
      var attempt := Attempt(w.at);
      if attempt.Some? && SwapSucceeds(row, w.workspace, attempt.value.0, attempt.value.1, reply)
      then AfterWrite(w.at, attempt.value.1) else Done(TransitionFailed)
  }

  function Next(row: Option<Row>, w: Worker, reply: Reply): (Option<Row>, Worker) {
    (NextRow(row, w, reply), w.(at := NextPoint(row, w, reply)))
  }

  // ----- termination -----

  /** Every operation takes a worker to a lower rank, whatever it answers. */
  function Rank(at: Point): nat {
    match at
    case Start => 15
    case Loop(Failed) => 14
    case Loop(Uploaded) => 13
    case Loop(Queued) => 13
    case Loop(Transcribing) => 12
    case NeedTranscript => 11
    case GotTranscript(_) => 10
    case ReadyTranscribed => 9
    case Loop(Transcribed) => 8
    case Loop(Analyzing) => 7
    case NeedAnalysis => 6
    case GotSource(_) => 5
    case GotResult(_) => 4
    case ReadyCompleted => 3
    case Loop(Completed) => 2
    case Failing(_, _) => 1
    case Done(_) => 0
  }

  lemma RankFalls(row: Option<Row>, w: Worker, reply: Reply)
    requires !w.at.Done?
    ensures Rank(NextPoint(row, w, reply)) < Rank(w.at)
  {
  }

  // ----- what every durable row satisfies -----

  ghost predicate RowInv(row: Row) {
    && (row.status.Transcribed? || row.status.Analyzing? || row.status.Completed? ==> row.transcript.Some?)
    && (row.status == Completed ==> row.result.Some?)
    && (row.result.Some? ==> row.transcript.Some? && Sound(row.result.value))
    && (row.error.Some? <==> row.status == Failed)
    && (row.error.Some? ==> FailureMessage(row.error.value))
  }

  /** A result validated against some rubric, holding the score that rubric gives it. */
  ghost predicate Sound(result: CallResult) {
    && Storable(result.score)
    && exists rubric :: Scores(rubric, result)
  }

  ghost predicate Scores(rubric: Rubric, result: CallResult) {
    && Analysis.Complete(result.analysis, rubric)
    && result.score == Calculated(result.analysis.criterionResults, rubric)
  }

  ghost predicate MaybeRow(row: Option<Row>) {
    row.Some? ==> RowInv(row.value)
  }

  predicate PastTranscription(at: Point) {
    || at == Loop(Transcribed) || at == Loop(Analyzing) || at.ReadyTranscribed?
    || at.NeedAnalysis? || at.GotSource? || at.GotResult?
  }

  /** What a worker at a point may rely on, as long as the row has not been deleted. */
  ghost predicate PointInv(row: Option<Row>, at: Point) {
    && (at.Failing? ==> (at.from.Transcribing? || at.from.Analyzing?) && FailureMessage(at.message))
    && (at.Done? && at.outcome.Marked? ==> FailureMessage(at.outcome.message))
    && at != Loop(Completed)
    && (at.GotResult? ==> exists rubric :: Scores(rubric, at.result))
    && (row.Some? ==>
          && (PastTranscription(at) ==> row.value.transcript.Some?)
          && (at.ReadyCompleted? ==> row.value.result.Some?)
          && (at == Done(Finished) ==> row.value.status == Completed))
  }

  /** How a row may change in one step of anybody: deleted for good, or moved along. */
  ghost predicate Evolves(row: Option<Row>, row': Option<Row>) {
    && (row.None? ==> row'.None?)
    && (row.Some? && row'.Some? ==>
          && row'.value.workspace == row.value.workspace
          && (row.value.transcript.Some? ==> row'.value.transcript.Some?)
          && (row.value.result.Some? ==> row'.value.result.Some?)
          && (row'.value.status == row.value.status || CanTransition(row.value.status, row'.value.status)))
  }

  /** A worker's knowledge survives whatever others do to the row. */
  lemma PointInvIsStable(row: Option<Row>, row': Option<Row>, at: Point)
    requires PointInv(row, at) && Evolves(row, row')
    ensures PointInv(row', at)
  {
  }

  lemma AnalyzePointInv(row: Option<Row>, source: Transcript, reply: Reply)
    requires row.Some? ==> row.value.transcript.Some?
    ensures PointInv(row, AnalyzePoint(source, reply))
  {
    var at := AnalyzePoint(source, reply);
    if at.GotResult? {
      var rubric := ChosenRubric(reply.playbook);
      ParsedIsComplete(if reply.answer.raw.Some? then reply.answer.raw.value else Encode(reply.answer.value), rubric);
      assert Scores(rubric, at.result);
    }
  }

  /** A status write needs the checkpoint its new status promises, and a message iff it fails. */
  ghost predicate FitsStatus(row: Row, to: Status, message: Option<string>) {
    && (to.Transcribed? || to.Analyzing? || to.Completed? ==> row.transcript.Some?)
    && (to.Completed? ==> row.result.Some?)
    && (message.Some? <==> to.Failed?)
    && (message.Some? ==> FailureMessage(message.value))
  }

  lemma AttemptFits(row: Row, at: Point)
    requires row.result.Some? ==> row.transcript.Some?
    requires PointInv(Some(row), at) && Attempt(at).Some?
    ensures FitsStatus(row, Attempt(at).value.1, Attempt(at).value.2)
  {
    match at
    case Failing(from, message) =>
    case Loop(status) =>
    case _ =>
  }

  lemma SwappedIsSound(row: Option<Row>, workspace: Option<Workspace>, from: Status, to: Status,
                       message: Option<string>, reply: Reply)
    requires MaybeRow(row) && (row.Some? ==> FitsStatus(row.value, to, message))
    ensures MaybeRow(Swapped(row, workspace, from, to, message, reply))
    ensures Evolves(row, Swapped(row, workspace, from, to, message, reply))
  {
  }

  lemma SwapIsSound(row: Option<Row>, w: Worker, reply: Reply)
    requires MaybeRow(row) && PointInv(row, w.at) && Attempt(w.at).Some?
    ensures MaybeRow(NextRow(row, w, reply))
    ensures Evolves(row, NextRow(row, w, reply))
  {
    var (from, to, message) := Attempt(w.at).value;
    if row.Some? { AttemptFits(row.value, w.at); }
    SwappedIsSound(row, w.workspace, from, to, message, reply);
  }

  lemma CheckpointIsSound(row: Option<Row>, w: Worker, reply: Reply)
    requires MaybeRow(row) && PointInv(row, w.at) && Attempt(w.at).None?
    ensures MaybeRow(NextRow(row, w, reply))
    ensures Evolves(row, NextRow(row, w, reply))
  {
  }

  lemma AfterWriteKnows(row: Row, at: Point, to: Status, message: Option<string>)
    requires PointInv(Some(row), at) && Attempt(at).Some? && Attempt(at).value.1 == to
    ensures PointInv(Some(row.(status := to, error := message)), AfterWrite(at, to))
  {
    match at
    case Failing(_, _) =>
    case Loop(status) =>
    case _ =>
  }

  lemma SwapPointIsSound(row: Option<Row>, w: Worker, reply: Reply)
    requires PointInv(row, w.at) && Attempt(w.at).Some?
    ensures PointInv(NextRow(row, w, reply), NextPoint(row, w, reply))
  {
    var (from, to, message) := Attempt(w.at).value;
    if SwapSucceeds(row, w.workspace, from, to, reply) {
      AfterWriteKnows(row.value, w.at, to, message);
      assert NextRow(row, w, reply) == Some(row.value.(status := to, error := message));
      assert NextPoint(row, w, reply) == AfterWrite(w.at, to);
    } else {
      assert NextPoint(row, w, reply) == Done(TransitionFailed);
    }
  }

  lemma CheckpointPointIsSound(row: Option<Row>, w: Worker, reply: Reply)
    requires MaybeRow(row) && PointInv(row, w.at) && Attempt(w.at).None?
    ensures PointInv(NextRow(row, w, reply), NextPoint(row, w, reply))
  {
    match w.at
    case GotSource(source) => AnalyzePointInv(row, source, reply);
    case GotResult(_) => StoringIsSound(row, w, reply);
    case Start => LoadingIsSound(row, w, reply);
    case _ => ReadingIsSound(row, w, reply);
  }

  lemma LoadingIsSound(row: Option<Row>, w: Worker, reply: Reply)
    requires MaybeRow(row) && w.at.Start?
    ensures PointInv(NextRow(row, w, reply), NextPoint(row, w, reply))
  {
  }

  lemma StoringIsSound(row: Option<Row>, w: Worker, reply: Reply)
    requires w.at.GotResult?
    ensures PointInv(NextRow(row, w, reply), NextPoint(row, w, reply))
  {
    if Failure(reply) || row.None? || !Storable(w.at.result.score) {
      assert NextPoint(row, w, reply) == Failing(Analyzing, PROCESSING_FAILURE);
    } else {
      assert NextPoint(row, w, reply) == ReadyCompleted;
      assert NextRow(row, w, reply) == Some(row.value.(result := Some(w.at.result)));
    }
  }

  lemma ReadingIsSound(row: Option<Row>, w: Worker, reply: Reply)
    requires PointInv(row, w.at) && Attempt(w.at).None?
    requires !w.at.Start? && !w.at.GotSource? && !w.at.GotResult?
    ensures PointInv(NextRow(row, w, reply), NextPoint(row, w, reply))
  {
  }

  /** One operation of a worker keeps the row's invariant and its own knowledge. */
  lemma OperationIsSound(row: Option<Row>, w: Worker, reply: Reply)
    requires MaybeRow(row) && PointInv(row, w.at)
    ensures MaybeRow(NextRow(row, w, reply))
    ensures Evolves(row, NextRow(row, w, reply))
    ensures PointInv(NextRow(row, w, reply), NextPoint(row, w, reply))
  {
    if Attempt(w.at).Some? {
      SwapIsSound(row, w, reply);
      SwapPointIsSound(row, w, reply);
    } else {
      CheckpointIsSound(row, w, reply);
      CheckpointPointIsSound(row, w, reply);
    }
  }

  /** Every status write a worker attempts, each call of `fail` included, is in the table. */
  lemma AttemptsAreAllowed(row: Option<Row>, at: Point)
    requires PointInv(row, at) && Attempt(at).Some?
    ensures CanTransition(Attempt(at).value.0, Attempt(at).value.1)
  {
  }

  /** A status write changes the row exactly when it is allowed, visible, expected and not refused. */
  lemma SwapsExactly(row: Row, workspace: Option<Workspace>, from: Status, to: Status, message: Option<string>, reply: Reply)
    ensures var row' := Swapped(Some(row), workspace, from, to, message, reply);
            var written := CanTransition(from, to) && row.status == from && !reply.Broken?
                           && (workspace.Some? ==> workspace.value == row.workspace);
            && row'.Some? && row'.value.workspace == row.workspace
            && row'.value.transcript == row.transcript && row'.value.result == row.result
            && row'.value.status == (if written then to else row.status)
            && row'.value.error == (if written then message else row.error)
            && (SwapSucceeds(Some(row), workspace, from, to, reply) <==> written && !reply.Lost?)
    ensures Swapped(None, workspace, from, to, message, reply).None? && !SwapSucceeds(None, workspace, from, to, reply)
  {
  }

  /**
   What failed decides the message and the status it is recorded under: the transcription
   provider, the analysis provider or its answer, and anything else.
   */
  lemma FailuresSayWhatFailed(row: Option<Row>, w: Worker, reply: Reply)
    requires NextPoint(row, w, reply).Failing?
    ensures var failing := NextPoint(row, w, reply);
            && failing.from == (if w.at == Loop(Transcribing) || w.at.NeedTranscript? || w.at.GotTranscript? then Transcribing else Analyzing)
            && failing.message == (match w.at
                 case NeedTranscript => "transcription provider failed"
                 case GotSource(_) => "analysis provider failed"
                 case _ => "call processing failed")
  {
  }

  /** No error passes unnoticed, not even one whose effect is stored: the delivery fails or ends at once. */
  lemma ErrorsEndTheDelivery(row: Option<Row>, w: Worker, reply: Reply)
    requires (reply.Broken? || reply.Lost?) && !w.at.Done?
    ensures NextPoint(row, w, reply).Failing? || NextPoint(row, w, reply) == Done(TransitionFailed)
            || NextPoint(row, w, reply) == Done(LoadFailed)
    ensures reply.Broken? ==> NextRow(row, w, reply) == row
  {
  }

  /**
   The branch for a missing transcript at analysis, exactly: without a store error it
   is taken if and only if the call has been deleted meanwhile.
   */
  lemma MissingTranscriptMeansDeleted(row: Option<Row>, w: Worker, reply: Reply)
    requires MaybeRow(row) && PointInv(row, w.at) && w.at.NeedAnalysis? && !Failure(reply)
    ensures NextPoint(row, w, reply).Failing? <==> row.None?
  {
  }

  /** The branch for a failing score calculation after validation is never taken. */
  lemma ScoringNeverFailsAfterValidation(source: Transcript, reply: Reply)
    requires reply.Analyzed? && ValidateAnswer(reply.answer, ChosenRubric(reply.playbook)).Ok?
    ensures AnalyzePoint(source, reply).GotResult?
  {
    ScoringAfterValidationNeverFails(reply.answer, ChosenRubric(reply.playbook));
  }

  /** A worker that has not loaded its call, or failed to. */
  predicate Unloaded(at: Point) {
    at.Start? || at == Done(LoadFailed)
  }

  /** A worker past its load works on a row of the workspace it was delivered for. */
  predicate Scoped(row: Option<Row>, w: Worker) {
    Unloaded(w.at) || w.workspace.None? || row.None? || row.value.workspace == w.workspace.value
  }

  lemma OperationStaysScoped(row: Option<Row>, w: Worker, reply: Reply)
    requires Scoped(row, w)
    ensures Scoped(NextRow(row, w, reply), w.(at := NextPoint(row, w, reply)))
    ensures NextRow(row, w, reply) != row && w.workspace.Some? ==> row.Some? && row.value.workspace == w.workspace.value
  {
    assert row.Some? ==> NextRow(row, w, reply).Some? && NextRow(row, w, reply).value.workspace == row.value.workspace;
    if w.at.Start? && row.Some? && w.workspace.Some? && w.workspace.value != row.value.workspace {
      ForeignWorkspaceChangesNothing(row, w, reply);
    }
  }

  /** A delivery scoped to another workspace never changes the row. */
  lemma ForeignWorkspaceChangesNothing(row: Option<Row>, w: Worker, reply: Reply)
    requires row.Some? && w.workspace.Some? && w.workspace.value != row.value.workspace && w.at.Start?
    ensures NextRow(row, w, reply) == row && NextPoint(row, w, reply) == Done(LoadFailed)
  {
  }

  // ----- a fault-free run on its own -----

  /** What providers and stores answer when nothing goes wrong. */
  datatype Luck = Luck(transcript: Transcript, playbook: Option<Playbook>, answer: Answer)

  function Helpful(luck: Luck, at: Point): Reply {
    if at.NeedTranscript? then Transcription(luck.transcript)
    else if at.GotSource? then Analyzed(luck.playbook, luck.answer)
    else Fine
  }

  /** The answer validates for the chosen rubric and its score can be stored. */
  predicate Lucky(luck: Luck) {
    var rubric := ChosenRubric(luck.playbook);
    var validated := ValidateAnswer(luck.answer, rubric);
    validated.Ok? && Storable(Calculated(validated.value.criterionResults, rubric))
  }

  function Writes(row: Option<Row>, row': Option<Row>): nat {
    if row.Some? && row'.Some? && row.value.status != row'.value.status then 1 else 0
  }

  /** Run one worker to its end: the final row, the final point, the status writes made. */
  function Drive(row: Option<Row>, w: Worker, luck: Luck): (Option<Row>, Point, nat)
    decreases Rank(w.at)
  {
    if w.at.Done? then (row, w.at, 0) else
      var reply := Helpful(luck, w.at);
      var row' := NextRow(row, w, reply);
      RankFalls(row, w, reply);
      var rest := Drive(row', w.(at := NextPoint(row, w, reply)), luck);
      (rest.0, rest.1, rest.2 + Writes(row, row'))
  }

  lemma DriveGoesOn(row: Option<Row>, w: Worker, luck: Luck)
    requires !w.at.Done?
    ensures var row' := NextRow(row, w, Helpful(luck, w.at));
            var rest := Drive(row', w.(at := NextPoint(row, w, Helpful(luck, w.at))), luck);
            Drive(row, w, luck) == (rest.0, rest.1, rest.2 + Writes(row, row'))
  {
  }

  /** On its own, a worker's idea of the status is the row's. */
  ghost predicate InStep(row: Row, at: Point) {
    match at
    case Start => true
    case Loop(status) => row.status == status
    case NeedTranscript => row.status == Transcribing
    case GotTranscript(_) => row.status == Transcribing
    case ReadyTranscribed => row.status == Transcribing
    case NeedAnalysis => row.status == Analyzing
    case GotSource(_) => row.status == Analyzing
    case GotResult(result) => row.status == Analyzing && Storable(result.score)
    case ReadyCompleted => row.status == Analyzing
    case Failing(_, _) => false
    case Done(outcome) => outcome.Finished?
  }

  lemma LuckySwapStaysInStep(row: Row, w: Worker)
    requires RowInv(row) && PointInv(Some(row), w.at) && InStep(row, w.at) && Attempt(w.at).Some?
    requires Visible(Some(row), w.workspace)
    ensures var row' := NextRow(Some(row), w, Fine);
            var at' := NextPoint(Some(row), w, Fine);
            && row'.Some? && Visible(row', w.workspace) && InStep(row'.value, at')
            && Remaining(row'.value.status) + 1 == Remaining(row.status)
  {
    var (from, to, message) := Attempt(w.at).value;
    AttemptsAreAllowed(Some(row), w.at);
    assert row.status == from;
    assert SwapSucceeds(Some(row), w.workspace, from, to, Fine);
  }

  lemma LuckyCheckpointStaysInStep(row: Row, w: Worker, luck: Luck)
    requires RowInv(row) && PointInv(Some(row), w.at) && InStep(row, w.at) && Attempt(w.at).None?
    requires !w.at.Done? && Visible(Some(row), w.workspace) && Lucky(luck)
    ensures var row' := NextRow(Some(row), w, Helpful(luck, w.at));
            var at' := NextPoint(Some(row), w, Helpful(luck, w.at));
            && row'.Some? && row'.value.workspace == row.workspace && row'.value.status == row.status
            && InStep(row'.value, at')
  {
    if w.at.GotSource? {
      ScoringNeverFailsAfterValidation(w.at.source, Helpful(luck, w.at));
    }
  }

  lemma LuckyStepStaysInStep(row: Row, w: Worker, luck: Luck)
    requires RowInv(row) && PointInv(Some(row), w.at) && InStep(row, w.at) && !w.at.Done?
    requires Visible(Some(row), w.workspace) && Lucky(luck)
    ensures var row' := NextRow(Some(row), w, Helpful(luck, w.at));
            var at' := NextPoint(Some(row), w, Helpful(luck, w.at));
            && row'.Some? && Visible(row', w.workspace) && InStep(row'.value, at')
            && Remaining(row'.value.status) + Writes(Some(row), row') == Remaining(row.status)
  {
    if Attempt(w.at).Some? {
      assert Helpful(luck, w.at) == Fine;
      LuckySwapStaysInStep(row, w);
    } else {
      LuckyCheckpointStaysInStep(row, w, luck);
    }
  }

  /** The transcript a fault-free run ends with: a stored one is reused, never redone. */
  function FinalTranscript(row: Row, at: Point, luck: Luck): Transcript {
    match at
    case GotTranscript(t) => t
    case NeedTranscript => luck.transcript
    case _ => if row.transcript.Some? then row.transcript.value else luck.transcript
  }

  /** Points from which a stored result is still found before a new one is computed. */
  predicate BeforeAnalysis(at: Point) {
    !at.NeedAnalysis? && !at.GotSource? && !at.GotResult?
  }

  lemma LuckyStepKeepsCheckpoints(row: Row, w: Worker, luck: Luck)
    requires PointInv(Some(row), w.at) && InStep(row, w.at) && !w.at.Done?
    requires Visible(Some(row), w.workspace)
    requires NextRow(Some(row), w, Helpful(luck, w.at)).Some?
    ensures var row' := NextRow(Some(row), w, Helpful(luck, w.at)).value;
            var at' := NextPoint(Some(row), w, Helpful(luck, w.at));
            && FinalTranscript(row', at', luck) == FinalTranscript(row, w.at, luck)
            && (row.result.Some? && BeforeAnalysis(w.at) ==> row'.result == row.result && BeforeAnalysis(at'))
  {
  }

  lemma {:induction false} LuckyRunEnds(row: Row, w: Worker, luck: Luck)
    requires RowInv(row) && PointInv(Some(row), w.at) && InStep(row, w.at)
    requires Visible(Some(row), w.workspace) && Lucky(luck)
    ensures var end := Drive(Some(row), w, luck);
            && end.1 == Done(Finished)
            && end.0.Some? && RowInv(end.0.value) && end.0.value.status == Completed
            && end.2 == Remaining(row.status) <= 5
    decreases Rank(w.at)
  {
    if !w.at.Done? {
      var reply := Helpful(luck, w.at);
      OperationIsSound(Some(row), w, reply);
      LuckyStepStaysInStep(row, w, luck);
      RankFalls(Some(row), w, reply);
      DriveGoesOn(Some(row), w, luck);
      LuckyRunEnds(NextRow(Some(row), w, reply).value, w.(at := NextPoint(Some(row), w, reply)), luck);
    }
  }

  lemma {:induction false} LuckyRunKeeps(row: Row, w: Worker, luck: Luck)
    requires RowInv(row) && PointInv(Some(row), w.at) && InStep(row, w.at)
    requires Visible(Some(row), w.workspace) && Lucky(luck)
    requires w.at.Done? ==> row.transcript.Some?
    ensures var end := Drive(Some(row), w, luck).0;
            && end.Some?
            && end.value.transcript == Some(FinalTranscript(row, w.at, luck))
            && (row.result.Some? && BeforeAnalysis(w.at) ==> end.value.result == row.result)
    decreases Rank(w.at)
  {
    if !w.at.Done? {
      var reply := Helpful(luck, w.at);
      OperationIsSound(Some(row), w, reply);
      LuckyStepStaysInStep(row, w, luck);
      LuckyStepKeepsCheckpoints(row, w, luck);
      RankFalls(Some(row), w, reply);
      DriveGoesOn(Some(row), w, luck);
      LuckyRunKeeps(NextRow(Some(row), w, reply).value, w.(at := NextPoint(Some(row), w, reply)), luck);
    }
  }

  /**
   From every row that can be reached, one fault-free delivery on its own ends with
   the call completed, after exactly as many status writes as its status has left:
   at most five. Checkpoints already stored are reused, not recomputed.
   */
  lemma LuckyRunCompletes(row: Row, w: Worker, luck: Luck)
    requires RowInv(row) && PointInv(Some(row), w.at) && InStep(row, w.at)
    requires Visible(Some(row), w.workspace) && Lucky(luck)
    ensures var end := Drive(Some(row), w, luck);
            && end.1 == Done(Finished)
            && end.0.Some? && end.0.value.status == Completed
            && end.0.value.transcript.Some? && end.0.value.result.Some?
            && end.2 == Remaining(row.status) <= 5
            && (!w.at.Done? ==> end.0.value.transcript == Some(FinalTranscript(row, w.at, luck)))
            && (row.result.Some? && BeforeAnalysis(w.at) ==> end.0.value.result == row.result)
  {
    LuckyRunEnds(row, w, luck);
    LuckyRunKeeps(row, w, luck);
  }

  // ----- what a call is scored with -----

  /** The transcript the result of a run is computed from. */
  function SourceOf(row: Row, at: Point, luck: Luck): Transcript {
    match at
    case GotSource(source) => source
    case GotResult(result) => result.source
    case _ => FinalTranscript(row, at, luck)
  }

  lemma {:induction false} LuckyRunStores(row: Row, w: Worker, luck: Luck)
    requires RowInv(row) && PointInv(Some(row), w.at) && InStep(row, w.at) && row.result.None?
    requires Visible(Some(row), w.workspace) && Lucky(luck) && !w.at.Done?
    ensures var end := Drive(Some(row), w, luck).0;
            var rubric := ChosenRubric(luck.playbook);
            var validated := ValidateAnswer(luck.answer, rubric).value;
            && end.Some?
            && end.value.result == Some(if w.at.GotResult? then w.at.result else
                 CallResult(validated, Calculated(validated.criterionResults, rubric), SourceOf(row, w.at, luck)))
    decreases Rank(w.at)
  {
    var reply := Helpful(luck, w.at);
    var row' := NextRow(Some(row), w, reply);
    var w' := w.(at := NextPoint(Some(row), w, reply));
    OperationIsSound(Some(row), w, reply);
    LuckyStepStaysInStep(row, w, luck);
    RankFalls(Some(row), w, reply);
    DriveGoesOn(Some(row), w, luck);
    if w.at.GotResult? {
      LuckyRunKeeps(row'.value, w', luck);
    } else {
      LuckyStepKeepsSource(row, w, luck);
      LuckyRunStores(row'.value, w', luck);
    }
  }

  lemma LuckyStepKeepsSource(row: Row, w: Worker, luck: Luck)
    requires PointInv(Some(row), w.at) && InStep(row, w.at) && row.result.None?
    requires Visible(Some(row), w.workspace) && Lucky(luck) && !w.at.Done? && !w.at.GotResult?
    ensures var row' := NextRow(Some(row), w, Helpful(luck, w.at));
            var at' := NextPoint(Some(row), w, Helpful(luck, w.at));
            var rubric := ChosenRubric(luck.playbook);
            var validated := ValidateAnswer(luck.answer, rubric).value;
            && row'.Some? && row'.value.result.None?
            && SourceOf(row'.value, at', luck) == SourceOf(row, w.at, luck)
            && (at'.GotResult? ==>
                  at'.result == CallResult(validated, Calculated(validated.criterionResults, rubric), SourceOf(row, w.at, luck)))
  {
    if Attempt(w.at).Some? {
      LuckySwapKeepsSource(row, w, luck);
    } else if w.at.GotSource? {
      LuckyAnalysisKeepsSource(row, w, luck);
    } else {
      LuckyReadKeepsSource(row, w, luck);
    }
  }

  lemma LuckyAnalysisKeepsSource(row: Row, w: Worker, luck: Luck)
    requires w.at.GotSource? && ValidateAnswer(luck.answer, ChosenRubric(luck.playbook)).Ok?
    ensures var rubric := ChosenRubric(luck.playbook);
            var validated := ValidateAnswer(luck.answer, rubric).value;
            && NextRow(Some(row), w, Helpful(luck, w.at)) == Some(row)
            && NextPoint(Some(row), w, Helpful(luck, w.at)) ==
                 GotResult(CallResult(validated, Calculated(validated.criterionResults, rubric), w.at.source))
  {
    ValidatedBecomesResult(w.at.source, luck.playbook, luck.answer);
  }

  lemma ValidatedBecomesResult(source: Transcript, playbook: Option<Playbook>, answer: Answer)
    requires ValidateAnswer(answer, ChosenRubric(playbook)).Ok?
    ensures var validated := ValidateAnswer(answer, ChosenRubric(playbook)).value;
            AnalyzePoint(source, Analyzed(playbook, answer)) ==
              GotResult(CallResult(validated, Calculated(validated.criterionResults, ChosenRubric(playbook)), source))
  {
    ScoringAfterValidationNeverFails(answer, ChosenRubric(playbook));
  }

  lemma LuckyReadKeepsSource(row: Row, w: Worker, luck: Luck)
    requires PointInv(Some(row), w.at) && InStep(row, w.at) && row.result.None?
    requires Visible(Some(row), w.workspace) && Attempt(w.at).None?
    requires !w.at.Done? && !w.at.GotSource? && !w.at.GotResult?
    ensures var row' := NextRow(Some(row), w, Helpful(luck, w.at));
            var at' := NextPoint(Some(row), w, Helpful(luck, w.at));
            && row'.Some? && row'.value.result.None? && !at'.GotResult?
            && SourceOf(row'.value, at', luck) == SourceOf(row, w.at, luck)
  {
  }

  lemma LuckySwapKeepsSource(row: Row, w: Worker, luck: Luck)
    requires PointInv(Some(row), w.at) && InStep(row, w.at) && row.result.None?
    requires Visible(Some(row), w.workspace) && Attempt(w.at).Some?
    ensures var row' := NextRow(Some(row), w, Helpful(luck, w.at));
            var at' := NextPoint(Some(row), w, Helpful(luck, w.at));
            && row'.Some? && row'.value.result.None? && !at'.GotResult?
            && SourceOf(row'.value, at', luck) == SourceOf(row, w.at, luck)
  {
    var (from, to, message) := Attempt(w.at).value;
    AttemptsAreAllowed(Some(row), w.at);
    assert SwapSucceeds(Some(row), w.workspace, from, to, Fine);
  }

  lemma AcceptedKeys(scores: map<string, CriterionScore>, rubric: Rubric)
    requires rubric != [] && Accepts(scores, rubric)
    ensures scores.Keys == KeysOf(rubric)
  {
    assert Numbers(scores).Keys == scores.Keys;
    CompleteByKeys(Numbers(scores), rubric);
    forall key | key in scores ensures key in KeysOf(rubric) {
      assert key in Numbers(scores);
      KeysAreListed(rubric, key);
    }
  }

  /** The score of an answer against a rubric: the answer's own numbers, added up over the rubric. */
  function ScoreAgainst(results: map<string, CriterionScore>, rubric: Rubric): Score {
    Score(results, Wrap(SumPoints(Numbers(results), rubric)))
  }

  /**
   A fault-free run scores the call with this rubric: it completes if and only if the answer
   validates against it and the score can be stored; then the stored result is the
   validated answer, with exactly the rubric's keys and their sum, computed from the stored
   transcript; and otherwise the call is marked failed and stores no result.
   */
  ghost predicate ScoredWith(row: Row, w: Worker, luck: Luck, rubric: Rubric) {
    var validated := ValidateAnswer(luck.answer, rubric);
    var end := Drive(Some(row), w, luck);
    && end.0.Some?
    && (end.1 == Done(Finished) <==>
          validated.Ok? && Storable(ScoreAgainst(validated.value.criterionResults, rubric)))
    && (end.1 == Done(Finished) ==>
          && end.0.value.status == Completed && end.0.value.result.Some?
          && var r := end.0.value.result.value;
             && r.analysis == validated.value && r.score == ScoreAgainst(r.analysis.criterionResults, rubric)
             && r.score.criteria.Keys == KeysOf(rubric) && end.0.value.transcript == Some(r.source))
    && (end.1 != Done(Finished) ==> end.0.value.status == Failed && end.0.value.result.None?)
  }

  lemma ScoredWithChosen(row: Row, w: Worker, luck: Luck)
    requires RowInv(row) && Visible(Some(row), w.workspace) && row.result.None? && w.at.Start?
    ensures ScoredWith(row, w, luck, ChosenRubric(luck.playbook))
  {
    var rubric := ChosenRubric(luck.playbook);
    if Lucky(luck) {
      LuckyRunCompletes(row, w, luck);
      LuckyRunStores(row, w, luck);
      ScoringNeverFailsAfterValidation(FinalTranscript(row, w.at, luck), Analyzed(luck.playbook, luck.answer));
      ScoringAfterValidationNeverFails(luck.answer, rubric);
      AcceptedKeys(ValidateAnswer(luck.answer, rubric).value.criterionResults, rubric);
    } else {
      UnluckyRunFails(row, w, luck);
    }
  }

  /** A call with a playbook that has criteria is scored with those, keys as written, and with nothing else. */
  lemma ScoredWithItsPlaybook(row: Row, w: Worker, luck: Luck, playbook: Playbook)
    requires RowInv(row) && Visible(Some(row), w.workspace) && row.result.None? && w.at.Start?
    requires luck.playbook == Some(playbook) && playbook.criteria != []
    ensures ScoredWith(row, w, luck, RubricOf(playbook.criteria))
  {
    ScoredWithChosen(row, w, luck);
  }

  /** Without a playbook, or with one that has no criteria, a call is scored with the default rubric. */
  lemma ScoredWithTheDefault(row: Row, w: Worker, luck: Luck)
    requires RowInv(row) && Visible(Some(row), w.workspace) && row.result.None? && w.at.Start?
    requires luck.playbook.None? || luck.playbook.value.criteria == []
    ensures ScoredWith(row, w, luck, DefaultRubric())
  {
    ScoredWithChosen(row, w, luck);
  }

  /** The tail of a run whose answer is refused, by validation or by the score table. */
  lemma UnluckyTail(row: Row, w: Worker, luck: Luck)
    requires w.at.GotSource? && row.status == Analyzing && Visible(Some(row), w.workspace) && !Lucky(luck)
    ensures var end := Drive(Some(row), w, luck);
            && end.1.Done? && end.1.outcome.Marked?
            && end.0 == Some(row.(status := Failed, error := Some(end.1.outcome.message)))
  {
    var at := NextPoint(Some(row), w, Helpful(luck, w.at));
    assert Drive(Some(row), w, luck).0 == Drive(Some(row), w.(at := at), luck).0;
    assert Drive(Some(row), w, luck).1 == Drive(Some(row), w.(at := at), luck).1;
    if at.GotResult? {
      UnstorableMarks(row, w.(at := at), luck);
    } else {
      FailingMarks(row, w.(at := at), luck);
    }
  }

  lemma UnstorableMarks(row: Row, w: Worker, luck: Luck)
    requires w.at.GotResult? && !Storable(w.at.result.score)
    requires row.status == Analyzing && Visible(Some(row), w.workspace)
    ensures var end := Drive(Some(row), w, luck);
            && end.1 == Done(Marked(PROCESSING_FAILURE))
            && end.0 == Some(row.(status := Failed, error := Some(PROCESSING_FAILURE)))
  {
    var w1 := w.(at := Failing(Analyzing, PROCESSING_FAILURE));
    assert NextPoint(Some(row), w, Fine) == w1.at && NextRow(Some(row), w, Fine) == Some(row);
    FailingMarks(row, w1, luck);
  }

  lemma FailingMarks(row: Row, w: Worker, luck: Luck)
    requires w.at.Failing? && w.at.from == row.status == Analyzing && Visible(Some(row), w.workspace)
    ensures var end := Drive(Some(row), w, luck);
            && end.1 == Done(Marked(w.at.message))
            && end.0 == Some(row.(status := Failed, error := Some(w.at.message)))
  {
    var w1 := w.(at := NextPoint(Some(row), w, Fine));
    assert w1.at == Done(Marked(w.at.message));
    assert Drive(NextRow(Some(row), w, Fine), w1, luck).1 == w1.at;
  }

  lemma UnluckyStepStaysInStep(row: Row, w: Worker, luck: Luck)
    requires RowInv(row) && PointInv(Some(row), w.at) && InStep(row, w.at) && row.result.None?
    requires Visible(Some(row), w.workspace)
    requires !w.at.GotSource? && !w.at.GotResult? && !w.at.ReadyCompleted? && !w.at.Done?
    ensures var row' := NextRow(Some(row), w, Helpful(luck, w.at));
            var at' := NextPoint(Some(row), w, Helpful(luck, w.at));
            && row'.Some? && Visible(row', w.workspace) && InStep(row'.value, at') && row'.value.result.None?
            && !at'.GotResult? && !at'.ReadyCompleted? && !at'.Done?
  {
  }

  /**
   The converse: when the answer is refused, by validation or because its score does
   not fit the table, a fault-free run of a call without a stored result ends with the
   call marked failed. Retrying with the same rubric and answer never gets further.
   */
  lemma {:induction false} UnluckyRunFails(row: Row, w: Worker, luck: Luck)
    requires RowInv(row) && PointInv(Some(row), w.at) && InStep(row, w.at) && row.result.None?
    requires Visible(Some(row), w.workspace) && !Lucky(luck)
    requires !w.at.GotResult? && !w.at.ReadyCompleted? && !w.at.Done?
    ensures var end := Drive(Some(row), w, luck);
            && end.1.Done? && end.1.outcome.Marked?
            && end.0.Some? && end.0.value.status == Failed && end.0.value.result.None?
    decreases Rank(w.at)
  {
    if w.at.GotSource? {
      UnluckyTail(row, w, luck);
    } else {
      var reply := Helpful(luck, w.at);
      OperationIsSound(Some(row), w, reply);
      UnluckyStepStaysInStep(row, w, luck);
      RankFalls(Some(row), w, reply);
      UnluckyRunFails(NextRow(Some(row), w, reply).value, w.(at := NextPoint(Some(row), w, reply)), luck);
    }
  }

  /** The fake provider's answer is one a fault-free run completes with, if the rubric fits the table. */
  lemma FakeProviderIsLucky(luck: Luck)
    requires luck.playbook.Some? ==> ValidPlaybook(luck.playbook.value)
    requires Fits(ChosenRubric(luck.playbook))
    requires luck.answer.raw.None? && luck.answer.value == FakeAnalysis(luck.answer.value.criterionResults)
    requires forall key :: key in luck.answer.value.criterionResults <==> Lookup(ChosenRubric(luck.playbook), key).Some?
    requires forall key | key in luck.answer.value.criterionResults ::
               luck.answer.value.criterionResults[key].score == Half(Lookup(ChosenRubric(luck.playbook), key).value.max)
    ensures Lucky(luck)
  {
    var rubric := ChosenRubric(luck.playbook);
    if luck.playbook.Some? {
      ValidRubric(luck.playbook.value);
    } else {
      DefaultRubricFacts();
    }
    FakeAnswerValidates(rubric, luck.answer);
    ScoringAfterValidationNeverFails(luck.answer, rubric);
    FittingScoresAreStorable(rubric, luck.answer.value.criterionResults);
  }
}
