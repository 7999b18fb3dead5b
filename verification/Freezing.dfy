/**
 When a completed call can still change. Transcripts and results are written before the
 status is compared, so a worker that fell behind may overwrite what another one completed.
 This says exactly which workers are a threat, step by step and over every future run.
 */
module Freezing {
  import opened Results
  import opened CallStatus
  import opened Scoring
  import opened Playbooks
  import opened Analysis
  import opened Pipeline
  import opened Workers
  import Single = SingleProcessor

  /** The worker's next operation writes something other than what is stored. */
  predicate Overwrites(row: Row, at: Point) {
    match at
    case GotTranscript(t) => Some(t) != row.transcript
    case GotResult(r) => Storable(r.score) && Some(r) != row.result
    case _ => false
  }

  /** The worker may come to overwrite the row, whatever it does next. */
  predicate Threatens(row: Row, at: Point) {
    at.NeedTranscript? || at.NeedAnalysis? || at.GotSource? || Overwrites(row, at)
  }

  ghost predicate IsCompleted(s: State, c: CallId) {
    c in s.rows && s.rows[c].status == Completed
  }

  // ----- one step -----

  lemma OperationOverwritesExactly(row: Row, w: Worker, reply: Reply)
    requires RowInv(row) && row.status == Completed
    ensures NextRow(Some(row), w, reply) != Some(row) <==> !reply.Broken? && Overwrites(row, w.at)
  {
    if Attempt(w.at).Some? {
      var (from, to, message) := Attempt(w.at).value;
      assert NextRow(Some(row), w, reply) == Swapped(Some(row), w.workspace, from, to, message, reply);
    }
  }

  /** One event changes a completed call exactly when it is an upsert that overwrites it. */
  lemma StepChangesCompletedExactly(s: State, e: Event, c: CallId)
    requires Inv(s) && Enabled(s, e) && IsCompleted(s, c) && c in Apply(s, e).rows
    ensures Apply(s, e).rows[c] != s.rows[c] <==>
            && e.Act? && s.workers[e.worker].call == c
            && !e.reply.Broken? && Overwrites(s.rows[c], s.workers[e.worker].at)
  {
    if e.Act? {
      ActTouchesOneRow(s, e.worker, e.reply);
      assert RowAt(Apply(s, e), c) == Some(Apply(s, e).rows[c]);
      assert RowAt(s, c) == Some(s.rows[c]);
      OperationOverwritesExactly(s.rows[c], s.workers[e.worker], e.reply);
    }
  }

  // ----- every future run -----

  ghost predicate Settled(s: State, c: CallId)
    requires c in s.rows
  {
    forall w | w in s.workers && s.workers[w].call == c :: !Threatens(s.rows[c], s.workers[w].at)
  }

  /** The call never changes again, unless it is deleted. */
  ghost predicate Frozen(s: State, c: CallId)
    requires c in s.rows
  {
    forall events, end | Run(s, events, end) && c in end.rows :: end.rows[c] == s.rows[c]
  }

  lemma HarmlessStaysHarmless(row: Row, w: Worker, reply: Reply)
    requires RowInv(row) && row.status == Completed && !Threatens(row, w.at)
    ensures !Threatens(row, NextPoint(Some(row), w, reply))
  {
    if Attempt(w.at).Some? {
      assert NextPoint(Some(row), w, reply) == Done(TransitionFailed);
    } else {
      CheckpointStaysHarmless(row, w, reply);
    }
  }

  lemma CheckpointStaysHarmless(row: Row, w: Worker, reply: Reply)
    requires row.status == Completed && row.transcript.Some? && row.result.Some?
    requires !Threatens(row, w.at) && Attempt(w.at).None?
    ensures !Threatens(row, NextPoint(Some(row), w, reply))
  {
    match w.at
    case Loop(status) =>
    case _ =>
  }

  lemma SettledStep(s: State, e: Event, c: CallId)
    requires Inv(s) && Enabled(s, e) && IsCompleted(s, c) && Settled(s, c) && c in Apply(s, e).rows
    ensures Apply(s, e).rows[c] == s.rows[c] && Settled(Apply(s, e), c)
  {
    var s' := Apply(s, e);
    StepChangesCompletedExactly(s, e, c);
    forall w | w in s'.workers && s'.workers[w].call == c ensures !Threatens(s'.rows[c], s'.workers[w].at) {
      if e.Act? && e.worker == w {
        assert RowAt(s, c) == Some(s.rows[c]);
        HarmlessStaysHarmless(s.rows[c], s.workers[w], e.reply);
      }
    }
  }

  lemma {:induction false} SettledMeansFrozen(s: State, events: seq<Event>, end: State, c: CallId)
    requires Inv(s) && Run(s, events, end) && IsCompleted(s, c) && Settled(s, c)
    ensures c in end.rows ==> end.rows[c] == s.rows[c]
    decreases |events|
  {
    if events != [] {
      var s' := Apply(s, events[0]);
      StepKeepsInv(s, events[0]);
      if c in s'.rows {
        SettledStep(s, events[0], c);
        SettledMeansFrozen(s', events[1..], end, c);
      } else {
        DeletedStaysDeleted(s', events[1..], end, c);
      }
    }
  }

  // ----- every threat can be carried out -----

  lemma SomeScores() returns (scores: map<string, CriterionScore>)
    ensures Accepts(scores, DefaultRubric())
  {
    DefaultRubricFacts();
    FullMarksAccepted(DefaultRubric());
    scores := FullMarks(DefaultRubric());
  }

  lemma SomeAnswer(rubric: Rubric, scores: map<string, CriterionScore>, summary: string) returns (answer: CallAnalysis)
    requires Accepts(scores, rubric) && !Blank(summary)
    ensures Analysis.Complete(answer, rubric) && answer.summary == summary
  {
    answer := FakeAnalysis(scores).(summary := summary);
    NotBlank(answer.nextAction);
  }

  lemma CompleteAnswerIsStored(answer: CallAnalysis, source: Transcript)
    requires Analysis.Complete(answer, DefaultRubric())
    ensures var at := AnalyzePoint(source, Analyzed(None, Answer(None, answer)));
            && at.GotResult? && Storable(at.result.score)
            && at.result.analysis.summary == answer.summary && at.result.source == source
  {
    ParseInvertsEncode(answer, DefaultRubric());
    DefaultRubricReadsBackExactly(answer.criterionResults, Calculated(answer.criterionResults, DefaultRubric()));
  }

  /** An analyzer may always answer with something storable that is not what is stored. */
  lemma AnalyzerMayDiffer(source: Transcript, stored: CallResult) returns (reply: Reply, result: CallResult)
    ensures AnalyzePoint(source, reply) == GotResult(result)
    ensures Storable(result.score) && result != stored && result.source == source
  {
    var summary := OtherText(stored.analysis.summary);
    var scores := SomeScores();
    var answer := SomeAnswer(DefaultRubric(), scores, summary);
    CompleteAnswerIsStored(answer, source);
    reply := Analyzed(None, Answer(None, answer));
    result := AnalyzePoint(source, reply).result;
  }

  lemma OtherText(unlike: string) returns (text: string)
    ensures text != unlike && !Blank(text)
  {
    NotBlank("s");
    NotBlank("a");
    text := if unlike == "s" then "a" else "s";
  }

  lemma AnalyzeOperation(row: Row, w: Worker, source: Transcript, reply: Reply, result: CallResult)
    requires w.at == GotSource(source) && AnalyzePoint(source, reply) == GotResult(result)
    ensures NextRow(Some(row), w, reply) == Some(row) && NextPoint(Some(row), w, reply) == GotResult(result)
  {
  }

  lemma StoreOperation(row: Row, w: Worker, result: CallResult)
    requires w.at == GotResult(result) && Storable(result.score)
    ensures NextRow(Some(row), w, Fine) == Some(row.(result := Some(result)))
  {
  }

  function OtherTranscript(unlike: Transcript): Transcript {
    Transcript(if unlike.text == "" then "t" else "", [])
  }

  /** What one operation does to the system, seen from its call. */
  lemma Acted(s: State, w: WorkerId, reply: Reply)
    requires w in s.workers && s.workers[w].call in s.rows
    ensures var c, s' := s.workers[w].call, Apply(s, Act(w, reply));
            && c in s'.rows && Some(s'.rows[c]) == NextRow(Some(s.rows[c]), s.workers[w], reply)
            && w in s'.workers
            && s'.workers[w] == s.workers[w].(at := NextPoint(Some(s.rows[c]), s.workers[w], reply))
            && Run(s, [Act(w, reply)], s')
  {
    ActTouchesOneRow(s, w, reply);
    assert [Act(w, reply)][1..] == [];
  }

  /** Two operations in a row; the first is one that leaves the row alone. */
  lemma ActedTwice(s: State, w: WorkerId, first: Reply, second: Reply, at: Point) returns (mid: State, end: State)
    requires w in s.workers && s.workers[w].call in s.rows
    requires var row := Some(s.rows[s.workers[w].call]);
             NextRow(row, s.workers[w], first) == row && NextPoint(row, s.workers[w], first) == at
    ensures var c, worker := s.workers[w].call, s.workers[w].(at := at);
            && c in mid.rows && mid.rows[c] == s.rows[c] && w in mid.workers && mid.workers[w] == worker
            && Run(s, [Act(w, first)], mid)
            && c in end.rows && Some(end.rows[c]) == NextRow(Some(s.rows[c]), worker, second)
            && Run(s, [Act(w, first)] + [Act(w, second)], end)
  {
    Acted(s, w, first);
    mid := Apply(s, Act(w, first));
    Acted(mid, w, second);
    end := Apply(mid, Act(w, second));
    RunsCompose(s, [Act(w, first)], mid, [Act(w, second)], end);
  }

  lemma SourceIsCarriedOut(s: State, w: WorkerId, source: Transcript) returns (events: seq<Event>, end: State)
    requires w in s.workers && s.workers[w].call in s.rows && s.workers[w].at == GotSource(source)
    requires s.rows[s.workers[w].call].result.Some?
    ensures Run(s, events, end)
    ensures var c := s.workers[w].call; c in end.rows && end.rows[c].result != s.rows[c].result
  {
    var row, worker := s.rows[s.workers[w].call], s.workers[w];
    var reply, result := AnalyzerMayDiffer(source, row.result.value);
    AnalyzeOperation(row, worker, source, reply, result);
    StoreOperation(row, worker.(at := GotResult(result)), result);
    var mid;
    mid, end := ActedTwice(s, w, reply, Fine, GotResult(result));
    events := [Act(w, reply)] + [Act(w, Fine)];
  }

  lemma TranscriptIsCarriedOut(s: State, w: WorkerId) returns (events: seq<Event>, end: State)
    requires w in s.workers && s.workers[w].call in s.rows && s.workers[w].at.NeedTranscript?
    requires s.rows[s.workers[w].call].transcript.Some?
    ensures Run(s, events, end)
    ensures var c := s.workers[w].call; c in end.rows && end.rows[c].transcript != s.rows[c].transcript
  {
    var other := OtherTranscript(s.rows[s.workers[w].call].transcript.value);
    var mid;
    mid, end := ActedTwice(s, w, Transcription(other), Fine, GotTranscript(other));
    events := [Act(w, Transcription(other))] + [Act(w, Fine)];
  }

  lemma AnalysisIsCarriedOut(s: State, w: WorkerId) returns (events: seq<Event>, end: State)
    requires w in s.workers && s.workers[w].call in s.rows && s.workers[w].at.NeedAnalysis?
    requires s.rows[s.workers[w].call].transcript.Some? && s.rows[s.workers[w].call].result.Some?
    ensures Run(s, events, end)
    ensures var c := s.workers[w].call; c in end.rows && end.rows[c].result != s.rows[c].result
  {
    var source := s.rows[s.workers[w].call].transcript.value;
    var mid, unused := ActedTwice(s, w, Fine, Fine, GotSource(source));
    var rest;
    rest, end := SourceIsCarriedOut(mid, w, source);
    events := [Act(w, Fine)] + rest;
    RunsCompose(s, [Act(w, Fine)], mid, rest, end);
  }

  lemma ThreatIsCarriedOut(s: State, w: WorkerId) returns (events: seq<Event>, end: State)
    requires Inv(s) && w in s.workers && IsCompleted(s, s.workers[w].call)
    requires Threatens(s.rows[s.workers[w].call], s.workers[w].at)
    ensures Run(s, events, end)
    ensures var c := s.workers[w].call; c in end.rows && end.rows[c] != s.rows[c]
  {
    assert RowInv(s.rows[s.workers[w].call]);
    match s.workers[w].at
    case GotSource(source) => events, end := SourceIsCarriedOut(s, w, source);
    case NeedTranscript => events, end := TranscriptIsCarriedOut(s, w);
    case NeedAnalysis => events, end := AnalysisIsCarriedOut(s, w);
    case _ => events, end := OverwriteIsCarriedOut(s, w);
  }

  lemma OverwriteIsCarriedOut(s: State, w: WorkerId) returns (events: seq<Event>, end: State)
    requires w in s.workers && s.workers[w].call in s.rows
    requires Overwrites(s.rows[s.workers[w].call], s.workers[w].at)
    ensures Run(s, events, end)
    ensures var c := s.workers[w].call; c in end.rows && end.rows[c] != s.rows[c]
  {
    Acted(s, w, Fine);
    events, end := [Act(w, Fine)], Apply(s, Act(w, Fine));
  }

  /**
   A completed call is frozen over every future run, of any number of processes, exactly
   when no worker on it still lacks its transcript, still has to analyse, or holds
   something other than what is stored.
   */
  lemma FrozenExactly(s: State, c: CallId)
    requires Inv(s) && IsCompleted(s, c)
    ensures Frozen(s, c) <==> Settled(s, c)
  {
    if Settled(s, c) {
      forall events, end | Run(s, events, end) && c in end.rows ensures end.rows[c] == s.rows[c] {
        SettledMeansFrozen(s, events, end, c);
      }
    } else {
      var w :| w in s.workers && s.workers[w].call == c && Threatens(s.rows[c], s.workers[w].at);
      var events, end := ThreatIsCarriedOut(s, w);
      assert Run(s, events, end) && c in end.rows && end.rows[c] != s.rows[c];
    }
  }

  // ----- two processes are enough -----

  function CallRow(status: Status, transcript: Option<Transcript>): Row {
    FreshRow(0).(status := status, transcript := transcript)
  }

  function First(at: Point): Worker {
    Worker(0, None, at)
  }

  /** One call, owned by workspace 0, and the first delivery at work on it. */
  function OneCall(status: Status, transcript: Option<Transcript>, at: Point): State {
    State(map[0 := CallRow(status, transcript)], {0}, map[1 := First(at)])
  }

  lemma Step(before: seq<Event>, status: Status, transcript: Option<Transcript>, at: Point, reply: Reply,
             status': Status, transcript': Option<Transcript>, at': Point) returns (events: seq<Event>)
    requires Run(Init, before, OneCall(status, transcript, at))
    requires NextRow(Some(CallRow(status, transcript)), First(at), reply) == Some(CallRow(status', transcript'))
    requires NextPoint(Some(CallRow(status, transcript)), First(at), reply) == at'
    ensures Run(Init, events, OneCall(status', transcript', at'))
  {
    var s := OneCall(status, transcript, at);
    RunExtends(Init, before, s, Act(1, reply));
    assert RowAt(s, 0) == Some(CallRow(status, transcript));
    assert Apply(s, Act(1, reply)).rows == OneCall(status', transcript', at').rows;
    assert Apply(s, Act(1, reply)).workers == OneCall(status', transcript', at').workers;
    events := before + [Act(1, reply)];
  }

  lemma Delivered() returns (events: seq<Event>)
    ensures Run(Init, events, OneCall(Uploaded, None, Start))
  {
    var s := State(map[0 := CallRow(Uploaded, None)], {0}, map[]);
    assert Apply(Init, Create(0, 0)) == s;
    RunExtends(Init, [], Init, Create(0, 0));
    assert Apply(s, Deliver(1, 0, None)) == OneCall(Uploaded, None, Start);
    RunExtends(Init, [] + [Create(0, 0)], s, Deliver(1, 0, None));
    events := [] + [Create(0, 0)] + [Deliver(1, 0, None)];
  }

  lemma StalledInTranscription(t: Transcript) returns (events: seq<Event>)
    ensures Run(Init, events, OneCall(Transcribing, None, GotTranscript(t)))
  {
    events := Delivered();
    events := Step(events, Uploaded, None, Start, Fine, Uploaded, None, Loop(Uploaded));
    events := Step(events, Uploaded, None, Loop(Uploaded), Fine, Transcribing, None, Loop(Transcribing));
    events := Step(events, Transcribing, None, Loop(Transcribing), Fine, Transcribing, None, NeedTranscript);
    events := Step(events, Transcribing, None, NeedTranscript, Transcription(t), Transcribing, None, GotTranscript(t));
  }

  lemma StalledBeforeAnalysis(t: Transcript) returns (events: seq<Event>)
    ensures Run(Init, events, OneCall(Analyzing, Some(t), NeedAnalysis))
  {
    events := StalledInTranscription(t);
    events := Step(events, Transcribing, None, GotTranscript(t), Fine, Transcribing, Some(t), ReadyTranscribed);
    events := Step(events, Transcribing, Some(t), ReadyTranscribed, Fine, Transcribed, Some(t), Loop(Transcribed));
    events := Step(events, Transcribed, Some(t), Loop(Transcribed), Fine, Analyzing, Some(t), Loop(Analyzing));
    events := Step(events, Analyzing, Some(t), Loop(Analyzing), Fine, Analyzing, Some(t), NeedAnalysis);
  }

  lemma {:induction false} DriveStaysCoherent(row: Row, w: Worker, luck: Luck)
    requires RowInv(row) && PointInv(Some(row), w.at)
    requires Single.Coherent(row) && Single.Alone(row, w.at)
    ensures var end := Drive(Some(row), w, luck).0; end.Some? && Single.Coherent(end.value)
    decreases Rank(w.at)
  {
    if !w.at.Done? {
      var reply := Helpful(luck, w.at);
      Single.OperationAlone(row, w, reply);
      OperationIsSound(Some(row), w, reply);
      RankFalls(Some(row), w, reply);
      DriveStaysCoherent(NextRow(Some(row), w, reply).value, w.(at := NextPoint(Some(row), w, reply)), luck);
    }
  }

  /** A second delivery, on its own, completes a call and leaves its result matching its transcript. */
  lemma SecondDeliveryCompletes(s: State, luck: Luck) returns (events: seq<Event>, end: State)
    requires Inv(s) && Lucky(luck)
    requires 0 in s.rows && 2 in s.workers && s.workers[2] == First(Start) && Single.Coherent(s.rows[0])
    ensures Run(s, events, end) && IsCompleted(end, 0)
    ensures end.workers.Keys == s.workers.Keys && forall w | w in s.workers && w != 2 :: end.workers[w] == s.workers[w]
    ensures end.rows[0].transcript == Some(FinalTranscript(s.rows[0], Start, luck))
    ensures end.rows[0].result.Some? && Single.Coherent(end.rows[0])
  {
    LuckyRunCompletes(s.rows[0], First(Start), luck);
    DriveStaysCoherent(s.rows[0], First(Start), luck);
    events, end := DriveIsARun(s, 2, luck);
    assert RowAt(s, 0) == Some(s.rows[0]) && RowAt(end, 0) == Some(end.rows[0]);
  }

  lemma Overtaken(before: seq<Event>, s: State, luck: Luck) returns (events: seq<Event>, end: State)
    requires Run(Init, before, s) && Lucky(luck)
    requires 0 in s.rows && 1 in s.workers && 2 !in s.workers && Single.Coherent(s.rows[0])
    ensures Run(Init, events, end) && IsCompleted(end, 0)
    ensures 1 in end.workers && end.workers[1] == s.workers[1]
    ensures end.rows[0].transcript == Some(FinalTranscript(s.rows[0], Start, luck))
    ensures end.rows[0].result.Some? && Single.Coherent(end.rows[0])
  {
    var s' := Apply(s, Deliver(2, 0, None));
    var here := before + [Deliver(2, 0, None)];
    RunExtends(Init, before, s, Deliver(2, 0, None));
    RunKeepsInv(Init, here, s');
    var rest;
    rest, end := SecondDeliveryCompletes(s', luck);
    events := here + rest;
    RunsCompose(Init, here, s', rest, end);
  }

  /**
   A delivery stalled with its transcript in hand replaces the transcript of the call
   that a second one has completed; the stored result then matches no stored transcript.
   */
  lemma SlowProcessOverwrites(luck: Luck, late: Transcript) returns (events: seq<Event>, s: State)
    requires Lucky(luck) && late != luck.transcript
    ensures Run(Init, events, s) && IsCompleted(s, 0) && Single.Coherent(s.rows[0])
    ensures Enabled(s, Act(1, Fine))
    ensures Apply(s, Act(1, Fine)).rows == s.rows[0 := s.rows[0].(transcript := Some(late))]
    ensures !Single.Coherent(Apply(s, Act(1, Fine)).rows[0])
  {
    var before := StalledInTranscription(late);
    events, s := Overtaken(before, OneCall(Transcribing, None, GotTranscript(late)), luck);
    var row := s.rows[0].(transcript := Some(late));
    assert NextRow(Some(s.rows[0]), s.workers[1], Fine) == Some(row);
  }

  /** A delivery stalled before its analysis replaces the result of the completed call. */
  lemma SlowProcessReplacesTheResult(luck: Luck, t: Transcript) returns (events: seq<Event>, s: State, more: seq<Event>, end: State)
    requires Lucky(luck)
    ensures Run(Init, events, s) && IsCompleted(s, 0) && Run(s, more, end)
    ensures 0 in end.rows && end.rows[0].result != s.rows[0].result
  {
    var before := StalledBeforeAnalysis(t);
    events, s := Overtaken(before, OneCall(Analyzing, Some(t), NeedAnalysis), luck);
    more, end := AnalysisIsCarriedOut(s, 1);
  }
}
