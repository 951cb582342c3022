/** The output of an attempt over whole runs: what streaming kept of it is what one cut of all of it keeps. */
module RunOutput {
  import opened Prelude
  import opened Snapshots
  import opened Fields
  import opened Reducer
  import OutputTail

  /** An event that appends to the output of one attempt. */
  predicate Speaks(e: Event, id: string, attemptId: string) {
    && e.AttemptOutput? && e.chunk.Some?
    && OccurrenceId(e.occurrenceId) == Ok(id) && AttemptId(id, e.attempt) == Ok(attemptId)
  }

  /** The chunks that the envelopes of a run give to one attempt. */
  function ChunksOf(run: seq<Envelope>, id: string, attemptId: string): seq<string> {
    if run == [] then []
    else
      var e := run[|run| - 1].event;
      ChunksOf(run[..|run| - 1], id, attemptId) + (if Speaks(e, id, attemptId) then [e.chunk.value] else [])
  }

  /** The output of an attempt, once it has started. */
  function OutputIn(s: Snapshot, id: string, attemptId: string): Option<string> {
    if id in s.occurrences.at && attemptId in s.occurrences.at[id].attempts.at
    then Some(s.occurrences.at[id].attempts.at[attemptId].output) else None
  }

  function OutputOf(o: Occurrence, attemptId: string): Option<string> {
    if attemptId in o.attempts.at then Some(o.attempts.at[attemptId].output) else None
  }

  /** What one accepted event makes of an output. */
  predicate OutputMoves(e: Event, speaks: bool, before: Option<string>, after: Option<string>)
    requires speaks ==> e.AttemptOutput? && e.chunk.Some?
  {
    if speaks then before.Some? && after == Some(OutputTail.TailOf(before.value + e.chunk.value))
    else if before.Some? then after == before
    else after == None || after == Some("")
  }

  lemma ProgressKeepsOutput(a: Attempt, progress: Progress)
    requires ApplyProgress(a, progress).Ok?
    ensures ApplyProgress(a, progress).value.output == a.output
  {
  }

  lemma AttemptOutputMoves(a: Attempt, e: Event, steers: nat)
    requires IsAttemptEvent(e) && ApplyAttempt(a, e, steers).Ok?
    ensures var b := ApplyAttempt(a, e, steers).value;
            if e.AttemptOutput? then e.chunk.Some? && b.output == OutputTail.TailOf(a.output + e.chunk.value)
            else b.output == a.output
  {
    hide ApplyProgress;
    if e.AttemptProgress? { ProgressKeepsOutput(a, e.progress); }
  }

  lemma OccurrenceOutputMoves(id: string, o: Occurrence, e: Event, attempts: nat, steers: nat, attemptId: string)
    requires IsOccurrenceEvent(e) && OccurrenceId(e.occurrenceId) == Ok(id)
             && ApplyOccurrence(id, o, e, attempts, steers).Ok?
    ensures OutputMoves(e, Speaks(e, id, attemptId), OutputOf(o, attemptId),
                        OutputOf(ApplyOccurrence(id, o, e, attempts, steers).value, attemptId))
  {
    hide ApplyAttempt, IsDecimal, DigitsValue, FirstRunning, HasRunningAttempt, FailureClassOf, CheckedOffers,
         DispatchTargets, OutputTail.TailOf;
    if IsAttemptEvent(e) { AttemptOutputMoves(o.attempts.at[AttemptId(id, e.attempt).value], e, steers); }
  }

  lemma OnOccurrenceOutputMoves(s: Snapshot, e: Event, id: string, attemptId: string)
    requires IsOccurrenceEvent(e) && OnOccurrence(s, e).Ok?
    ensures OutputMoves(e, Speaks(e, id, attemptId), OutputIn(s, id, attemptId),
                        OutputIn(OnOccurrence(s, e).value, id, attemptId))
  {
    hide ApplyOccurrence, AttemptCount, SteerCount, AttemptId, OccurrenceId;
    if OccurrenceId(e.occurrenceId) == Ok(id) {
      OccurrenceOutputMoves(id, s.occurrences.at[id], e, AttemptCount(s), SteerCount(s), attemptId);
    }
  }

  lemma AcknowledgeKeepsOutput(s: Snapshot, ack: ControlAck, id: string, attemptId: string)
    requires RecordAck(s, ack).Ok?
    ensures OutputIn(RecordAck(s, ack).value, id, attemptId) == OutputIn(s, id, attemptId)
  {
    hide AckTransition, IsOpening;
  }

  lemma StartKeepsOutput(s: Snapshot, e: Event, id: string, attemptId: string)
    requires e.OccurrenceStarted? && StartOccurrence(s, e).Ok?
    ensures OutputIn(StartOccurrence(s, e).value, id, attemptId) == OutputIn(s, id, attemptId)
  {
    hide OccurrenceId;
  }

  lemma ApplyOutputMoves(s: Snapshot, e: Event, protocolVersion: int, id: string, attemptId: string)
    requires Apply(s, e, protocolVersion).Ok?
    ensures OutputMoves(e, Speaks(e, id, attemptId), OutputIn(s, id, attemptId),
                        OutputIn(Apply(s, e, protocolVersion).value, id, attemptId))
  {
    hide OnOccurrence, AckOf, RecordAck, StartOccurrence, FailureClassOf, DistinctTexts, NaturalText, PersonAnsweringOf,
         AllSettled, AttemptId, OccurrenceId, OutputTail.TailOf;
    if IsOccurrenceEvent(e) {
      hide StartRun, OrderTrace, Acknowledge, CompleteRun, FailRun, CancelRun;
      OnOccurrenceOutputMoves(s, e, id, attemptId);
    } else if e.ControlAcknowledged? {
      AcknowledgeKeepsOutput(s, AckOf(e, protocolVersion).value, id, attemptId);
    } else if e.OccurrenceStarted? {
      StartKeepsOutput(s, e, id, attemptId);
    }
  }

  /**
   In every accepted run, an attempt that has not started was sent nothing; the output of one that has is the tail of
   all it was sent.
   */
  lemma {:induction false} OutputIsTailOfChunks(runId: string, run: seq<Envelope>, id: string, attemptId: string)
    requires Replay(InitialSnapshot(runId), run).Ok?
    ensures var output, chunks := OutputIn(Replay(InitialSnapshot(runId), run).value, id, attemptId),
                ChunksOf(run, id, attemptId);
            if output.None? then chunks == [] else output.value == OutputTail.TailOf(Concat(chunks))
  {
    hide Apply, Admit, OutputTail.TailOf, Speaks;
    if run == [] {
      NothingSent();
    } else {
      var init, last := run[..|run| - 1], run[|run| - 1];
      var before := Replay(InitialSnapshot(runId), init).value;
      OutputIsTailOfChunks(runId, init, id, attemptId);
      ApplyOutputMoves(Advance(before, last), last.event, last.protocolVersion, id, attemptId);
      assert OutputIn(Advance(before, last), id, attemptId) == OutputIn(before, id, attemptId);
      var chunks := ChunksOf(init, id, attemptId);
      assert chunks + [] == chunks;
      NothingSent();
      if Speaks(last.event, id, attemptId) {
        SpeaksText(last.event, id, attemptId);
        OneMoreChunk(chunks, last.event.chunk.value);
      }
    }
  }

  lemma SpeaksText(e: Event, id: string, attemptId: string)
    requires Speaks(e, id, attemptId)
    ensures e.AttemptOutput? && e.chunk.Some?
  {
  }

  lemma NothingSent()
    ensures Concat([]) == "" && OutputTail.TailOf("") == ""
  {
  }

  lemma OneMoreChunk(chunks: seq<string>, chunk: string)
    ensures OutputTail.TailOf(OutputTail.TailOf(Concat(chunks)) + chunk) == OutputTail.TailOf(Concat(chunks + [chunk]))
  {
    hide OutputTail.TailOf;
    assert (chunks + [chunk])[..|chunks + [chunk]| - 1] == chunks;
    OutputTail.TailAppend(Concat(chunks), chunk);
  }
}
