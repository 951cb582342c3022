/** What holds of whole runs: success, doomed runs, the person-answer ledger and the history of every control. */
module RunTheorems {
  import opened Prelude
  import opened Snapshots
  import opened Fields
  import opened Reducer
  import opened Lifecycle

  // ---- Success ----

  /** A succeeded run recorded a trace that is a permutation of its occurrences, all of them settled and idle. */
  lemma SuccessTheorem(s: Snapshot)
    requires Reachable(s) && s.status.Succeeded?
    ensures Distinct(s.authoredOrder)
    ensures forall id :: id in s.authoredOrder <==> id in s.occurrences.at
    ensures forall id :: id in s.occurrences.at ==>
              var o := s.occurrences.at[id];
              Settled(o) && o.personPending != Some(true) && forall a :: a in o.attempts.at ==>
                  !o.attempts.at[a].state.AttRunning?
  {
    hide LedgerOk, BoundsOk, AttemptOk, DispatchOk, RecoveryOk;
    ReachableIsOk(s);
    SameSizeSubset(s.authoredOrder, s.occurrences.order);
    forall id | id in s.occurrences.at
      ensures var o := s.occurrences.at[id];
              Settled(o) && o.personPending != Some(true) && forall a :: a in o.attempts.at ==>
                  !o.attempts.at[a].state.AttRunning?
    {
      var o := s.occurrences.at[id];
      assert id in s.occurrences.order && Settled(o);
      assert OccurrenceOk(id, o);
      assert !HasRunningAttempt(o.attempts);
    }
  }

  // ---- Sequences and terminal snapshots ----

  function LastSequenceOf(n: nat): Option<nat> {
    if n == 0 then None else Some(n - 1)
  }

  /** n accepted envelopes of a new run end at sequence n - 1, under the run's own identity. */
  lemma {:induction false} AcceptedCount(runId: string, run: seq<Envelope>)
    requires Replay(InitialSnapshot(runId), run).Ok?
    ensures var s := Replay(InitialSnapshot(runId), run).value;
            s.lastSequence == LastSequenceOf(|run|) && s.runId == runId && (s.protocolVersion.None? <==> run == [])
  {
    if run != [] {
      var s := Replay(InitialSnapshot(runId), run[..|run| - 1]).value;
      AcceptedCount(runId, run[..|run| - 1]);
      ReduceBookkeeping(s, run[|run| - 1]);
    }
  }

  lemma ApplyBookkeeping(s: Snapshot, e: Event, protocolVersion: int)
    requires Apply(s, e, protocolVersion).Ok?
    ensures var t := Apply(s, e, protocolVersion).value;
            t.runId == s.runId && t.lastSequence == s.lastSequence && t.protocolVersion == s.protocolVersion
              && t.eventDigests == s.eventDigests
  {
    hide ApplyOccurrence, AckOf, AnswerPersonAck, AckTransition, TotalOver, FailureClassOf, DistinctTexts, IsDecimal;
  }

  lemma ReduceBookkeeping(s: Snapshot, env: Envelope)
    requires ReduceEvent(s, env).Ok?
    ensures var t := ReduceEvent(s, env).value;
            && t.runId == s.runId && t.lastSequence == Some(ExpectedSequence(s))
            && t.protocolVersion == Some(env.protocolVersion)
            && t.eventDigests == map[env.sequence := Digest(env)]
    ensures !IsTerminal(s.status) && DigitsValue(env.sequence) == ExpectedSequence(s) <= MAX_WORD64
  {
    hide Apply;
    ApplyBookkeeping(Advance(s, env), env.event, env.protocolVersion);
  }

  /** A terminal snapshot accepts no further envelope. */
  lemma {:induction false} TerminalIsFinal(s: Snapshot, run: seq<Envelope>)
    requires IsTerminal(s.status) && Replay(s, run).Ok?
    ensures run == []
  {
    if run != [] {
      TerminalIsFinal(s, run[..|run| - 1]);
    }
  }

  // ---- Doomed runs ----

  predicate Unrecoverable(o: Occurrence) { o.state.OccFailed? || Abandoned(o) }

  /** An occurrence has failed or is to be abandoned, or some occurrence started after the trace was recorded. */
  ghost predicate Doomed(s: Snapshot) {
    || (exists id :: id in s.occurrences.at && Unrecoverable(s.occurrences.at[id]))
    || (s.traceRecorded && |s.authoredOrder| < |s.occurrences.order|)
  }

  /** No event removes an occurrence, revives a failed or abandoned one, or touches a recorded trace. */
  ghost predicate Advances(s: Snapshot, t: Snapshot) {
    && |s.occurrences.order| <= |t.occurrences.order|
    && (forall id :: id in s.occurrences.at ==>
          && id in t.occurrences.at
          && (s.occurrences.at[id].state.OccFailed? ==> t.occurrences.at[id].state.OccFailed?)
          && (Abandoned(s.occurrences.at[id]) ==> Abandoned(t.occurrences.at[id])))
    && (s.traceRecorded ==> t.traceRecorded && t.authoredOrder == s.authoredOrder)
  }

  lemma OnOccurrenceAdvances(s: Snapshot, e: Event)
    requires RunOk(s) && IsOccurrenceEvent(e) && OnOccurrence(s, e).Ok?
    ensures Advances(s, OnOccurrence(s, e).value)
  {
    hide ApplyOccurrence, TotalOver, IsDecimal, LedgerOk, BoundsOk, TraceOk, OccurrenceOk, Abandoned;
    var id := OccurrenceId(e.occurrenceId).value;
    OccurrenceKeeps(id, s.occurrences.at[id], e, AttemptCount(s), SteerCount(s));
  }

  lemma RecordAckAdvances(s: Snapshot, ack: ControlAck)
    requires RecordAck(s, ack).Ok?
    ensures Advances(s, RecordAck(s, ack).value)
  {
    hide AckTransition, IsOpening;
  }

  lemma ApplyAdvances(s: Snapshot, e: Event, protocolVersion: int)
    requires RunOk(s) && !IsTerminal(s.status) && Apply(s, e, protocolVersion).Ok?
    ensures Advances(s, Apply(s, e, protocolVersion).value)
  {
    hide OnOccurrence, RecordAck, AckOf, TotalOver, FailureClassOf, DistinctTexts, IsDecimal, RunOk, Abandoned;
    if IsOccurrenceEvent(e) {
      hide StartRun, StartOccurrence, OrderTrace, CompleteRun, FailRun, CancelRun;
      OnOccurrenceAdvances(s, e);
    } else if e.ControlAcknowledged? {
      RecordAckAdvances(s, AckOf(e, protocolVersion).value);
    }
  }

  lemma ReduceAdvances(s: Snapshot, env: Envelope)
    requires RunOk(s) && ReduceEvent(s, env).Ok?
    ensures RunOk(ReduceEvent(s, env).value) && Advances(s, ReduceEvent(s, env).value)
  {
    hide Apply, OccurrenceOk, LedgerOk, TotalOver;
    assert BoundsOk(Advance(s, env)) by {
      assert AttemptCount(Advance(s, env)) == AttemptCount(s) && SteerCount(Advance(s, env)) == SteerCount(s);
    }
    ApplyAdvances(Advance(s, env), env.event, env.protocolVersion);
    ReduceKeeps(s, env);
  }

  lemma {:induction false} ReplayAdvances(s: Snapshot, run: seq<Envelope>)
    requires RunOk(s) && Replay(s, run).Ok?
    ensures RunOk(Replay(s, run).value) && Advances(s, Replay(s, run).value)
  {
    hide ReduceEvent, RunOk;
    if run != [] {
      ReplayAdvances(s, run[..|run| - 1]);
      ReduceAdvances(Replay(s, run[..|run| - 1]).value, run[|run| - 1]);
    }
  }

  lemma UnrecoverableIsUnsettled(id: string, o: Occurrence)
    requires OccurrenceOk(id, o) && Unrecoverable(o)
    ensures o.state.OccRecovering? || o.state.OccFailed?
  {
  }

  /** Whatever is accepted after a run is doomed, it never succeeds. */
  lemma DoomedNeverSucceeds(s: Snapshot, run: seq<Envelope>)
    requires Reachable(s) && Doomed(s) && Replay(s, run).Ok?
    ensures Doomed(Replay(s, run).value) && !Replay(s, run).value.status.Succeeded?
  {
    hide OccurrenceOk, LedgerOk, BoundsOk, Replay, Abandoned;
    ReachableIsOk(s);
    ReplayAdvances(s, run);
    var t := Replay(s, run).value;
    if exists id :: id in s.occurrences.at && Unrecoverable(s.occurrences.at[id]) {
      var id :| id in s.occurrences.at && Unrecoverable(s.occurrences.at[id]);
      UnrecoverableIsUnsettled(id, t.occurrences.at[id]);
      assert id in t.occurrences.order;
    }
  }

  /** An abandoned occurrence is recovering or failed from then on. */
  lemma AbandonedForever(s: Snapshot, run: seq<Envelope>, id: string)
    requires Reachable(s) && id in s.occurrences.at && Abandoned(s.occurrences.at[id]) && Replay(s, run).Ok?
    ensures var t := Replay(s, run).value;
            id in t.occurrences.at && (t.occurrences.at[id].state.OccRecovering?
                                       || t.occurrences.at[id].state.OccFailed?)
  {
    hide OccurrenceOk, LedgerOk, BoundsOk, TraceOk, Replay, Abandoned;
    ReachableIsOk(s);
    ReplayAdvances(s, run);
    UnrecoverableIsUnsettled(id, Replay(s, run).value.occurrences.at[id]);
  }

  lemma OccurrenceEntersDoom(o: Occurrence, e: Event, key: string, attempts: nat, steers: nat)
    requires e.OccurrenceFailed? || (e.RecoveryChosen? && e.choice == Some("abandon"))
    requires ApplyOccurrence(key, o, e, attempts, steers).Ok?
    ensures Unrecoverable(ApplyOccurrence(key, o, e, attempts, steers).value)
  {
  }

  /** The three ways into doom: a failure, the choice to abandon, and a start after the trace. */
  lemma EntersDoom(s: Snapshot, env: Envelope)
    requires Reachable(s) && ReduceEvent(s, env).Ok?
    requires || env.event.OccurrenceFailed?
             || (env.event.RecoveryChosen? && env.event.choice == Some("abandon"))
             || (env.event.OccurrenceStarted? && s.traceRecorded)
    ensures Doomed(ReduceEvent(s, env).value)
  {
    hide LedgerOk, BoundsOk, OccurrenceOk, TotalOver, IsDecimal, Admit, Unrecoverable, ApplyOccurrence;
    ReachableIsOk(s);
    var e, before := env.event, Advance(s, env);
    var id := OccurrenceId(e.occurrenceId).value;
    if e.OccurrenceStarted? {
      TraceFits(s);
    } else {
      var t := OnOccurrence(before, e).value;
      OccurrenceEntersDoom(before.occurrences.at[id], e, id, AttemptCount(before), SteerCount(before));
      assert id in t.occurrences.at && Unrecoverable(t.occurrences.at[id]);
    }
  }

  lemma TraceFits(s: Snapshot)
    requires TraceOk(s)
    ensures |s.authoredOrder| <= |s.occurrences.order|
  {
    DistinctSize(s.authoredOrder);
    TableSize(s.occurrences);
    SubsetSize((set id | id in s.authoredOrder), s.occurrences.at.Keys);
  }

  // ---- The life of an occurrence ----

  /** The moves between the states of an occurrence, event by event. */
  predicate MayFollow(before: OccurrenceState, e: Event, after: OccurrenceState) {
    match e
    case RecoveryPending(_, _, _, _) => before.OccRunning? && after.OccRecovering?
    case RecoveryChosen(_, _, _, _) => before.OccRecovering? && after.OccRecovering?
    case OccurrenceRetried(_, _) => before.OccRecovering? && after.OccRunning?
    case OccurrenceReused(_, _) => before.OccRunning? && after.OccReused?
    case OccurrenceCompleted(_, _, _) => (before.OccRunning? && after.OccCompleted?)
      || (before.OccReused? && after.OccReused?)
    case OccurrenceFailed(_, _, _) => (before.OccRunning? || before.OccRecovering?) && after.OccFailed?
    case AttemptStarted(_, _, _) => before.OccRunning? && after.OccRunning?
    case DispatchPending(_, _) => before.OccRunning? && after.OccRunning?
    case PersonAnswerPending(_, _) => before.OccRunning? && after.OccRunning?
    case _ => after == before
  }

  lemma OccurrenceMoves(key: string, o: Occurrence, e: Event, attempts: nat, steers: nat)
    requires IsOccurrenceEvent(e) && ApplyOccurrence(key, o, e, attempts, steers).Ok?
    ensures MayFollow(o.state, e, ApplyOccurrence(key, o, e, attempts, steers).value.state)
  {
    hide ApplyAttempt, IsDecimal, FirstRunning, HasRunningAttempt, FailureClassOf, CheckedOffers, DispatchTargets,
         AttemptId;
  }

  /** Completed, reused or failed: no event moves the occurrence any more. */
  predicate IsFinal(state: OccurrenceState) { state.OccCompleted? || state.OccReused? || state.OccFailed? }

  lemma OccurrenceEventKeepsFinal(s: Snapshot, e: Event, id: string)
    requires IsOccurrenceEvent(e) && OnOccurrence(s, e).Ok? && id in s.occurrences.at
             && IsFinal(s.occurrences.at[id].state)
    ensures var t := OnOccurrence(s, e).value;
            id in t.occurrences.at && t.occurrences.at[id].state == s.occurrences.at[id].state
  {
    hide ApplyOccurrence, AttemptCount, SteerCount;
    if OccurrenceId(e.occurrenceId) == Ok(id) {
      OccurrenceMoves(id, s.occurrences.at[id], e, AttemptCount(s), SteerCount(s));
    }
  }

  lemma RecordAckKeepsStates(s: Snapshot, ack: ControlAck, id: string)
    requires RecordAck(s, ack).Ok? && id in s.occurrences.at
    ensures var t := RecordAck(s, ack).value;
            id in t.occurrences.at && t.occurrences.at[id].state == s.occurrences.at[id].state
  {
    hide AckTransition, IsOpening;
  }

  lemma ApplyKeepsFinal(s: Snapshot, e: Event, protocolVersion: int, id: string)
    requires Apply(s, e, protocolVersion).Ok? && id in s.occurrences.at && IsFinal(s.occurrences.at[id].state)
    ensures var t := Apply(s, e, protocolVersion).value;
            id in t.occurrences.at && t.occurrences.at[id].state == s.occurrences.at[id].state
  {
    hide OnOccurrence, AckOf, RecordAck, FailureClassOf, DistinctTexts, NaturalText, PersonAnsweringOf, AllSettled,
         OccurrenceId;
    if IsOccurrenceEvent(e) {
      hide StartRun, StartOccurrence, OrderTrace, Acknowledge, CompleteRun, FailRun, CancelRun;
      OccurrenceEventKeepsFinal(s, e, id);
    } else if e.ControlAcknowledged? {
      RecordAckKeepsStates(s, AckOf(e, protocolVersion).value, id);
    }
  }

  /** An occurrence that has ended keeps its state in every continuation. */
  lemma {:induction false} EndedForever(s: Snapshot, run: seq<Envelope>, id: string)
    requires Replay(s, run).Ok? && id in s.occurrences.at && IsFinal(s.occurrences.at[id].state)
    ensures var t := Replay(s, run).value;
            id in t.occurrences.at && t.occurrences.at[id].state == s.occurrences.at[id].state
  {
    hide Apply, Admit;
    if run != [] {
      var before, last := Replay(s, run[..|run| - 1]).value, run[|run| - 1];
      EndedForever(s, run[..|run| - 1], id);
      ApplyKeepsFinal(Advance(before, last), last.event, last.protocolVersion, id);
    }
  }

  lemma ApplyStatus(s: Snapshot, e: Event, protocolVersion: int)
    requires Apply(s, e, protocolVersion).Ok?
    ensures var t := Apply(s, e, protocolVersion).value.status;
            && (e.RunStarted? ==> t == if s.status.Cancelling? then Cancelling else Running)
            && (e.RunCompleted? ==> t.Succeeded?) && (e.RunFailed? ==> t.Failed?) && (e.RunCancelled? ==> t.Cancelled?)
            && (!e.RunStarted? && !e.RunCompleted? && !e.RunFailed? && !e.RunCancelled? ==> t == s.status)
  {
    hide ApplyOccurrence, AttemptCount, SteerCount, AllSettled, OccurrenceId, AckOf, AckTransition, AnswerPersonAck,
         FailureClassOf, DistinctTexts, IsDecimal;
  }

  /** The moves of a run's own status: no event ever asks for cancellation, orphans a run or revives it. */
  lemma StatusMoves(s: Snapshot, env: Envelope)
    requires ReduceEvent(s, env).Ok?
    ensures var t, e := ReduceEvent(s, env).value.status, env.event;
            && !IsTerminal(s.status)
            && (e.RunStarted? ==> t == if s.status.Cancelling? then Cancelling else Running)
            && (e.RunCompleted? <==> t.Succeeded?) && (e.RunFailed? <==> t.Failed?)
            && (e.RunCancelled? <==> t.Cancelled?)
            && (!e.RunStarted? && !IsTerminal(t) ==> t == s.status)
  {
    hide Apply, IsDecimal;
    ApplyStatus(Advance(s, env), env.event, env.protocolVersion);
  }

  // ---- Controls ----

  predicate IsAckFor(env: Envelope, controlId: string) {
    && env.event.ControlAcknowledged?
    && AckOf(env.event, env.protocolVersion).Ok?
    && AckOf(env.event, env.protocolVersion).value.controlId == controlId
  }

  function AckIn(env: Envelope): ControlAck
    requires env.event.ControlAcknowledged? && AckOf(env.event, env.protocolVersion).Ok?
  {
    AckOf(env.event, env.protocolVersion).value
  }

  /** The records that the acknowledgements of a run spell out for one control, without immediate repetitions. */
  function AckHistory(run: seq<Envelope>, controlId: string): seq<ControlAck> {
    if run == [] then []
    else
      var history, last := AckHistory(run[..|run| - 1], controlId), run[|run| - 1];
      if IsAckFor(last, controlId) && (history == [] || history[|history| - 1] != AckIn(last)) then
        history + [AckIn(last)]
      else history
  }

  function LatestAck(history: seq<ControlAck>): Option<ControlAck> {
    if history == [] then None else Some(history[|history| - 1])
  }

  predicate SameCorrelation(a: ControlAck, b: ControlAck) {
    a.controlId == b.controlId && a.command == b.command && a.occurrenceId == b.occurrenceId
      && a.attemptId == b.attemptId
  }

  /**
   At most one opening record and then at most one terminal record of the same correlation; an answer is first accepted.
   */
  predicate SettlesOnce(history: seq<ControlAck>) {
    && |history| <= 2
    && (|history| == 2 ==>
          IsOpening(history[0].state) && !IsOpening(history[1].state) && SameCorrelation(history[0], history[1]))
    && (history != [] && history[|history| - 1].command == Some(AnswerPerson)
        && (history[|history| - 1].state.AckDelivered? || history[|history| - 1].state.AckFailed?)
        ==> |history| == 2 && history[0].state.AckAccepted?)
  }

  lemma RecordAckEffect(s: Snapshot, ack: ControlAck, history: seq<ControlAck>, controlId: string)
    requires RecordAck(s, ack).Ok?
    requires PriorAck(s, controlId) == LatestAck(history) && SettlesOnce(history)
    requires forall h :: h in history ==> h.controlId == controlId
    ensures var next := if ack.controlId == controlId && LatestAck(history) != Some(ack) then history + [ack]
                        else history;
            PriorAck(RecordAck(s, ack).value, controlId) == LatestAck(next) && SettlesOnce(next)
  {
  }

  lemma OtherEventsKeepAcks(s: Snapshot, e: Event, protocolVersion: int)
    requires !e.ControlAcknowledged? && Apply(s, e, protocolVersion).Ok?
    ensures Apply(s, e, protocolVersion).value.controlAcks == s.controlAcks
  {
    hide ApplyOccurrence, TotalOver, FailureClassOf, DistinctTexts, IsDecimal;
  }

  lemma ReduceAcks(s: Snapshot, env: Envelope, history: seq<ControlAck>, controlId: string)
    requires ReduceEvent(s, env).Ok?
    requires PriorAck(s, controlId) == LatestAck(history) && SettlesOnce(history)
    requires forall h :: h in history ==> h.controlId == controlId
    ensures var next := if IsAckFor(env, controlId)
            && (history == [] || history[|history| - 1] != AckIn(env)) then history + [AckIn(env)] else history;
            PriorAck(ReduceEvent(s, env).value, controlId) == LatestAck(next) && SettlesOnce(next)
  {
    hide AckOf, RecordAck, SettlesOnce, Admit;
    var before := Advance(s, env);
    if env.event.ControlAcknowledged? {
      assert PriorAck(before, controlId) == PriorAck(s, controlId);
      RecordAckEffect(before, AckIn(env), history, controlId);
    } else {
      OtherEventsKeepAcks(before, env.event, env.protocolVersion);
    }
  }

  /** Over every run, a control settles once, and the snapshot holds the last record of its history. */
  lemma {:induction false} ControlsSettleOnce(runId: string, run: seq<Envelope>, controlId: string)
    requires Replay(InitialSnapshot(runId), run).Ok?
    ensures var history := AckHistory(run, controlId);
            && SettlesOnce(history)
            && (forall h :: h in history ==> h.controlId == controlId)
            && PriorAck(Replay(InitialSnapshot(runId), run).value, controlId) == LatestAck(history)
  {
    hide ReduceEvent, SettlesOnce, AckOf;
    if run == [] {
      assert SettlesOnce(AckHistory(run, controlId)) by { NothingSettlesOnce(); }
    } else {
      ControlsSettleOnce(runId, run[..|run| - 1], controlId);
      ReduceAcks(Replay(InitialSnapshot(runId), run[..|run| - 1]).value, run[|run| - 1],
                 AckHistory(run[..|run| - 1], controlId), controlId);
    }
  }

  lemma NothingSettlesOnce()
    ensures SettlesOnce([])
  {
  }

  // ---- The person-answer ledger ----

  /** The one acknowledgement that delivered the answer of an occurrence. */
  ghost predicate OnlyDelivery(acks: Table<ControlAck>, c: string, id: string) {
    && c in acks.at && Delivers(acks.at[c], id)
    && (forall d :: d in acks.at && Delivers(acks.at[d], id) ==> d == c)
  }

  lemma LedgerIsExact(occurrences: Table<Occurrence>, acks: Table<ControlAck>, id: string)
    requires LedgerOk(occurrences, acks)
    ensures HasDelivery(acks, id) ==> Answered(occurrences, id)
    ensures Answered(occurrences, id) ==> exists c :: OnlyDelivery(acks, c, id)
  {
    if Answered(occurrences, id) {
      assert HasDelivery(acks, id);
      var c :| c in acks.at && Delivers(acks.at[c], id);
      assert OnlyDelivery(acks, c, id);
    }
  }

  /**
   A question stops being pending exactly when one delivered answer names it; until then its occurrence does not settle.
   */
  lemma PersonAnswerLedger(s: Snapshot, id: string)
    requires Reachable(s) && id in s.occurrences.at && s.occurrences.at[id].personQuestion.Some?
    ensures s.occurrences.at[id].personPending != Some(true) <==> exists c :: OnlyDelivery(s.controlAcks, c, id)
    ensures s.occurrences.at[id].personPending == Some(true) ==>
              !Settled(s.occurrences.at[id]) && !HasDelivery(s.controlAcks, id)
  {
    hide BoundsOk, TraceOk, AttemptOk, DispatchOk, RecoveryOk, LedgerOk, Reachable;
    ReachableIsOk(s);
    assert OccurrenceOk(id, s.occurrences.at[id]);
    LedgerIsExact(s.occurrences, s.controlAcks, id);
    if !s.occurrences.at[id].personPending.value {
      assert Answered(s.occurrences, id);
    }
  }

  /** The record that event i of a run spells out for a control. */
  ghost predicate SpelledAt(run: seq<Envelope>, c: string, i: nat, ack: ControlAck) {
    i < |run| && IsAckFor(run[i], c) && AckIn(run[i]) == ack
  }

  ghost predicate Spelled(run: seq<Envelope>, c: string, ack: ControlAck) {
    exists i: nat :: SpelledAt(run, c, i, ack)
  }

  /** The control of a delivered answer was acknowledged as accepted first, for the same occurrence. */
  lemma DeliveredWasAccepted(runId: string, run: seq<Envelope>, c: string, id: string)
    requires Replay(InitialSnapshot(runId), run).Ok?
    requires c in Replay(InitialSnapshot(runId), run).value.controlAcks.at
    requires Delivers(Replay(InitialSnapshot(runId), run).value.controlAcks.at[c], id)
    ensures exists i: nat, j: nat, opening, delivery :: i < j && SpelledAt(run, c, i, opening)
              && SpelledAt(run, c, j, delivery)
              && opening.state.AckAccepted? && opening.command == Some(AnswerPerson) && opening.occurrenceId == Some(id)
              && Delivers(delivery, id)
  {
    hide Replay, SpelledAt;
    ControlsSettleOnce(runId, run, c);
    var history := AckHistory(run, c);
    HistoryComesFromRun(run, c);
    var i, j := TwoRecords(run, c);
    assert SpelledAt(run, c, i, history[0]) && SpelledAt(run, c, j, history[1]);
  }

  /** Every record of a history is spelled out by an event of the run. */
  lemma {:induction false} HistoryComesFromRun(run: seq<Envelope>, c: string)
    ensures forall k :: 0 <= k < |AckHistory(run, c)| ==> Spelled(run, c, AckHistory(run, c)[k])
  {
    hide AckOf;
    if run != [] {
      var init, n := run[..|run| - 1], |run| - 1;
      HistoryComesFromRun(init, c);
      var h, g := AckHistory(init, c), AckHistory(run, c);
      forall k | 0 <= k < |g|
        ensures Spelled(run, c, g[k])
      {
        if k < |h| {
          assert Spelled(init, c, h[k]);
          var i: nat :| SpelledAt(init, c, i, h[k]);
          assert g[k] == h[k] && run[i] == init[i];
          assert SpelledAt(run, c, i, g[k]);
        } else {
          assert SpelledAt(run, c, n, g[k]);
        }
      }
    }
  }

  /** Two records are spelled out in their order. */
  lemma {:induction false} TwoRecords(run: seq<Envelope>, c: string) returns (i: nat, j: nat)
    requires |AckHistory(run, c)| == 2
    ensures i < j && SpelledAt(run, c, i, AckHistory(run, c)[0]) && SpelledAt(run, c, j, AckHistory(run, c)[1])
  {
    hide AckOf;
    var init := run[..|run| - 1];
    if |AckHistory(init, c)| == 2 {
      i, j := TwoRecords(init, c);
    } else {
      HistoryComesFromRun(init, c);
      assert Spelled(init, c, AckHistory(init, c)[0]);
      i :| SpelledAt(init, c, i, AckHistory(init, c)[0]);
      j := |run| - 1;
    }
  }
}
