/** What every accepted envelope keeps: the lifecycle invariant of runs, occurrences and attempts. */
module Lifecycle {
  import opened Prelude
  import opened Snapshots
  import opened Fields
  import opened Reducer
  import OutputTail
  import Utf8

  // ---- Attempts ----

  ghost predicate AttemptOk(key: string, a: Attempt) {
    && a.id == key
    && |Utf8.Encode(a.output)| <= OutputTail.OUTPUT_TAIL
    && |a.messages| <= MAX_MESSAGES && |a.reasoning| <= MAX_SUMMARIES
    && |a.tools.order| <= MAX_TOOLS && |a.todos| <= MAX_TODOS
    && (forall k :: k in a.tools.at ==> a.tools.at[k].id == k)
    && (a.usage.Some? ==> InsideWindow(a.usage.value))
    && (a.state.AttFailed? <==> a.failure.Some?)
  }

  lemma ProgressKeeps(key: string, a: Attempt, progress: Progress)
    requires AttemptOk(key, a) && a.state.AttRunning?
    requires ApplyProgress(a, progress).Ok?
    ensures var b := ApplyProgress(a, progress).value;
            AttemptOk(key, b) && b.state.AttRunning? && b.steers == a.steers
  {
  }

  lemma AttemptKeeps(key: string, a: Attempt, e: Event, steers: nat)
    requires AttemptOk(key, a) && IsAttemptEvent(e)
    requires ApplyAttempt(a, e, steers).Ok?
    ensures var b := ApplyAttempt(a, e, steers).value;
            && AttemptOk(key, b)
            && a.state.AttRunning?
            && (if e.AttemptSteered? then steers < MAX_STEERS && |b.steers| == |a.steers| + 1 else b.steers == a.steers)
  {
    if e.AttemptProgress? { ProgressKeeps(key, a, e.progress); }
  }

  // ---- Occurrences ----

  ghost predicate DispatchOk(d: Dispatch, attempts: Table<Attempt>) {
    && d.targets != []
    && (d.redirect.Some? ==> !d.open && d.redirect.value.target in d.targets)
    && (d.redirect.Some? && d.redirect.value.stoppedAttempt.Some? ==>
          d.redirect.value.stoppedAttempt.value in attempts.at)
  }

  /**
   A pending recovery has no retry yet; a finished one was chosen among its offers, was not abandoned and was retried
   once.
   */
  ghost predicate RecoveryOk(r: Recovery, state: OccurrenceState) {
    && r.choices != [] && DistinctChoices(r.choices)
    && |r.retries| <= 1
    && (r.chosen.Some? ==> r.chosen.value.offer in r.choices)
    && (state.OccRecovering? ==> r.retries == [])
    && (r.retries != [] ==> r.chosen.Some?)
    && (r.chosen.Some? && r.chosen.value.offer.choice.Abandon? ==> state.OccRecovering? || state.OccFailed?)
  }

  ghost predicate OccurrenceOk(key: string, o: Occurrence) {
    && o.id == key
    && !o.state.OccCancelled?
    && (forall a :: a in o.attempts.at ==> AttemptOk(a, o.attempts.at[a]))
    && (HasRunningAttempt(o.attempts) ==> o.state.OccRunning? || o.state.OccRecovering?)
    && (o.state.OccReused? ==> o.attempts.order == [])
    && (o.state.OccReused? <==> o.reuseKind.Some?)
    && (o.state.OccRecovering? ==> o.recovery.Some?)
    && (o.recovery.Some? ==> RecoveryOk(o.recovery.value, o.state))
    && (o.dispatch.Some? ==> DispatchOk(o.dispatch.value, o.attempts))
    && (o.personPending.Some? <==> o.personQuestion.Some?)
    && (o.personPending.Some? ==> IsPersonAddressee(o.addressee))
    && (o.personPending == Some(true) ==> !Settled(o))
    && (o.state.OccCompleted? ==> o.answer.Some? && o.source.Some?)
  }

  /** Chosen to be abandoned: the occurrence can only fail. */
  predicate Abandoned(o: Occurrence) {
    o.recovery.Some? && o.recovery.value.chosen.Some? && o.recovery.value.chosen.value.offer.choice.Abandon?
  }

  /** A dispatch opens once: it stays with its targets, and once closed it stays closed. */
  predicate DispatchMoves(before: Option<Dispatch>, after: Option<Dispatch>) {
    before.Some? ==>
      after.Some? && after.value.targets == before.value.targets && (!before.value.open ==> !after.value.open)
  }

  /** What one occurrence event keeps and changes. */
  ghost predicate OccurrenceStep(key: string, o: Occurrence, e: Event, attempts: nat, steers: nat, p: Occurrence) {
    && OccurrenceOk(key, p)
    && (p.personPending == Some(false) <==> o.personPending == Some(false))
    && (o.state.OccFailed? ==> p.state.OccFailed?)
    && (Abandoned(o) ==> Abandoned(p))
    && (Settled(o) ==> Settled(p))
    && DispatchMoves(o.dispatch, p.dispatch)
    && (if e.AttemptStarted? then attempts < MAX_ATTEMPTS && AttemptsOf(p) == AttemptsOf(o) + 1
        else AttemptsOf(p) == AttemptsOf(o))
    && (if e.AttemptSteered? then steers < MAX_STEERS && SteersOf(p) == SteersOf(o) + 1 else SteersOf(p) == SteersOf(o))
  }

  /** An occurrence that is running or recovering, with one attempt entered or replaced. */
  lemma WithAttemptIsOk(key: string, o: Occurrence, id: string, a: Attempt, dispatch: Option<Dispatch>,
                        replayable: bool)
    requires OccurrenceOk(key, o) && AttemptOk(id, a) && (o.state.OccRunning? || o.state.OccRecovering?)
    requires dispatch == o.dispatch || dispatch == CloseDispatch(o.dispatch)
    ensures OccurrenceOk(key, o.(dispatch := dispatch, attempts := Put(o.attempts, id, a), replayable := replayable))
  {
    hide AttemptOk, RecoveryOk, DispatchOk, HasRunningAttempt;
    if o.dispatch.Some? { ClosedDispatchIsOk(o.dispatch.value, o.attempts, Put(o.attempts, id, a)); }
  }

  lemma ClosedDispatchIsOk(d: Dispatch, attempts: Table<Attempt>, more: Table<Attempt>)
    requires DispatchOk(d, attempts) && attempts.at.Keys <= more.at.Keys
    ensures DispatchOk(d, more) && DispatchOk(d.(open := false), more)
  {
  }

  lemma StartAttemptKeeps(key: string, o: Occurrence, e: Event, attempts: nat, steers: nat)
    requires OccurrenceOk(key, o) && e.AttemptStarted?
    requires StartAttempt(key, o, e.attempt, e.target, attempts).Ok?
    ensures var p := StartAttempt(key, o, e.attempt, e.target, attempts).value;
            OccurrenceStep(key, o, e, attempts, steers, p) && (p.dispatch.Some? ==> !p.dispatch.value.open)
  {
    hide OccurrenceOk, TotalOver, IsDecimal;
    var p := StartAttempt(key, o, e.attempt, e.target, attempts).value;
    var id, a := AttemptId(key, e.attempt).value, NewAttempt(AttemptId(key, e.attempt).value, e.target.value);
    assert p == o.(dispatch := CloseDispatch(o.dispatch), attempts := Put(o.attempts, id, a),
                   replayable := o.replayable);
    assert AttemptOk(id, a);
    hide AttemptId, NewAttempt, AttemptOk;
    WithAttemptIsOk(key, o, id, a, CloseDispatch(o.dispatch), o.replayable);
    TotalPut(o.attempts, SteersOfAttempt, id, a);
    assert a.steers == [] by { assert NewAttempt(id, e.target.value).steers == []; }
  }

  lemma OnAttemptKeeps(key: string, o: Occurrence, e: Event, attempts: nat, steers: nat)
    requires OccurrenceOk(key, o) && IsAttemptEvent(e)
    requires OnAttempt(key, o, e, steers).Ok?
    ensures OccurrenceStep(key, o, e, attempts, steers, OnAttempt(key, o, e, steers).value)
  {
    hide ApplyAttempt, TotalOver, AttemptId, AttemptOk, RecoveryOk, DispatchOk;
    var p := OnAttempt(key, o, e, steers).value;
    var id := AttemptId(key, e.attempt).value;
    assert AttemptOk(id, o.attempts.at[id]);
    AttemptKeeps(id, o.attempts.at[id], e, steers);
    assert HasRunningAttempt(o.attempts) by { assert id in o.attempts.order; }
    WithAttemptIsOk(key, o, id, p.attempts.at[id], o.dispatch, p.replayable);
    TotalPut(o.attempts, SteersOfAttempt, id, p.attempts.at[id]);
    hide OccurrenceOk;
    assert p == o.(dispatch := o.dispatch, attempts := Put(o.attempts, id, p.attempts.at[id]),
                   replayable := p.replayable);
  }

  lemma RecoveryKeeps(key: string, o: Occurrence, e: Event, attempts: nat, steers: nat)
    requires OccurrenceOk(key, o) && (e.RecoveryChosen? || e.RecoveryPending? || e.OccurrenceRetried?)
    requires ApplyOccurrence(key, o, e, attempts, steers).Ok?
    ensures OccurrenceStep(key, o, e, attempts, steers, ApplyOccurrence(key, o, e, attempts, steers).value)
  {
    hide AttemptOk, DispatchOk, TotalOver, IsDecimal;
  }

  lemma OpenDispatchKeeps(key: string, o: Occurrence, e: Event, attempts: nat, steers: nat)
    requires OccurrenceOk(key, o) && e.DispatchPending?
    requires OpenDispatch(o, e.targets).Ok?
    ensures var p := OpenDispatch(o, e.targets).value;
            && OccurrenceStep(key, o, e, attempts, steers, p)
            && o.dispatch.None? && p.dispatch.Some? && p.dispatch.value.open && p.dispatch.value.redirect.None?
            && Distinct(p.dispatch.value.targets)
  {
    var targets := DispatchTargets(e.targets).value;
    assert OpenDispatch(o, e.targets).value == o.(dispatch := Some(Dispatch(targets, true, None)));
    assert DispatchOk(Dispatch(targets, true, None), o.attempts);
  }

  lemma RedirectKeeps(key: string, o: Occurrence, e: Event, attempts: nat, steers: nat)
    requires OccurrenceOk(key, o) && e.OccurrenceRedirected?
    requires RedirectTo(o, e.target, e.controlId).Ok?
    ensures var p := RedirectTo(o, e.target, e.controlId).value;
            && OccurrenceStep(key, o, e, attempts, steers, p)
            && p.dispatch.Some? && !p.dispatch.value.open && p.dispatch.value.redirect.Some?
            && Some(p.dispatch.value.redirect.value.target) == e.target
            && Some(p.dispatch.value.redirect.value.controlId) == e.controlId
  {
    var p := RedirectTo(o, e.target, e.controlId).value;
    assert p == o.(dispatch := p.dispatch);
    assert DispatchOk(p.dispatch.value, o.attempts);
  }

  lemma EndingKeeps(key: string, o: Occurrence, e: Event, attempts: nat, steers: nat)
    requires OccurrenceOk(key, o) && (e.OccurrenceReused? || e.PersonAnswerPending? || e.OccurrenceCompleted?
                                      || e.OccurrenceFailed?)
    requires ApplyOccurrence(key, o, e, attempts, steers).Ok?
    ensures OccurrenceStep(key, o, e, attempts, steers, ApplyOccurrence(key, o, e, attempts, steers).value)
    ensures !e.PersonAnswerPending? ==> !HasRunningAttempt(o.attempts)
    ensures e.OccurrenceReused? || e.OccurrenceCompleted? ==> o.personPending != Some(true)
  {
    hide AttemptOk, DispatchOk, TotalOver, IsDecimal, FailureClassOf, HasRunningAttempt, Reuse, AwaitPerson,
         CompleteOccurrence, FailOccurrence;
    if e.OccurrenceReused? {
      ReuseKeeps(key, o, e, attempts, steers);
    } else if e.PersonAnswerPending? {
      AwaitPersonKeeps(key, o, e, attempts, steers);
    } else if e.OccurrenceCompleted? {
      CompleteKeeps(key, o, e, attempts, steers);
    } else {
      FailKeeps(key, o, e, attempts, steers);
    }
  }

  lemma ReuseKeeps(key: string, o: Occurrence, e: Event, attempts: nat, steers: nat)
    requires OccurrenceOk(key, o) && e.OccurrenceReused? && Reuse(o, e.answerGroup).Ok?
    ensures OccurrenceStep(key, o, e, attempts, steers, Reuse(o, e.answerGroup).value)
    ensures o.personPending != Some(true) && !HasRunningAttempt(o.attempts)
  {
    hide AttemptOk, DispatchOk, TotalOver;
    if o.dispatch.Some? { ClosedDispatchIsOk(o.dispatch.value, o.attempts, o.attempts); }
  }

  lemma AwaitPersonKeeps(key: string, o: Occurrence, e: Event, attempts: nat, steers: nat)
    requires OccurrenceOk(key, o) && e.PersonAnswerPending? && AwaitPerson(o, e.question).Ok?
    ensures OccurrenceStep(key, o, e, attempts, steers, AwaitPerson(o, e.question).value)
  {
    hide AttemptOk, DispatchOk, RecoveryOk, TotalOver;
  }

  lemma CompleteKeeps(key: string, o: Occurrence, e: Event, attempts: nat, steers: nat)
    requires OccurrenceOk(key, o) && e.OccurrenceCompleted? && CompleteOccurrence(o, e.source, e.answer).Ok?
    ensures OccurrenceStep(key, o, e, attempts, steers, CompleteOccurrence(o, e.source, e.answer).value)
    ensures o.personPending != Some(true) && !HasRunningAttempt(o.attempts)
  {
    hide AttemptOk, DispatchOk, TotalOver, HasRunningAttempt;
  }

  lemma FailKeeps(key: string, o: Occurrence, e: Event, attempts: nat, steers: nat)
    requires OccurrenceOk(key, o) && e.OccurrenceFailed? && FailOccurrence(o, e.message, e.failure).Ok?
    ensures OccurrenceStep(key, o, e, attempts, steers, FailOccurrence(o, e.message, e.failure).value)
    ensures !HasRunningAttempt(o.attempts)
  {
    hide AttemptOk, DispatchOk, TotalOver, HasRunningAttempt, FailureClassOf;
  }

  lemma OccurrenceKeeps(key: string, o: Occurrence, e: Event, attempts: nat, steers: nat)
    requires OccurrenceOk(key, o) && IsOccurrenceEvent(e)
    requires ApplyOccurrence(key, o, e, attempts, steers).Ok?
    ensures OccurrenceStep(key, o, e, attempts, steers, ApplyOccurrence(key, o, e, attempts, steers).value)
  {
    if IsAttemptEvent(e) {
      OnAttemptKeeps(key, o, e, attempts, steers);
    } else if e.AttemptStarted? {
      StartAttemptKeeps(key, o, e, attempts, steers);
    } else if e.RecoveryChosen? || e.RecoveryPending? || e.OccurrenceRetried? {
      RecoveryKeeps(key, o, e, attempts, steers);
    } else if e.DispatchPending? {
      OpenDispatchKeeps(key, o, e, attempts, steers);
    } else if e.OccurrenceRedirected? {
      RedirectKeeps(key, o, e, attempts, steers);
    } else {
      EndingKeeps(key, o, e, attempts, steers);
    }
  }

  // ---- Runs ----

  /** The acknowledgement that delivered a person's answer to an occurrence. */
  predicate Delivers(ack: ControlAck, id: string) {
    ack.command == Some(AnswerPerson) && ack.state.AckDelivered? && ack.occurrenceId == Some(id)
  }

  predicate Answered(occurrences: Table<Occurrence>, id: string) {
    id in occurrences.at && occurrences.at[id].personPending == Some(false)
  }

  /** Every delivered answer names an answered occurrence, and no other acknowledgement delivers to the same one. */
  ghost predicate DeliveriesOk(occurrences: Table<Occurrence>, acks: Table<ControlAck>) {
    && (forall c, id :: c in acks.at && Delivers(acks.at[c], id) ==> Answered(occurrences, id))
    && (forall c, d, id :: c in acks.at && d in acks.at && Delivers(acks.at[c], id) && Delivers(acks.at[d], id) ==>
          c == d)
  }

  ghost predicate HasDelivery(acks: Table<ControlAck>, id: string) {
    exists c :: c in acks.at && Delivers(acks.at[c], id)
  }

  ghost predicate AnswersOk(occurrences: Table<Occurrence>, acks: Table<ControlAck>) {
    forall id :: Answered(occurrences, id) ==> HasDelivery(acks, id)
  }

  /** Occurrences against acknowledgements: a question is answered exactly by one delivered acknowledgement. */
  ghost predicate LedgerOk(occurrences: Table<Occurrence>, acks: Table<ControlAck>) {
    && (forall c :: c in acks.at ==> acks.at[c].controlId == c)
    && DeliveriesOk(occurrences, acks)
    && AnswersOk(occurrences, acks)
  }

  ghost predicate BoundsOk(s: Snapshot) {
    && |s.occurrences.order| <= MAX_OCCURRENCES
    && AttemptCount(s) <= MAX_ATTEMPTS
    && SteerCount(s) <= MAX_STEERS
    && |s.controlAcks.order| <= MAX_CONTROLS
  }

  ghost predicate TraceOk(s: Snapshot) {
    && Distinct(s.authoredOrder)
    && (forall id :: id in s.authoredOrder ==> id in s.occurrences.at)
    && (!s.traceRecorded ==> s.authoredOrder == [])
    && (s.status.Succeeded? ==> s.traceRecorded && |s.authoredOrder| == |s.occurrences.order| && AllSettled(s))
  }

  ghost predicate RunOk(s: Snapshot) {
    && !s.status.Cancelling? && !s.status.Orphaned?
    && (s.status.Starting? ==> s.occurrences.order == [] && s.controlAcks.order == [])
    && (forall id :: id in s.occurrences.at ==> OccurrenceOk(id, s.occurrences.at[id]))
    && BoundsOk(s)
    && TraceOk(s)
    && LedgerOk(s.occurrences, s.controlAcks)
  }

  lemma BoundsUnderPut(s: Snapshot, id: string, p: Occurrence, t: Snapshot)
    requires BoundsOk(s) && t.occurrences == Put(s.occurrences, id, p) && t.controlAcks == s.controlAcks
    requires id !in s.occurrences.at ==>
               |s.occurrences.order| < MAX_OCCURRENCES && AttemptsOf(p) == 0 && SteersOf(p) == 0
    requires id in s.occurrences.at ==>
               && (AttemptsOf(p) == AttemptsOf(s.occurrences.at[id])
                   || (AttemptsOf(p) == AttemptsOf(s.occurrences.at[id]) + 1 && AttemptCount(s) < MAX_ATTEMPTS))
               && (SteersOf(p) == SteersOf(s.occurrences.at[id])
                   || (SteersOf(p) == SteersOf(s.occurrences.at[id]) + 1 && SteerCount(s) < MAX_STEERS))
    ensures BoundsOk(t)
  {
    TotalPut(s.occurrences, AttemptsOf, id, p);
    TotalPut(s.occurrences, SteersOf, id, p);
  }

  /** The ledger depends on the occurrences only through which of them are answered. */
  lemma LedgerUnderPut(occurrences: Table<Occurrence>, acks: Table<ControlAck>, id: string, p: Occurrence)
    requires LedgerOk(occurrences, acks)
    requires p.personPending == Some(false) <==> Answered(occurrences, id)
    ensures LedgerOk(Put(occurrences, id, p), acks)
  {
    assert forall i :: Answered(Put(occurrences, id, p), i) <==> Answered(occurrences, i);
  }

  lemma StartedIsOk(id: string, o: Occurrence)
    requires o == Occurrence(id, OccRunning, o.code, o.intent, o.addressee, o.prompt,
                             None, None, None, None, None, None, true, None, None, EmptyTable())
    ensures OccurrenceOk(id, o) && AttemptsOf(o) == 0 && SteersOf(o) == 0
  {
  }

  lemma StartOccurrenceKeeps(s: Snapshot, e: Event)
    requires RunOk(s) && e.OccurrenceStarted? && StartOccurrence(s, e).Ok?
    ensures RunOk(StartOccurrence(s, e).value)
  {
    hide LedgerOk, BoundsOk, IsDecimal, DigitsValue, OccurrenceOk, AttemptsOf, SteersOf;
    var t := StartOccurrence(s, e).value;
    var id := OccurrenceId(e.occurrenceId).value;
    var p := t.occurrences.at[id];
    assert t == s.(occurrences := Put(s.occurrences, id, p));
    StartedIsOk(id, p);
    BoundsUnderPut(s, id, p, t);
    LedgerUnderPut(s.occurrences, s.controlAcks, id, p);
  }

  lemma OnOccurrenceKeeps(s: Snapshot, e: Event)
    requires RunOk(s) && IsOccurrenceEvent(e) && !IsTerminal(s.status) && OnOccurrence(s, e).Ok?
    ensures RunOk(OnOccurrence(s, e).value)
  {
    hide LedgerOk, BoundsOk, IsDecimal, DigitsValue, ApplyOccurrence, OccurrenceOk, TotalOver;
    var t := OnOccurrence(s, e).value;
    var id := OccurrenceId(e.occurrenceId).value;
    var o, p := s.occurrences.at[id], t.occurrences.at[id];
    assert t == s.(occurrences := Put(s.occurrences, id, p));
    OccurrenceKeeps(id, o, e, AttemptCount(s), SteerCount(s));
    assert forall k :: k in t.occurrences.at ==> OccurrenceOk(k, t.occurrences.at[k]);
    BoundsUnderPut(s, id, p, t);
    LedgerUnderPut(s.occurrences, s.controlAcks, id, p);
  }

  /** An acknowledgement that delivers nothing and replaces no delivery leaves the ledger alone. */
  lemma LedgerUnderAck(occurrences: Table<Occurrence>, acks: Table<ControlAck>, ack: ControlAck)
    requires LedgerOk(occurrences, acks)
    requires ack.controlId in acks.at ==> IsOpening(acks.at[ack.controlId].state)
    requires forall id :: !Delivers(ack, id)
    ensures LedgerOk(occurrences, Put(acks, ack.controlId, ack))
  {
    var next := Put(acks, ack.controlId, ack);
    forall id | Answered(occurrences, id)
      ensures HasDelivery(next, id)
    {
      assert HasDelivery(acks, id);
      var c :| c in acks.at && Delivers(acks.at[c], id);
      assert next.at[c] == acks.at[c];
    }
  }

  /** A delivery to an occurrence that was still waiting becomes the one delivery to it. */
  lemma LedgerUnderDelivery(occurrences: Table<Occurrence>, acks: Table<ControlAck>, ack: ControlAck, id: string,
                            p: Occurrence)
    requires LedgerOk(occurrences, acks)
    requires ack.controlId in acks.at ==> IsOpening(acks.at[ack.controlId].state)
    requires Delivers(ack, id) && id in occurrences.at && !Answered(occurrences, id)
    requires p.personPending == Some(false)
    ensures LedgerOk(Put(occurrences, id, p), Put(acks, ack.controlId, ack))
  {
    var next, after := Put(acks, ack.controlId, ack), Put(occurrences, id, p);
    assert forall i :: Answered(after, i) <==> i == id || Answered(occurrences, i);
    forall i | Answered(after, i)
      ensures HasDelivery(next, i)
    {
      if i == id {
        assert Delivers(next.at[ack.controlId], id);
      } else {
        assert HasDelivery(acks, i);
        var c :| c in acks.at && Delivers(acks.at[c], i);
        assert next.at[c] == acks.at[c];
      }
    }
  }

  lemma BoundsUnderAck(s: Snapshot, ack: ControlAck, t: Snapshot, id: string, p: Occurrence)
    requires BoundsOk(s) && AckTransition(PriorAck(s, ack.controlId), ack, |s.controlAcks.order|).Ok?
    requires t.controlAcks == Put(s.controlAcks, ack.controlId, ack)
    requires id in s.occurrences.at && t.occurrences == Put(s.occurrences, id, p)
             && p.attempts == s.occurrences.at[id].attempts
    ensures BoundsOk(t)
  {
    TotalPut(s.occurrences, AttemptsOf, id, p);
    TotalPut(s.occurrences, SteersOf, id, p);
  }

  lemma AnsweredIsOk(id: string, o: Occurrence)
    requires OccurrenceOk(id, o) && o.personPending == Some(true)
    ensures OccurrenceOk(id, o.(personPending := Some(false)))
  {
    hide AttemptOk, RecoveryOk, DispatchOk, HasRunningAttempt, IsPersonAddressee;
  }

  /** The delivery of an answer to an occurrence that waits for it. */
  lemma DeliveryKeeps(s: Snapshot, ack: ControlAck)
    requires RunOk(s) && s.status.Running? && RecordAck(s, ack).Ok? && PriorAck(s, ack.controlId) != Some(ack)
    requires ack.command == Some(AnswerPerson) && ack.state.AckDelivered?
    ensures RunOk(RecordAck(s, ack).value)
  {
    hide LedgerOk, BoundsOk, OccurrenceOk;
    var t := RecordAck(s, ack).value;
    var id := ack.occurrenceId.value;
    var o := s.occurrences.at[id];
    var p := o.(personPending := Some(false));
    assert t.occurrences == Put(s.occurrences, id, p);
    AnsweredIsOk(id, o);
    LedgerUnderDelivery(s.occurrences, s.controlAcks, ack, id, p);
    BoundsUnderAck(s, ack, t, id, p);
  }

  lemma RecordAckKeeps(s: Snapshot, ack: ControlAck)
    requires RunOk(s) && s.status.Running? && RecordAck(s, ack).Ok?
    ensures RunOk(RecordAck(s, ack).value)
  {
    hide LedgerOk, TotalOver, OccurrenceOk, AllSettled;
    if PriorAck(s, ack.controlId) == Some(ack) {
      return;
    }
    if ack.command == Some(AnswerPerson) && ack.state.AckDelivered? {
      DeliveryKeeps(s, ack);
    } else {
      assert RecordAck(s, ack).value.occurrences == s.occurrences;
      LedgerUnderAck(s.occurrences, s.controlAcks, ack);
    }
  }

  lemma AcknowledgeKeeps(s: Snapshot, e: Event, protocolVersion: int)
    requires RunOk(s) && !IsTerminal(s.status) && e.ControlAcknowledged? && Acknowledge(s, e, protocolVersion).Ok?
    ensures RunOk(Acknowledge(s, e, protocolVersion).value)
  {
    hide LedgerOk, BoundsOk, TraceOk, OccurrenceOk, AckOf, RecordAck;
    RecordAckKeeps(s, AckOf(e, protocolVersion).value);
  }

  lemma OrderTraceKeeps(s: Snapshot, ids: Option<seq<Text>>)
    requires RunOk(s) && !IsTerminal(s.status) && OrderTrace(s, ids).Ok?
    ensures RunOk(OrderTrace(s, ids).value)
    ensures !s.traceRecorded && OrderTrace(s, ids).value.traceRecorded
  {
    var order := DistinctTexts(ids).value;
    var t := OrderTrace(s, ids).value;
    assert t == s.(authoredOrder := order, traceRecorded := true);
    assert BoundsOk(t);
    forall id | id in order
      ensures id in s.occurrences.at
    {
      var i :| 0 <= i < |order| && order[i] == id;
    }
  }

  /** A change of status and summary fields only. */
  lemma StatusKeeps(s: Snapshot, t: Snapshot)
    requires RunOk(s) && !s.status.Succeeded?
    requires t.occurrences == s.occurrences && t.controlAcks == s.controlAcks
    requires t.authoredOrder == s.authoredOrder && t.traceRecorded == s.traceRecorded
    requires t.status.Running? || t.status.Failed? || t.status.Cancelled?
             || (t.status.Succeeded? && s.traceRecorded && |s.authoredOrder| == |s.occurrences.order| && AllSettled(s))
    ensures RunOk(t)
  {
    assert BoundsOk(t);
  }

  lemma StartRunKeeps(s: Snapshot, e: Event, protocolVersion: int)
    requires RunOk(s) && e.RunStarted? && !IsTerminal(s.status) && StartRun(s, e, protocolVersion).Ok?
    ensures RunOk(StartRun(s, e, protocolVersion).value)
  {
    StatusKeeps(s, StartRun(s, e, protocolVersion).value);
  }

  lemma CompleteRunKeeps(s: Snapshot, e: Event, protocolVersion: int)
    requires RunOk(s) && e.RunCompleted? && CompleteRun(s, e, protocolVersion).Ok?
    ensures RunOk(CompleteRun(s, e, protocolVersion).value)
  {
    hide LedgerOk, BoundsOk, OccurrenceOk, IsDecimal;
    StatusKeeps(s, CompleteRun(s, e, protocolVersion).value);
  }

  lemma EndRunKeeps(s: Snapshot, e: Event)
    requires RunOk(s) && (e.RunFailed? || e.RunCancelled?)
    requires e.RunFailed? ==> FailRun(s, e.message, e.failure).Ok?
    requires e.RunCancelled? ==> CancelRun(s, e.message).Ok?
    ensures RunOk(if e.RunFailed? then FailRun(s, e.message, e.failure).value else CancelRun(s, e.message).value)
  {
    if e.RunFailed? {
      StatusKeeps(s, FailRun(s, e.message, e.failure).value);
    } else {
      StatusKeeps(s, CancelRun(s, e.message).value);
    }
  }

  lemma ApplyKeeps(s: Snapshot, e: Event, protocolVersion: int)
    requires RunOk(s) && !IsTerminal(s.status) && Apply(s, e, protocolVersion).Ok?
    ensures RunOk(Apply(s, e, protocolVersion).value)
  {
    hide RunOk, StartRun, CompleteRun, FailRun, CancelRun, OnOccurrence, StartOccurrence, OrderTrace, Acknowledge;
    if IsOccurrenceEvent(e) {
      OnOccurrenceKeeps(s, e);
      return;
    }
    match e
    case OccurrenceStarted(_, _, _, _, _) => StartOccurrenceKeeps(s, e);
    case ControlAcknowledged(_, _, _, _, _, _) => AcknowledgeKeeps(s, e, protocolVersion);
    case TraceOrdered(ids) => OrderTraceKeeps(s, ids);
    case RunStarted(_, _, _) => StartRunKeeps(s, e, protocolVersion);
    case RunCompleted(_, _, _) => CompleteRunKeeps(s, e, protocolVersion);
    case _ => EndRunKeeps(s, e);
  }

  lemma ReduceKeeps(s: Snapshot, env: Envelope)
    requires RunOk(s) && ReduceEvent(s, env).Ok?
    ensures RunOk(ReduceEvent(s, env).value)
  {
    hide Apply, OccurrenceOk, LedgerOk, TotalOver;
    assert AttemptCount(Advance(s, env)) == AttemptCount(s) && SteerCount(Advance(s, env)) == SteerCount(s);
    ApplyKeeps(Advance(s, env), env.event, env.protocolVersion);
  }

  lemma {:induction false} ReplayKeeps(s: Snapshot, run: seq<Envelope>)
    requires RunOk(s) && Replay(s, run).Ok?
    ensures RunOk(Replay(s, run).value)
  {
    if run != [] {
      ReplayKeeps(s, run[..|run| - 1]);
      ReduceKeeps(Replay(s, run[..|run| - 1]).value, run[|run| - 1]);
    }
  }

  /** The lifecycle invariant holds of every snapshot that some run of accepted envelopes leads to. */
  lemma ReachableIsOk(s: Snapshot)
    requires Reachable(s)
    ensures RunOk(s)
  {
    var runId, run :| Replay(InitialSnapshot(runId), run) == Ok(s);
    ReplayKeeps(InitialSnapshot(runId), run);
  }
}
