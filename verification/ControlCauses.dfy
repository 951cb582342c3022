/** How every control ends: a terminal acknowledgement resolves its waiter, and each rejection has its own cause. */
module ControlCauses {
  import opened Prelude
  import opened Snapshots
  import opened Reducer
  import opened Controls
  import opened ControlTheorems
  import opened RestoredRuns
  import Journal
  import RunTheorems
  import Utf8

  /** A terminal acknowledgement record that the snapshot holds. */
  predicate Recorded(r: Live, id: string, ack: ControlAck) {
    PriorAck(r.snapshot, id) == Some(ack) && !IsOpening(ack.state)
  }

  predicate HasRecord(r: Live, id: string) {
    PriorAck(r.snapshot, id).Some? && Recorded(r, id, PriorAck(r.snapshot, id).value)
  }

  /** In protocol 2, a record must repeat what was sent: command, occurrence and attempt. */
  predicate Answers(r: Live, ack: ControlAck, sent: Correlation) {
    r.snapshot.protocolVersion == Some(2) ==>
      ack.command == Some(sent.command) && ack.occurrenceId == sent.occurrenceId && ack.attemptId == sent.attemptId
  }

  // ---- Lines ----

  /** Why lines settle a control: its record became terminal, or the run was faulted by them. */
  predicate LineCause(r: Live, t: Live, settlement: Settlement) {
    && settlement.controlId in r.waiters.at
    && match settlement
       case Resolved(id, ack) => Recorded(t, id, ack) && Answers(t, ack, r.waiters.at[id])
       case Rejected(id, reason) =>
         && t.faulted
         && (reason == RunFault
             || (reason == Mismatch && HasRecord(t, id)
                 && !Answers(t, PriorAck(t.snapshot, id).value, r.waiters.at[id])))
  }

  /** A terminal record settles its waiter with exactly that record, or rejects it as uncorrelated. */
  ghost predicate SettledByRecord(r: Live, t: Live, id: string)
    requires id in r.waiters.at && HasRecord(t, id)
  {
    var ack := PriorAck(t.snapshot, id).value;
    exists i :: |r.settled| <= i < |t.settled|
                && t.settled[i] ==
                  if Answers(t, ack, r.waiters.at[id]) then Resolved(id, ack) else Rejected(id, Mismatch)
  }

  ghost predicate CausesOk(r: Live, t: Live) {
    && r.settled <= t.settled
    && (forall i :: |r.settled| <= i < |t.settled| ==> LineCause(r, t, t.settled[i]))
  }

  ghost predicate WaitersOk(r: Live, t: Live) {
    && (forall id :: id in t.waiters.at ==> id in r.waiters.at && t.waiters.at[id] == r.waiters.at[id])
    && (forall id :: id in r.waiters.at && !HasRecord(t, id) && !t.faulted ==> id in t.waiters.at)
    && (forall id :: id in r.waiters.at && !HasRecord(r, id) && HasRecord(t, id) ==> SettledByRecord(r, t, id))
  }

  predicate RecordsOk(r: Live, t: Live) {
    && (forall id :: id in r.snapshot.controlAcks.at && HasRecord(r, id) ==>
          PriorAck(t.snapshot, id) == PriorAck(r.snapshot, id))
    && (r.snapshot.protocolVersion.Some? ==> t.snapshot.protocolVersion == r.snapshot.protocolVersion)
    && (r.snapshot.controlAcks.order != [] ==> r.snapshot.protocolVersion.Some?)
    && (t.snapshot.controlAcks.order != [] ==> t.snapshot.protocolVersion.Some?)
    && (r.faulted ==> t.faulted && t.snapshot.controlAcks == r.snapshot.controlAcks)
  }

  /** What any number of lines do to the controls. */
  ghost predicate Leads(r: Live, t: Live) { CausesOk(r, t) && WaitersOk(r, t) && RecordsOk(r, t) }

  lemma NoLineLeads(r: Live)
    requires r.snapshot.controlAcks.order != [] ==> r.snapshot.protocolVersion.Some?
    ensures Leads(r, r)
  {
  }

  lemma RecordStays(r: Live, t: Live, id: string)
    requires RecordsOk(r, t) && HasRecord(r, id)
    ensures HasRecord(t, id) && PriorAck(t.snapshot, id) == PriorAck(r.snapshot, id)
    ensures t.snapshot.protocolVersion == r.snapshot.protocolVersion
  {
    assert id in r.snapshot.controlAcks.order;
  }

  lemma CauseStays(r: Live, m: Live, t: Live, settlement: Settlement)
    requires LineCause(r, m, settlement) && RecordsOk(m, t)
    ensures LineCause(r, t, settlement)
  {
    if HasRecord(m, settlement.controlId) { RecordStays(m, t, settlement.controlId); }
  }

  lemma CauseEarlier(r: Live, m: Live, t: Live, settlement: Settlement)
    requires WaitersOk(r, m) && LineCause(m, t, settlement)
    ensures LineCause(r, t, settlement)
  {
    hide SettledByRecord;
  }

  lemma CausesCompose(r: Live, m: Live, t: Live)
    requires Leads(r, m) && Leads(m, t)
    ensures CausesOk(r, t)
  {
    hide LineCause, SettledByRecord, HasRecord;
    forall i | |r.settled| <= i < |t.settled|
      ensures LineCause(r, t, t.settled[i])
    {
      if i < |m.settled| {
        assert t.settled[i] == m.settled[i];
        CauseStays(r, m, t, m.settled[i]);
      } else {
        CauseEarlier(r, m, t, t.settled[i]);
      }
    }
  }

  lemma RecordsCompose(r: Live, m: Live, t: Live)
    requires RecordsOk(r, m) && RecordsOk(m, t)
    ensures RecordsOk(r, t)
  {
    forall id | id in r.snapshot.controlAcks.at && HasRecord(r, id)
      ensures PriorAck(t.snapshot, id) == PriorAck(r.snapshot, id)
    {
      RecordStays(r, m, id);
      RecordStays(m, t, id);
    }
  }

  lemma SettlingStays(r: Live, m: Live, t: Live, id: string)
    requires Leads(r, m) && Leads(m, t) && id in r.waiters.at && !HasRecord(r, id) && HasRecord(t, id)
    ensures SettledByRecord(r, t, id)
  {
    if HasRecord(m, id) {
      RecordStays(m, t, id);
      assert SettledByRecord(r, m, id);
      var ack := PriorAck(m.snapshot, id).value;
      var i :| |r.settled| <= i < |m.settled|
               && m.settled[i] ==
                 if Answers(m, ack, r.waiters.at[id]) then Resolved(id, ack) else Rejected(id, Mismatch);
      assert t.settled[i] == m.settled[i];
    } else {
      assert !m.faulted;
      assert id in m.waiters.at;
      assert SettledByRecord(m, t, id);
    }
  }

  lemma LeadsCompose(r: Live, m: Live, t: Live)
    requires Leads(r, m) && Leads(m, t)
    ensures Leads(r, t)
  {
    CausesCompose(r, m, t);
    RecordsCompose(r, m, t);
    forall id | id in r.waiters.at && !HasRecord(r, id) && HasRecord(t, id)
      ensures SettledByRecord(r, t, id)
    {
      SettlingStays(r, m, t, id);
    }
    forall id | id in r.waiters.at && !HasRecord(t, id) && !t.faulted
      ensures id in t.waiters.at
    {
      if HasRecord(m, id) { RecordStays(m, t, id); }
    }
  }

  /** Records belong to a run whose version is known. */
  predicate VersionKnown(r: Live) { r.snapshot.controlAcks.order != [] ==> r.snapshot.protocolVersion.Some? }

  lemma TextLeads(r: Live, t: Live)
    requires VersionKnown(r)
    requires t == r.(buffer := t.buffer, mirror := t.mirror, accepted := t.accepted)
    ensures Leads(r, t)
  {
  }

  lemma FailLeads(r: Live, message: string)
    requires VersionKnown(r) && !r.terminal
    ensures Leads(r, Fail(r, message))
  {
    var t := Fail(r, message);
    assert t.snapshot.controlAcks == r.snapshot.controlAcks;
    assert forall id :: HasRecord(t, id) == HasRecord(r, id);
    forall i | |r.settled| <= i < |t.settled|
      ensures LineCause(r, t, t.settled[i])
    {
      assert t.settled[i] == Rejected(r.waiters.order[i - |r.settled|], RunFault);
      assert r.waiters.order[i - |r.settled|] in r.waiters.order;
    }
  }

  lemma RejectLeads(r: Live, id: string, ack: ControlAck)
    requires VersionKnown(r) && Recorded(r, id, ack) && id in r.waiters.at && !Answers(r, ack, r.waiters.at[id])
    requires !r.terminal
    ensures var t := Fail(SettleWith(r, Rejected(id, Mismatch)), MISMATCH);
            && CausesOk(r, t) && RecordsOk(r, t) && t.faulted && t.waiters.order == []
            && t.snapshot.controlAcks == r.snapshot.controlAcks
            && t.snapshot.protocolVersion == r.snapshot.protocolVersion
            && |t.settled| > |r.settled| && t.settled[|r.settled|] == Rejected(id, Mismatch)
  {
    var m := SettleWith(r, Rejected(id, Mismatch));
    var t := Fail(m, MISMATCH);
    assert forall k :: HasRecord(t, k) == HasRecord(r, k);
    forall i | |r.settled| <= i < |t.settled|
      ensures LineCause(r, t, t.settled[i])
    {
      if i > |r.settled| {
        assert t.settled[i] == Rejected(m.waiters.order[i - |m.settled|], RunFault);
        assert m.waiters.order[i - |m.settled|] in m.waiters.order;
      }
    }
  }

  /** One accepted envelope and the settling of what it acknowledges. */
  lemma AcceptLeads(r: Live, envelope: Envelope)
    requires ControlsOk(r) && VersionKnown(r) && !r.terminal && ReduceEvent(r.snapshot, envelope).Ok?
    ensures var next := r.(snapshot := ReduceEvent(r.snapshot, envelope).value, accepted := r.accepted + [envelope]);
            Leads(r, Acknowledged(next, envelope.event))
  {
    AcceptKeeps(r, envelope);
    VersionIsKept(r.snapshot, envelope);
    FrozenRecords(r, envelope);
    OtherRecords(r.snapshot, envelope);
    hide ReduceEvent, ControlsOk, LineCause, Leads;
    var next := r.(snapshot := ReduceEvent(r.snapshot, envelope).value, accepted := r.accepted + [envelope]);
    AcknowledgedLeads(r, next, envelope.event);
  }

  lemma FrozenRecords(r: Live, envelope: Envelope)
    requires ControlsOk(r) && ReduceEvent(r.snapshot, envelope).Ok?
    ensures forall id :: id in r.snapshot.controlAcks.at && HasRecord(r, id) ==>
              PriorAck(ReduceEvent(r.snapshot, envelope).value, id) == PriorAck(r.snapshot, id)
  {
    hide ReduceEvent, LedgerOk, ResolutionsOk;
    forall id | id in r.snapshot.controlAcks.at && HasRecord(r, id)
      ensures PriorAck(ReduceEvent(r.snapshot, envelope).value, id) == PriorAck(r.snapshot, id)
    {
      TerminalAckIsFrozen(r.snapshot, envelope, id);
    }
  }

  /** Only the record of the acknowledged control can change. */
  lemma OtherRecords(s: Snapshot, envelope: Envelope)
    requires ReduceEvent(s, envelope).Ok?
    ensures forall id :: PriorAck(ReduceEvent(s, envelope).value, id) != PriorAck(s, id) ==>
              envelope.event.ControlAcknowledged? && envelope.event.controlId == Some(id)
  {
    hide Admit, AnswerPersonAck, AckTransition;
    var before := Advance(s, envelope);
    if !envelope.event.ControlAcknowledged? {
      RunTheorems.OtherEventsKeepAcks(before, envelope.event, envelope.protocolVersion);
    }
  }

  lemma AcknowledgedLeads(r: Live, next: Live, event: Event)
    requires VersionKnown(r) && !r.terminal && !r.faulted
    requires next == r.(snapshot := next.snapshot, accepted := next.accepted) && next.snapshot.protocolVersion.Some?
    requires r.snapshot.protocolVersion.Some? ==> next.snapshot.protocolVersion == r.snapshot.protocolVersion
    requires forall id :: id in r.snapshot.controlAcks.at && HasRecord(r, id) ==>
               PriorAck(next.snapshot, id) == PriorAck(r.snapshot, id)
    requires forall id :: PriorAck(next.snapshot, id) != PriorAck(r.snapshot, id) ==>
               event.ControlAcknowledged? && event.controlId == Some(id)
    ensures Leads(r, Acknowledged(next, event))
  {
    hide Without, LineCause;
    var t := Acknowledged(next, event);
    if event.ControlAcknowledged? && event.controlId.Some? && HasRecord(next, event.controlId.value)
       && event.controlId.value in next.waiters.at {
      var id := event.controlId.value;
      var ack := PriorAck(next.snapshot, id).value;
      SettlingLeads(r, next, id, ack);
    } else {
      assert t == next;
      assert forall id :: HasRecord(next, id) && !HasRecord(r, id) ==> id !in r.waiters.at;
    }
  }

  lemma SettlingLeads(r: Live, next: Live, id: string, ack: ControlAck)
    requires VersionKnown(r) && !r.terminal && !r.faulted
    requires next == r.(snapshot := next.snapshot, accepted := next.accepted) && next.snapshot.protocolVersion.Some?
    requires r.snapshot.protocolVersion.Some? ==> next.snapshot.protocolVersion == r.snapshot.protocolVersion
    requires forall k :: k in r.snapshot.controlAcks.at && HasRecord(r, k) ==>
               PriorAck(next.snapshot, k) == PriorAck(r.snapshot, k)
    requires forall k :: PriorAck(next.snapshot, k) != PriorAck(r.snapshot, k) ==> k == id
    requires id in next.waiters.at && Recorded(next, id, ack)
    ensures Leads(r, SettleControl(next, id, ack))
  {
    hide Leads, Fail, SettleWith, VersionKnown, HasRecord;
    if Answers(next, ack, next.waiters.at[id]) {
      ResolvingLeads(r, next, id, ack);
    } else {
      RejectingLeads(r, next, id, ack);
    }
  }

  lemma ResolvingLeads(r: Live, next: Live, id: string, ack: ControlAck)
    requires VersionKnown(r) && !r.terminal && !r.faulted
    requires next == r.(snapshot := next.snapshot, accepted := next.accepted) && next.snapshot.protocolVersion.Some?
    requires r.snapshot.protocolVersion.Some? ==> next.snapshot.protocolVersion == r.snapshot.protocolVersion
    requires forall k :: k in r.snapshot.controlAcks.at && HasRecord(r, k) ==>
               PriorAck(next.snapshot, k) == PriorAck(r.snapshot, k)
    requires forall k :: PriorAck(next.snapshot, k) != PriorAck(r.snapshot, k) ==> k == id
    requires id in next.waiters.at && Recorded(next, id, ack) && Answers(next, ack, next.waiters.at[id])
    ensures Leads(r, SettleWith(next, Resolved(id, ack)))
  {
    var t := SettleWith(next, Resolved(id, ack));
    assert t.settled[|r.settled|] == Resolved(id, ack);
    assert SettledByRecord(r, t, id);
    assert forall k :: k != id && HasRecord(t, k) ==> HasRecord(r, k);
  }

  lemma RejectingLeads(r: Live, next: Live, id: string, ack: ControlAck)
    requires VersionKnown(r) && !r.terminal && !r.faulted
    requires next == r.(snapshot := next.snapshot, accepted := next.accepted) && next.snapshot.protocolVersion.Some?
    requires r.snapshot.protocolVersion.Some? ==> next.snapshot.protocolVersion == r.snapshot.protocolVersion
    requires forall k :: k in r.snapshot.controlAcks.at && HasRecord(r, k) ==>
               PriorAck(next.snapshot, k) == PriorAck(r.snapshot, k)
    requires forall k :: PriorAck(next.snapshot, k) != PriorAck(r.snapshot, k) ==> k == id
    requires id in next.waiters.at && Recorded(next, id, ack) && !Answers(next, ack, next.waiters.at[id])
    ensures Leads(r, Fail(SettleWith(next, Rejected(id, Mismatch)), MISMATCH))
  {
    hide Fail, SettleWith;
    RejectLeads(next, id, ack);
    var t := Fail(SettleWith(next, Rejected(id, Mismatch)), MISMATCH);
    assert SettledByRecord(r, t, id);
    assert forall k :: k != id && HasRecord(t, k) ==> HasRecord(r, k);
  }

  lemma LineLeads(parse: Parser, r: Live, line: string)
    requires ControlsOk(r) && VersionKnown(r) && !r.terminal
    ensures var t := TakeLine(parse, r, line); Leads(r, t) && ControlsOk(t) && VersionKnown(t) && !t.terminal
  {
    hide Leads, ControlsOk, ReduceEvent, Acknowledged, Fail, VersionKnown;
    TakeLineKeeps(parse, r, line);
    FailLeads(r, BAD_LINE);
    FailStaysOpen(r, BAD_LINE);
    if parse(line).Some? {
      var envelope := parse(line).value;
      if ReduceEvent(r.snapshot, envelope).Ok? {
        AcceptLeads(r, envelope);
        AcknowledgedStaysOpen(r.(snapshot := ReduceEvent(r.snapshot, envelope).value,
                                 accepted := r.accepted + [envelope]),
                              envelope.event);
      }
    }
    LeadsKnown(r, TakeLine(parse, r, line));
  }

  lemma LeadsKnown(r: Live, t: Live)
    requires Leads(r, t)
    ensures VersionKnown(t)
  {
    hide CausesOk, WaitersOk;
  }

  lemma FailStaysOpen(r: Live, message: string)
    ensures Fail(r, message).terminal == r.terminal
  {
    hide FailedBySupervisor, Reject;
  }

  lemma AcknowledgedStaysOpen(r: Live, event: Event)
    ensures Acknowledged(r, event).terminal == r.terminal
  {
    hide PriorAck, Correlates, Without, Fail, IsOpening;
    if event.ControlAcknowledged? && event.controlId.Some? {
      FailStaysOpen(SettleWith(r, Rejected(event.controlId.value, Mismatch)), MISMATCH);
    }
  }

  lemma LineTakenLeads(r: Live)
    requires ControlsOk(r) && VersionKnown(r) && Journal.LineEnd(r.buffer) < |r.buffer|
    ensures Leads(r, LineTaken(r)) && ControlsOk(LineTaken(r)) && VersionKnown(LineTaken(r))
            && LineTaken(r).terminal == r.terminal
  {
    hide Settlements, Leads;
    TextLeads(r, LineTaken(r));
  }

  lemma {:induction false} LinesLead(parse: Parser, r: Live)
    requires ControlsOk(r) && VersionKnown(r) && !r.terminal
    ensures Leads(r, ConsumeLines(parse, r))
    decreases |r.buffer|
  {
    if Journal.LineEnd(r.buffer) < |r.buffer| {
      ConsumeUnfolds(parse, r);
      TakenLine(r);
      LineTakenLeads(r);
      hide *;
      var line, next := r.buffer[..Journal.LineEnd(r.buffer)], LineTaken(r);
      if line == "" {
        LinesLead(parse, next);
        LeadsCompose(r, next, ConsumeLines(parse, next));
      } else if |Utf8.Encode(line)| > Journal.MAX_FRAME {
        FailLeads(next, OVERLONG);
        LeadsCompose(r, next, Fail(next, OVERLONG));
      } else {
        TakeLineKeepsBuffer(parse, next, line);
        LineLeads(parse, next, line);
        var taken := TakeLine(parse, next, line);
        LinesLead(parse, taken);
        LeadsCompose(r, next, taken);
        LeadsCompose(r, taken, ConsumeLines(parse, taken));
      }
    } else {
      NoLineLeads(r);
    }
  }

  lemma OutputLeads(parse: Parser, r: Live, chunk: string)
    requires ControlsOk(r) && VersionKnown(r)
    ensures Leads(r, Next(parse, r, Output(chunk)))
  {
    hide Settlements, Leads, Fail, ConsumeLines;
    NoLineLeads(r);
    if !r.terminal {
      var grown := r.(buffer := r.buffer + chunk);
      TextLeads(r, grown);
      FailLeads(grown, OVERFULL);
      LeadsCompose(r, grown, Fail(grown, OVERFULL));
      LinesLead(parse, grown);
      LeadsCompose(r, grown, ConsumeLines(parse, grown));
    }
  }

  // ---- Steps ----

  /** Why a step settles a control. */
  predicate Caused(r: Live, step: Step, t: Live, settlement: Settlement) {
    match settlement
    case Resolved(_, _) => step.Output? && LineCause(r, t, settlement)
    case Rejected(id, NotAcknowledged) => step == TimeOut(id)
    case Rejected(id, SendFailed) => step.Send? && step.controlId == id && !step.writable
    case Rejected(id, Mismatch) => step.Output? && LineCause(r, t, settlement)
    case Rejected(id, RunFault) => (step.Output? || step.Fault? || step.Close?) && id in r.waiters.at && t.faulted
    case Rejected(id, RunEnd) => step.Finish? && id in r.waiters.at && t.finished
  }

  ghost predicate StepCauses(r: Live, step: Step, t: Live) {
    && r.settled <= t.settled
    && forall i :: |r.settled| <= i < |t.settled| ==> Caused(r, step, t, t.settled[i])
  }

  lemma OutputCauses(parse: Parser, r: Live, chunk: string)
    requires ControlsOk(r) && VersionKnown(r)
    ensures StepCauses(r, Output(chunk), Next(parse, r, Output(chunk))) && VersionKnown(Next(parse, r, Output(chunk)))
  {
    hide Next, WaitersOk, RecordsOk;
    OutputLeads(parse, r, chunk);
    LeadsKnown(r, Next(parse, r, Output(chunk)));
  }

  lemma FaultCauses(r: Live, message: string, step: Step)
    requires VersionKnown(r) && (step.Fault? || step.Close?)
    ensures StepCauses(r, step, Fail(r, message)) && VersionKnown(Fail(r, message))
  {
    var t := Fail(r, message);
    forall i | |r.settled| <= i < |t.settled|
      ensures Caused(r, step, t, t.settled[i])
    {
      assert t.settled[i] == Rejected(r.waiters.order[i - |r.settled|], RunFault);
      assert r.waiters.order[i - |r.settled|] in r.waiters.order;
    }
  }

  /** The exit settles nothing, or rejects every waiter with a fault. */
  lemma ClosedSettles(r: Live)
    requires !r.terminal
    ensures var t := ClosedRun(r);
            && t.snapshot.controlAcks == r.snapshot.controlAcks
            && t.snapshot.protocolVersion == r.snapshot.protocolVersion
            && (t.settled == r.settled || (t.faulted && t.settled == r.settled + Reject(r.waiters.order, RunFault)))
  {
    hide IsBlank, IsTerminal, Fail;
    FailSettles(r, TORN);
    FailSettles(Fail(r, TORN), NO_END);
    FailSettles(r, NO_END);
  }

  lemma FailSettles(r: Live, message: string)
    requires !r.terminal
    ensures var t := Fail(r, message);
            && t.snapshot.controlAcks == r.snapshot.controlAcks
            && t.snapshot.protocolVersion == r.snapshot.protocolVersion
            && t.faulted && !t.terminal && t.waiters.order == []
            && t.settled == r.settled + Reject(r.waiters.order, RunFault)
            && (r.waiters.order == [] ==> t.settled == r.settled)
  {
  }

  lemma CloseCauses(parse: Parser, r: Live)
    requires VersionKnown(r) && !r.terminal
    ensures StepCauses(r, Close, ClosedRun(r)) && VersionKnown(ClosedRun(r))
  {
    hide ClosedRun;
    ClosedSettles(r);
    var t := ClosedRun(r);
    forall i | |r.settled| <= i < |t.settled|
      ensures Caused(r, Close, t, t.settled[i])
    {
      assert t.settled[i] == Rejected(r.waiters.order[i - |r.settled|], RunFault);
      assert r.waiters.order[i - |r.settled|] in r.waiters.order;
    }
  }

  lemma FinishCauses(r: Live, verified: bool, stored: bool)
    requires VersionKnown(r)
    ensures StepCauses(r, Finish(verified, stored), FinishedRun(r, verified, stored))
            && VersionKnown(FinishedRun(r, verified, stored))
  {
    var t := FinishedRun(r, verified, stored);
    forall i | |r.settled| <= i < |t.settled|
      ensures Caused(r, Finish(verified, stored), t, t.settled[i])
    {
      assert t.settled[i] == Rejected(r.waiters.order[i - |r.settled|], RunEnd);
      assert r.waiters.order[i - |r.settled|] in r.waiters.order;
    }
  }

  lemma NextCauses(parse: Parser, r: Live, step: Step)
    requires ControlsOk(r) && VersionKnown(r)
    ensures StepCauses(r, step, Next(parse, r, step)) && VersionKnown(Next(parse, r, step))
  {
    if step.Output? {
      OutputCauses(parse, r, step.chunk);
    } else {
      hide ControlsOk, Fail, ClosedRun, FinishedRun, StepCauses, VersionKnown;
      NothingCauses(r, step);
      match step
      case Fault(message) => FaultCauses(r, message, step);
      case Close => if !r.terminal { CloseCauses(parse, r); }
      case Finish(verified, stored) => FinishCauses(r, verified, stored);
      case _ => ControlStepCauses(parse, r, step);
    }
  }

  lemma NothingCauses(r: Live, step: Step)
    ensures StepCauses(r, step, r)
  {
    hide Caused;
  }

  lemma ControlStepCauses(parse: Parser, r: Live, step: Step)
    requires VersionKnown(r) && (step.Send? || step.TimeOut? || step.CancelRun? || step.ForceExit?)
    ensures StepCauses(r, step, Next(parse, r, step)) && VersionKnown(Next(parse, r, step))
  {
    hide SendControl, SettleWith, Consume, ClosedRun, FinishedRun, Fail, StepCauses, VersionKnown;
    NothingCauses(r, step);
    match step
    case Send(_, _, _) => SendCauses(r, step);
    case TimeOut(id) => SettledCauses(r, step, Rejected(id, NotAcknowledged));
    case _ => FlagCauses(r, Next(parse, r, step), step);
  }

  lemma FlagCauses(r: Live, t: Live, step: Step)
    requires VersionKnown(r) && t == r.(cancelRequested := t.cancelRequested, forced := t.forced)
    ensures StepCauses(r, step, t) && VersionKnown(t)
  {
    hide Caused;
  }

  lemma SettledCauses(r: Live, step: Step, settlement: Settlement)
    requires VersionKnown(r) && Caused(r, step, SettleWith(r, settlement), settlement)
    ensures StepCauses(r, step, SettleWith(r, settlement)) && VersionKnown(SettleWith(r, settlement))
  {
    hide Caused, Without;
  }

  lemma SendCauses(r: Live, step: Step)
    requires VersionKnown(r) && step.Send?
    ensures var t := SendControl(r, step.controlId, step.request, step.writable);
            StepCauses(r, step, t) && VersionKnown(t)
  {
    hide Allowed, CorrelationOf, Without;
  }

  lemma {:induction false} AfterIsKnown(parse: Parser, runId: string, steps: seq<Step>)
    ensures VersionKnown(After(parse, runId, steps))
  {
    hide Next, VersionKnown;
    if steps == [] {
      NewIsKnown(runId);
    } else {
      AfterIsKnown(parse, runId, steps[..|steps| - 1]);
      AfterIsSafe(parse, runId, steps[..|steps| - 1]);
      hide ControlsOk, SourceOk, MirrorOk;
      NextCauses(parse, After(parse, runId, steps[..|steps| - 1]), steps[|steps| - 1]);
    }
  }

  lemma NewIsKnown(runId: string)
    ensures VersionKnown(NewLive(runId))
  {
  }

  lemma AfterNext(parse: Parser, runId: string, steps: seq<Step>, k: nat)
    requires k < |steps|
    ensures After(parse, runId, steps[..k + 1]) == Next(parse, After(parse, runId, steps[..k]), steps[k])
  {
    hide Next;
    assert steps[..k + 1][..k] == steps[..k];
  }

  /**
   Every settlement was made by one step, and each kind has its own cause: a resolution and a correlation mismatch come
   from output that made the record of the control terminal, a missing acknowledgement from the time-out of that very
   control, a failed sending from its refused write, the rest from a fault or from the end of the run.
   */
  lemma {:induction false} SettlementsHaveCauses(parse: Parser, runId: string, steps: seq<Step>,
                                                 i: nat) returns (k: nat)
    requires i < |After(parse, runId, steps).settled|
    ensures k < |steps|
    ensures var r, t := After(parse, runId, steps[..k]), After(parse, runId, steps[..k + 1]);
            && |r.settled| <= i < |t.settled| && t.settled[i] == After(parse, runId, steps).settled[i]
            && Caused(r, steps[k], t, t.settled[i])
  {
    hide After, Caused;
    if steps == [] { NothingSettled(parse, runId); }
    var n := |steps| - 1;
    LastStepCauses(parse, runId, steps, i);
    if i < |After(parse, runId, steps[..n]).settled| {
      k := SettlementsHaveCauses(parse, runId, steps[..n], i);
      assert steps[..n][..k] == steps[..k] && steps[..n][..k + 1] == steps[..k + 1];
    } else {
      k := n;
      assert steps[..n + 1] == steps;
    }
  }

  lemma NothingSettled(parse: Parser, runId: string)
    ensures After(parse, runId, []).settled == []
  {
  }

  lemma LastStepCauses(parse: Parser, runId: string, steps: seq<Step>, i: nat)
    requires steps != [] && i < |After(parse, runId, steps).settled|
    ensures var r, t := After(parse, runId, steps[..|steps| - 1]), After(parse, runId, steps);
            && (i < |r.settled| ==> t.settled[i] == r.settled[i])
            && (i >= |r.settled| ==> Caused(r, steps[|steps| - 1], t, t.settled[i]))
  {
    hide Next, Caused, VersionKnown;
    var n := |steps| - 1;
    AfterIsSafe(parse, runId, steps[..n]);
    AfterIsKnown(parse, runId, steps[..n]);
    hide ControlsOk, SourceOk, MirrorOk;
    NextCauses(parse, After(parse, runId, steps[..n]), steps[n]);
  }

  /**
   A control that waits is settled by the output that makes its record terminal: resolved with exactly that record if
   the protocol has no correlation or the record repeats what was sent, and otherwise rejected as uncorrelated.
   */
  lemma TerminalRecordSettles(parse: Parser, runId: string, steps: seq<Step>, chunk: string, id: string)
    requires var r, t := After(parse, runId, steps), After(parse, runId, steps + [Output(chunk)]);
             id in r.waiters.at && !HasRecord(r, id) && HasRecord(t, id)
    ensures var r, t := After(parse, runId, steps), After(parse, runId, steps + [Output(chunk)]);
            var ack := PriorAck(t.snapshot, id).value;
            && id in r.sent && id !in t.waiters.at
            && (if Answers(t, ack, r.sent[id]) then Resolved(id, ack) in t.settled
                else t.faulted && Rejected(id, Mismatch) in t.settled)
  {
    hide *;
    var r, t := After(parse, runId, steps), After(parse, runId, steps + [Output(chunk)]);
    AfterControls(parse, runId, steps);
    AfterControls(parse, runId, steps + [Output(chunk)]);
    AfterOutput(parse, runId, steps, chunk);
    OutputLeads(parse, r, chunk);
    SentAsWaiting(r, id);
    SettledWaitsNot(r, t, id);
  }

  lemma AfterControls(parse: Parser, runId: string, steps: seq<Step>)
    ensures ControlsOk(After(parse, runId, steps)) && VersionKnown(After(parse, runId, steps))
  {
    hide ControlsOk, SourceOk, MirrorOk, After, VersionKnown;
    AfterIsSafe(parse, runId, steps);
    AfterIsKnown(parse, runId, steps);
  }

  lemma AfterOutput(parse: Parser, runId: string, steps: seq<Step>, chunk: string)
    ensures After(parse, runId, steps + [Output(chunk)]) == Next(parse, After(parse, runId, steps), Output(chunk))
  {
    hide Next;
    assert (steps + [Output(chunk)])[..|steps + [Output(chunk)]| - 1] == steps;
  }

  lemma SentAsWaiting(r: Live, id: string)
    requires ControlsOk(r) && id in r.waiters.at
    ensures id in r.sent && r.sent[id] == r.waiters.at[id]
  {
    hide Settlements;
  }

  lemma SettledWaitsNot(r: Live, t: Live, id: string)
    requires ControlsOk(t) && Leads(r, t) && id in r.waiters.at && !HasRecord(r, id) && HasRecord(t, id)
    ensures id !in t.waiters.at
    ensures var ack := PriorAck(t.snapshot, id).value;
            if Answers(t, ack, r.waiters.at[id]) then Resolved(id, ack) in t.settled
            else t.faulted && Rejected(id, Mismatch) in t.settled
  {
    hide Settlements;
    assert SettledByRecord(r, t, id);
    var ack := PriorAck(t.snapshot, id).value;
    var i :| |r.settled| <= i < |t.settled|
             && t.settled[i] == if Answers(t, ack, r.waiters.at[id]) then Resolved(id, ack) else Rejected(id, Mismatch);
    assert LineCause(r, t, t.settled[i]);
    SettledOnce(t.settled, i);
  }

  lemma {:induction false} SettledOnce(settled: seq<Settlement>, i: nat)
    requires i < |settled|
    ensures Settlements(settled, settled[i].controlId) >= 1
  {
    if i < |settled| - 1 { SettledOnce(settled[..|settled| - 1], i); }
  }
}
