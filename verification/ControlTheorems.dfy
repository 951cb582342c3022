/**
 Over every interleaving of output, controls, timeouts, failure and exit: controls settle once, and the live run is what
 replay restores.
 */
module ControlTheorems {
  import opened Prelude
  import opened Snapshots
  import opened Reducer
  import opened Controls
  import Fields
  import Journal
  import Restore
  import RunTheorems
  import Utf8

  // ---- Settlements are counted per control ----

  function Settlements(settled: seq<Settlement>, id: string): nat {
    if settled == [] then 0
    else Settlements(settled[..|settled| - 1], id) + if settled[|settled| - 1].controlId == id then 1 else 0
  }

  lemma {:induction false} SettlementsAppend(a: seq<Settlement>, b: seq<Settlement>, id: string)
    ensures Settlements(a + b, id) == Settlements(a, id) + Settlements(b, id)
  {
    if b == [] {
      assert a + b == a;
    } else {
      assert (a + b)[..|a + b| - 1] == a + b[..|b| - 1];
      SettlementsAppend(a, b[..|b| - 1], id);
    }
  }

  lemma {:induction false} RejectedOnce(ids: seq<string>, reason: Rejection, id: string)
    requires Distinct(ids)
    ensures Settlements(Reject(ids, reason), id) == if id in ids then 1 else 0
  {
    if ids != [] {
      var init := ids[..|ids| - 1];
      assert Reject(ids, reason)[..|ids| - 1] == Reject(init, reason);
      RejectedOnce(init, reason, id);
      assert ids == init + [ids[|ids| - 1]];
    }
  }

  // ---- The ledger of controls ----

  /** Each control that was sent waits or has been settled, exactly once; nothing else was settled. */
  ghost predicate LedgerOk(r: Live) {
    && (forall id :: id in r.waiters.at ==> id in r.sent && r.waiters.at[id] == r.sent[id])
    && (forall id :: Settlements(r.settled, id) == if id in r.sent && id !in r.waiters.at then 1 else 0)
  }

  /**
   A resolution carries a terminal record of its control, correlated in protocol 2, which the snapshot still holds.
   */
  predicate ResolutionOk(r: Live, settlement: Settlement) {
    settlement.Resolved? ==>
      && settlement.controlId in r.sent
      && settlement.ack.controlId == settlement.controlId
      && !IsOpening(settlement.ack.state)
      && PriorAck(r.snapshot, settlement.controlId) == Some(settlement.ack)
      && r.snapshot.protocolVersion.Some?
      && (r.snapshot.protocolVersion == Some(2) ==> Correlates(settlement.ack, r.sent[settlement.controlId]))
  }

  ghost predicate ResolutionsOk(r: Live) {
    forall i :: 0 <= i < |r.settled| ==> ResolutionOk(r, r.settled[i])
  }

  ghost predicate PhasesOk(r: Live) {
    && (forall id :: id in r.snapshot.controlAcks.at ==> r.snapshot.controlAcks.at[id].controlId == id)
    && (r.faulted ==> r.snapshot.status.Failed? && r.waiters.order == [])
    && (r.terminal ==> IsTerminal(r.snapshot.status))
    && (r.finished ==> r.terminal && r.waiters.order == [])
  }

  ghost predicate ControlsOk(r: Live) { LedgerOk(r) && ResolutionsOk(r) && PhasesOk(r) }

  lemma RejectAllKeeps(r: Live, reason: Rejection)
    requires LedgerOk(r)
    ensures LedgerOk(r.(waiters := EmptyTable(), settled := r.settled + Reject(r.waiters.order, reason)))
  {
    forall id
      ensures Settlements(r.settled + Reject(r.waiters.order, reason), id) == if id in r.sent then 1 else 0
    {
      SettlementsAppend(r.settled, Reject(r.waiters.order, reason), id);
      RejectedOnce(r.waiters.order, reason, id);
    }
  }

  lemma FailKeeps(r: Live, message: string)
    requires ControlsOk(r)
    ensures ControlsOk(Fail(r, message))
  {
    hide Settlements;
    if !r.terminal {
      RejectAllKeeps(r, RunFault);
      var t := Fail(r, message);
      assert LedgerOk(t);
      forall i | 0 <= i < |t.settled|
        ensures ResolutionOk(t, t.settled[i])
      {
        assert i < |r.settled| ==> ResolutionOk(r, r.settled[i]);
      }
    }
  }

  lemma SettleWithKeeps(r: Live, settlement: Settlement)
    requires ControlsOk(r) && settlement.controlId in r.waiters.at && ResolutionOk(r, settlement)
    ensures ControlsOk(SettleWith(r, settlement))
  {
    var t := SettleWith(r, settlement);
    forall id
      ensures Settlements(t.settled, id) == if id in t.sent && id !in t.waiters.at then 1 else 0
    {
      SettlementsAppend(r.settled, [settlement], id);
      assert [settlement][..0] == [];
    }
    forall i | 0 <= i < |t.settled|
      ensures ResolutionOk(t, t.settled[i])
    {
      assert i < |r.settled| ==> ResolutionOk(r, r.settled[i]);
    }
    assert r.waiters.order != [];
  }

  lemma SettleControlKeeps(r: Live, id: string)
    requires ControlsOk(r) && id in r.snapshot.controlAcks.at && r.snapshot.protocolVersion.Some?
    ensures ControlsOk(SettleControl(r, id, r.snapshot.controlAcks.at[id]))
  {
    hide Settlements, Without;
    var ack := r.snapshot.controlAcks.at[id];
    if !IsOpening(ack.state) && id in r.waiters.at {
      if r.snapshot.protocolVersion == Some(2) && !Correlates(ack, r.waiters.at[id]) {
        SettleWithKeeps(r, Rejected(id, Mismatch));
        FailKeeps(SettleWith(r, Rejected(id, Mismatch)), MISMATCH);
      } else {
        SettleWithKeeps(r, Resolved(id, ack));
      }
    }
  }

  // ---- Accepted envelopes ----

  /** A terminal acknowledgement record is frozen: no accepted envelope changes it. */
  lemma TerminalAckIsFrozen(s: Snapshot, envelope: Envelope, id: string)
    requires ReduceEvent(s, envelope).Ok?
    requires id in s.controlAcks.at && !IsOpening(s.controlAcks.at[id].state) && s.controlAcks.at[id].controlId == id
    ensures PriorAck(ReduceEvent(s, envelope).value, id) == PriorAck(s, id)
  {
    hide Admit, Fields.AckOf, AnswerPersonAck;
    var before := Advance(s, envelope);
    if !envelope.event.ControlAcknowledged? {
      RunTheorems.OtherEventsKeepAcks(before, envelope.event, envelope.protocolVersion);
    }
  }

  lemma AcksKeepTheirNames(s: Snapshot, envelope: Envelope)
    requires ReduceEvent(s, envelope).Ok?
    requires forall id :: id in s.controlAcks.at ==> s.controlAcks.at[id].controlId == id
    ensures var t := ReduceEvent(s, envelope).value;
            forall id :: id in t.controlAcks.at ==> t.controlAcks.at[id].controlId == id
  {
    hide Admit, Fields.AckOf, AnswerPersonAck, AckTransition;
    var before := Advance(s, envelope);
    if !envelope.event.ControlAcknowledged? {
      RunTheorems.OtherEventsKeepAcks(before, envelope.event, envelope.protocolVersion);
    }
  }

  lemma AcceptKeeps(r: Live, envelope: Envelope)
    requires ControlsOk(r) && !r.terminal && ReduceEvent(r.snapshot, envelope).Ok?
    ensures ControlsOk(r.(snapshot := ReduceEvent(r.snapshot, envelope).value, accepted := r.accepted + [envelope]))
    ensures !r.faulted && ReduceEvent(r.snapshot, envelope).value.protocolVersion.Some?
  {
    RunTheorems.ReduceBookkeeping(r.snapshot, envelope);
    AcksKeepTheirNames(r.snapshot, envelope);
    VersionIsKept(r.snapshot, envelope);
    hide ReduceEvent, Settlements;
    var t := r.(snapshot := ReduceEvent(r.snapshot, envelope).value, accepted := r.accepted + [envelope]);
    forall i | 0 <= i < |t.settled|
      ensures ResolutionOk(t, t.settled[i])
    {
      assert ResolutionOk(r, r.settled[i]);
      if r.settled[i].Resolved? { TerminalAckIsFrozen(r.snapshot, envelope, r.settled[i].controlId); }
    }
  }

  lemma VersionIsKept(s: Snapshot, envelope: Envelope)
    requires ReduceEvent(s, envelope).Ok?
    ensures s.protocolVersion.Some? ==> ReduceEvent(s, envelope).value.protocolVersion == s.protocolVersion
  {
    RunTheorems.ReduceBookkeeping(s, envelope);
    hide Apply;
  }

  lemma TakeLineKeeps(parse: Parser, r: Live, line: string)
    requires ControlsOk(r) && !r.terminal
    ensures ControlsOk(TakeLine(parse, r, line))
  {
    hide ReduceEvent, ControlsOk, SettleControl;
    match parse(line)
    case None => FailKeeps(r, BAD_LINE);
    case Some(envelope) =>
      match ReduceEvent(r.snapshot, envelope)
      case Refused(_) => FailKeeps(r, BAD_LINE);
      case Ok(next) =>
        AcceptKeeps(r, envelope);
        var t := r.(snapshot := next, accepted := r.accepted + [envelope]);
        if envelope.event.ControlAcknowledged? && envelope.event.controlId.Some?
           && envelope.event.controlId.value in next.controlAcks.at {
          SettleControlKeeps(t, envelope.event.controlId.value);
        }
  }

  // ---- The live snapshot against the events accepted and the text mirrored ----

  /** The snapshot that the accepted envelopes alone give. */
  function Replayed(runId: string, r: Live): Result<Snapshot> { Replay(InitialSnapshot(runId), r.accepted) }

  /** The supervisor's own ending of a run: status and failure, nothing else. */
  predicate Overruled(s: Snapshot, base: Snapshot) {
    && (s.status.Failed? || s.status.Cancelled?)
    && s == base.(status := s.status, failure := s.failure, failureClass := s.failureClass)
  }

  ghost predicate SourceOk(runId: string, r: Live) {
    && Replayed(runId, r).Ok?
    && var base := Replayed(runId, r).value;
       && (r.snapshot == base || Overruled(r.snapshot, base))
       && (!r.finished && r.snapshot != base ==> Restore.SupervisorTerminal(r.snapshot))
       && (!r.faulted && !r.terminal ==> r.snapshot == base)
       && (!r.faulted && r.terminal && !r.finished ==>
             r.snapshot == base || (!IsTerminal(base.status) && r.snapshot == CancelledBySupervisor(base, r.forced)))
  }

  /** Unless a fault stopped the run, the mirrored text folds to the accepted envelopes' snapshot. */
  ghost predicate MirrorOk(parse: Parser, runId: string, r: Live) {
    !r.faulted ==>
      Replayed(runId, r).Ok? && Journal.FoldLines(parse, InitialSnapshot(runId), r.mirror)
        == Some((Replayed(runId, r).value, ""))
  }

  ghost predicate LiveOk(parse: Parser, runId: string, r: Live) {
    ControlsOk(r) && SourceOk(runId, r) && MirrorOk(parse, runId, r)
  }

  lemma FailIsOverruling(runId: string, r: Live, message: string)
    requires SourceOk(runId, r)
    ensures SourceOk(runId, Fail(r, message))
  {
    hide Replay;
  }

  lemma FailIsSafe(parse: Parser, runId: string, r: Live, message: string)
    requires ControlsOk(r) && SourceOk(runId, r) && (r.terminal ==> MirrorOk(parse, runId, r))
    ensures LiveOk(parse, runId, Fail(r, message))
  {
    FailKeeps(r, message);
    FailIsOverruling(runId, r, message);
    hide Replay, ControlsOk, SourceOk, Journal.FoldLines;
  }

  lemma FoldOneLine(parse: Parser, s: Snapshot, line: string)
    requires Journal.LineEnd(line) == |line|
    ensures Journal.FoldLines(parse, s, line + "\n")
            == match Journal.ReduceLine(parse, s, line) case None => None case Some(t) => Some((t, ""))
  {
    hide Journal.ReduceLine;
    Journal.LineEndAppend(line, "\n");
    assert Journal.LineEnd(line + "\n") == |line|;
    assert (line + "\n")[..|line|] == line && (line + "\n")[|line| + 1..] == "";
  }

  /** Mirroring one more line that reduces to t. */
  lemma MirrorGrows(parse: Parser, runId: string, mirror: string, s: Snapshot, line: string)
    requires Journal.FoldLines(parse, InitialSnapshot(runId), mirror) == Some((s, ""))
    requires Journal.LineEnd(line) == |line| && Journal.ReduceLine(parse, s, line).Some?
    ensures Journal.FoldLines(parse, InitialSnapshot(runId), mirror + line + "\n")
            == Some((Journal.ReduceLine(parse, s, line).value, ""))
  {
    hide Journal.FoldLines, Journal.ReduceLine;
    Journal.FoldAppend(parse, InitialSnapshot(runId), mirror, line + "\n");
    assert mirror + (line + "\n") == mirror + line + "\n";
    assert "" + (line + "\n") == line + "\n";
    FoldOneLine(parse, s, line);
  }

  /** The settling of an acknowledgement either faults the run or leaves its snapshot alone. */
  lemma AcknowledgedSource(runId: string, r: Live, event: Event)
    requires SourceOk(runId, r)
    ensures var t := Acknowledged(r, event);
            SourceOk(runId, t) && t.mirror == r.mirror && t.buffer == r.buffer && t.terminal == r.terminal
              && t.accepted == r.accepted
            && (!t.faulted ==> !r.faulted && t.snapshot == r.snapshot)
  {
    hide Replay, Without, SourceOk, Correlates;
    if event.ControlAcknowledged? && event.controlId.Some? && PriorAck(r.snapshot, event.controlId.value).Some? {
      var id, ack := event.controlId.value, PriorAck(r.snapshot, event.controlId.value).value;
      if !IsOpening(ack.state) && id in r.waiters.at {
        SettlingSource(runId, r, Resolved(id, ack));
        SettlingSource(runId, r, Rejected(id, Mismatch));
        FailIsOverruling(runId, SettleWith(r, Rejected(id, Mismatch)), MISMATCH);
      }
    }
  }

  lemma SettlingSource(runId: string, r: Live, settlement: Settlement)
    requires SourceOk(runId, r)
    ensures SourceOk(runId, SettleWith(r, settlement))
  {
    hide Replay, Without;
  }

  lemma AcceptSource(runId: string, r: Live, envelope: Envelope)
    requires SourceOk(runId, r) && !r.terminal && !r.faulted && ReduceEvent(r.snapshot, envelope).Ok?
    ensures SourceOk(runId, r.(snapshot := ReduceEvent(r.snapshot, envelope).value,
                               accepted := r.accepted + [envelope]))
  {
    ReplayOneMore(InitialSnapshot(runId), r.accepted, envelope);
    assert r.snapshot == Replayed(runId, r).value;
    hide ReduceEvent, Replay, InitialSnapshot;
  }

  lemma ReplayOneMore(s: Snapshot, run: seq<Envelope>, envelope: Envelope)
    ensures Replay(s, run + [envelope])
            == match Replay(s, run) case Refused(e) => Refused(e) case Ok(t) => ReduceEvent(t, envelope)
  {
    hide ReduceEvent;
    assert (run + [envelope])[..|run + [envelope]| - 1] == run;
  }

  lemma TakeLineIsSafe(parse: Parser, runId: string, r: Live, line: string, mirror: string)
    requires LiveOk(parse, runId, r) && !r.terminal
    requires line != "" && Journal.LineEnd(line) == |line| && |Utf8.Encode(line)| <= Journal.MAX_FRAME
    requires mirror == r.mirror + line + "\n"
    ensures var t := TakeLine(parse, r.(mirror := mirror), line);
            LiveOk(parse, runId, t) && !t.terminal
  {
    var next := r.(mirror := mirror);
    assert ControlsOk(next) by { hide Settlements; }
    assert SourceOk(runId, next) by { hide Replay; }
    hide ControlsOk, Journal.FoldLines, ReduceEvent, Replay, SettleControl;
    match parse(line)
    case None => FailIsSafe(parse, runId, next, BAD_LINE);
    case Some(envelope) =>
      match ReduceEvent(next.snapshot, envelope)
      case Refused(_) => FailIsSafe(parse, runId, next, BAD_LINE);
      case Ok(_) => AcceptedLineIsSafe(parse, runId, r, line, mirror, envelope);
  }

  lemma AcceptedLineIsSafe(parse: Parser, runId: string, r: Live, line: string, mirror: string, envelope: Envelope)
    requires LiveOk(parse, runId, r) && !r.terminal
    requires line != "" && Journal.LineEnd(line) == |line| && |Utf8.Encode(line)| <= Journal.MAX_FRAME
    requires mirror == r.mirror + line + "\n"
    requires parse(line) == Some(envelope) && ReduceEvent(r.snapshot, envelope).Ok?
    requires ControlsOk(r.(mirror := mirror)) && SourceOk(runId, r.(mirror := mirror))
    ensures var t := TakeLine(parse, r.(mirror := mirror), line);
            LiveOk(parse, runId, t) && !t.terminal
  {
    var next := r.(mirror := mirror);
    TakeLineKeeps(parse, next, line);
    AcceptKeeps(next, envelope);
    AcceptSource(runId, next, envelope);
    var accepted := next.(snapshot := ReduceEvent(r.snapshot, envelope).value, accepted := next.accepted + [envelope]);
    AcknowledgedSource(runId, accepted, envelope.event);
    assert r.snapshot == Replayed(runId, r).value by { hide Replay; }
    ReplayOneMore(InitialSnapshot(runId), r.accepted, envelope);
    hide ControlsOk, Journal.FoldLines, ReduceEvent, Replay, Acknowledged;
    MirrorGrows(parse, runId, r.mirror, r.snapshot, line);
  }

  lemma {:induction false} ConsumeLinesIsSafe(parse: Parser, runId: string, r: Live)
    requires LiveOk(parse, runId, r) && !r.terminal
    ensures LiveOk(parse, runId, ConsumeLines(parse, r)) && !ConsumeLines(parse, r).terminal
    decreases |r.buffer|
  {
    var end := Journal.LineEnd(r.buffer);
    if end < |r.buffer| {
      var line, rest := r.buffer[..end], r.buffer[end + 1..];
      var mirror := r.mirror + line + "\n";
      assert Journal.LineEnd(line) == |line|;
      var shorter := r.(buffer := rest);
      BufferIsFree(parse, runId, r, rest);
      var next := shorter.(mirror := mirror);
      hide LiveOk, TakeLine, Fail;
      if line == "" {
        assert LiveOk(parse, runId, next) by { BlankLineIsSafe(parse, runId, shorter, mirror); }
        ConsumeLinesIsSafe(parse, runId, next);
      } else if |Utf8.Encode(line)| > Journal.MAX_FRAME {
        OverlongLineIsSafe(parse, runId, shorter, mirror);
      } else {
        TakeLineIsSafe(parse, runId, shorter, line, mirror);
        TakeLineKeepsBuffer(parse, next, line);
        ConsumeLinesIsSafe(parse, runId, TakeLine(parse, next, line));
      }
    }
  }

  lemma BufferIsFree(parse: Parser, runId: string, r: Live, buffer: string)
    requires LiveOk(parse, runId, r)
    ensures LiveOk(parse, runId, r.(buffer := buffer))
  {
    hide Settlements, Replay, Journal.FoldLines;
  }

  lemma BlankLineIsSafe(parse: Parser, runId: string, r: Live, mirror: string)
    requires LiveOk(parse, runId, r) && mirror == r.mirror + "" + "\n"
    ensures LiveOk(parse, runId, r.(mirror := mirror))
  {
    hide Settlements, Replay, Journal.FoldLines;
    if !r.faulted {
      MirrorGrows(parse, runId, r.mirror, Replayed(runId, r).value, "");
    }
  }

  lemma OverlongLineIsSafe(parse: Parser, runId: string, r: Live, mirror: string)
    requires LiveOk(parse, runId, r) && !r.terminal
    ensures LiveOk(parse, runId, Fail(r.(mirror := mirror), OVERLONG)) && !Fail(r.(mirror := mirror), OVERLONG).terminal
  {
    hide Settlements, Replay, Journal.FoldLines;
    FailIsSafe(parse, runId, r.(mirror := mirror), OVERLONG);
  }

  lemma ConsumeIsSafe(parse: Parser, runId: string, r: Live, chunk: string)
    requires LiveOk(parse, runId, r) && !r.terminal
    ensures LiveOk(parse, runId, Consume(parse, r, chunk))
  {
    var grown := r.(buffer := r.buffer + chunk);
    BufferIsFree(parse, runId, r, grown.buffer);
    hide LiveOk;
    if Utf16Length(grown.buffer) > 2 * Journal.MAX_FRAME {
      FailIsSafe(parse, runId, grown, OVERFULL);
    } else {
      ConsumeLinesIsSafe(parse, runId, grown);
    }
  }

  lemma RegisterKeeps(r: Live, id: string, expected: Correlation)
    requires ControlsOk(r) && !r.faulted && !r.finished && id !in r.sent
    ensures ControlsOk(r.(waiters := Put(r.waiters, id, expected), sent := r.sent[id := expected]))
  {
    hide Settlements, Correlates, PriorAck;
    var t := r.(waiters := Put(r.waiters, id, expected), sent := r.sent[id := expected]);
    assert id !in r.waiters.at;
    assert LedgerOk(t);
    forall i | 0 <= i < |t.settled|
      ensures ResolutionOk(t, t.settled[i])
    {
      assert ResolutionOk(r, r.settled[i]);
    }
  }

  lemma SendIsSafe(parse: Parser, runId: string, r: Live, id: string, request: Request, writable: bool)
    requires LiveOk(parse, runId, r) && !r.terminal && Allowed(r.snapshot, request) && id !in r.sent
    ensures LiveOk(parse, runId, SendControl(r, id, request, writable))
  {
    var expected := CorrelationOf(request);
    assert !r.faulted && !r.finished;
    RegisterKeeps(r, id, expected);
    hide Replay, Journal.FoldLines, Without, Allowed, CorrelationOf, ControlsOk;
    var waiting := r.(waiters := Put(r.waiters, id, expected), sent := r.sent[id := expected]);
    assert LiveOk(parse, runId, waiting);
    if !writable { RejectIsSafe(parse, runId, waiting, id, SendFailed); }
  }

  lemma ClosedIsSafe(parse: Parser, runId: string, r: Live)
    requires LiveOk(parse, runId, r) && !r.terminal
    ensures LiveOk(parse, runId, ClosedRun(r))
  {
    var torn := if IsBlank(r.buffer) then r else Fail(r, TORN);
    assert LiveOk(parse, runId, torn) && !torn.terminal by {
      FailIsSafe(parse, runId, r, TORN);
      hide LiveOk;
    }
    if IsTerminal(torn.snapshot.status) {
      EndedIsSafe(parse, runId, torn, torn.snapshot);
    } else if torn.cancelRequested {
      EndedIsSafe(parse, runId, torn, CancelledBySupervisor(torn.snapshot, torn.forced));
    } else {
      FailIsSafe(parse, runId, torn, NO_END);
      hide Settlements, Replay, Journal.FoldLines;
      EndedIsSafe(parse, runId, Fail(torn, NO_END), Fail(torn, NO_END).snapshot);
    }
  }

  lemma EndedIsSafe(parse: Parser, runId: string, r: Live, ending: Snapshot)
    requires LiveOk(parse, runId, r) && !r.terminal
    requires if IsTerminal(r.snapshot.status) then ending == r.snapshot
             else ending == CancelledBySupervisor(r.snapshot, r.forced)
    ensures LiveOk(parse, runId, r.(snapshot := ending, terminal := true))
  {
    hide Settlements, Replay, Journal.FoldLines;
    var t := r.(snapshot := ending, terminal := true);
    forall i | 0 <= i < |t.settled|
      ensures ResolutionOk(t, t.settled[i])
    {
      assert ResolutionOk(r, r.settled[i]);
    }
  }

  lemma FinishedIsSafe(parse: Parser, runId: string, r: Live, verified: bool, stored: bool)
    requires LiveOk(parse, runId, r) && r.terminal && !r.finished
    ensures LiveOk(parse, runId, FinishedRun(r, verified, stored))
  {
    hide Settlements, Replay, Journal.FoldLines;
    RejectAllKeeps(r, RunEnd);
    var t := FinishedRun(r, verified, stored);
    forall i | 0 <= i < |t.settled|
      ensures ResolutionOk(t, t.settled[i])
    {
      assert i < |r.settled| ==> ResolutionOk(r, r.settled[i]);
    }
  }

  lemma RejectIsSafe(parse: Parser, runId: string, r: Live, id: string, reason: Rejection)
    requires LiveOk(parse, runId, r) && id in r.waiters.at
    ensures LiveOk(parse, runId, SettleWith(r, Rejected(id, reason)))
  {
    SettleWithKeeps(r, Rejected(id, reason));
    hide ControlsOk, Replay, Journal.FoldLines, Without;
  }

  lemma FlagsAreSafe(parse: Parser, runId: string, r: Live)
    requires LiveOk(parse, runId, r) && !r.terminal
    ensures LiveOk(parse, runId, r.(cancelRequested := true)) && LiveOk(parse, runId, r.(forced := true))
  {
    hide Settlements, Replay, Journal.FoldLines;
  }

  lemma NextIsSafe(parse: Parser, runId: string, r: Live, step: Step)
    requires LiveOk(parse, runId, r)
    ensures LiveOk(parse, runId, Next(parse, r, step))
  {
    assert ControlsOk(r) && SourceOk(runId, r) && MirrorOk(parse, runId, r);
    hide LiveOk, ControlsOk, SourceOk, MirrorOk, Consume, SendControl, SettleWith, Fail, ClosedRun, FinishedRun,
         Allowed;
    match step
    case Output(chunk) => if !r.terminal { ConsumeIsSafe(parse, runId, r, chunk); }
    case Send(id, request, writable) =>
      if !(r.terminal || !Allowed(r.snapshot, request) || id in r.sent) {
        SendIsSafe(parse, runId, r, id, request, writable);
      }
    case TimeOut(id) => if id in r.waiters.at { RejectIsSafe(parse, runId, r, id, NotAcknowledged); }
    case Fault(message) => FailIsSafe(parse, runId, r, message);
    case CancelRun => if !r.terminal { FlagsAreSafe(parse, runId, r); }
    case ForceExit => if !r.terminal { FlagsAreSafe(parse, runId, r); }
    case Close => if !r.terminal { ClosedIsSafe(parse, runId, r); }
    case Finish(verified, stored) => if r.terminal && !r.finished { FinishedIsSafe(parse, runId, r, verified, stored); }
  }

  /** The invariant of every interleaving. */
  lemma {:induction false} AfterIsSafe(parse: Parser, runId: string, steps: seq<Step>)
    ensures LiveOk(parse, runId, After(parse, runId, steps))
  {
    if steps == [] {
      NewIsSafe(parse, runId);
    } else {
      AfterIsSafe(parse, runId, steps[..|steps| - 1]);
      NextIsSafe(parse, runId, After(parse, runId, steps[..|steps| - 1]), steps[|steps| - 1]);
    }
  }

  lemma NewIsSafe(parse: Parser, runId: string)
    ensures LiveOk(parse, runId, NewLive(runId))
  {
  }

  // ---- Theorems over every interleaving ----

  /** Every control that was sent is waiting or settled, exactly once; once the run is finished, all are settled. */
  lemma ControlsSettleExactlyOnce(parse: Parser, runId: string, steps: seq<Step>, id: string)
    ensures var r := After(parse, runId, steps);
            && Settlements(r.settled, id) == (if id in r.sent && id !in r.waiters.at then 1 else 0)
            && (id in r.waiters.at ==> id in r.sent)
            && (r.finished || r.faulted ==> id !in r.waiters.at)
  {
    AfterIsSafe(parse, runId, steps);
    hide After;
    var r := After(parse, runId, steps);
    assert r.finished || r.faulted ==> r.waiters.order == [];
  }

  /** What a control resolves with is a terminal record of what was sent, and no later step changes it. */
  lemma ResolutionsAreFinal(parse: Parser, runId: string, steps: seq<Step>, i: nat)
    requires i < |After(parse, runId, steps).settled| && After(parse, runId, steps).settled[i].Resolved?
    ensures var r := After(parse, runId, steps);
            var resolved := r.settled[i];
            && resolved.controlId in r.sent && resolved.ack.controlId == resolved.controlId
            && !IsOpening(resolved.ack.state)
            && PriorAck(r.snapshot, resolved.controlId) == Some(resolved.ack)
            && (r.snapshot.protocolVersion == Some(2) ==> Correlates(resolved.ack, r.sent[resolved.controlId]))
  {
    AfterIsSafe(parse, runId, steps);
    hide After;
    var r := After(parse, runId, steps);
    assert ResolutionOk(r, r.settled[i]);
  }

  /** A run that its supervisor reports as succeeded is a replay of the envelopes accepted, and no fault befell it. */
  lemma SuccessIsReplayed(parse: Parser, runId: string, steps: seq<Step>)
    requires After(parse, runId, steps).snapshot.status.Succeeded?
    ensures var r := After(parse, runId, steps);
            && !r.faulted && Replay(InitialSnapshot(runId), r.accepted) == Ok(r.snapshot) && Reachable(r.snapshot)
            && Journal.FoldLines(parse, InitialSnapshot(runId), r.mirror) == Some((r.snapshot, ""))
  {
    AfterIsSafe(parse, runId, steps);
    hide After, Replay;
  }
}
