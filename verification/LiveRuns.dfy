/**
 What each kind of step leaves of a live run: output is read as its journal will be, and every ending has its cause.
 */
module LiveRuns {
  import opened Prelude
  import opened Snapshots
  import opened Reducer
  import opened Controls
  import opened ControlTheorems
  import opened RestoredRuns
  import Journal
  import Utf8

  // ---- Output ----

  /** Some control was rejected between two states because its acknowledgement does not repeat what was sent. */
  ghost predicate Mismatched(r: Live, t: Live) {
    exists i :: |r.settled| <= i < |t.settled| && t.settled[i].Rejected? && t.settled[i].reason == Mismatch
  }

  /** The lines of a text as the journal reader folds them. */
  ghost predicate ReadAs(parse: Parser, r: Live, text: string, t: Live) {
    match Journal.FoldLines(parse, r.snapshot, text)
    case None => t.faulted
    case Some((s, rest)) =>
      if t.faulted then Mismatched(r, t)
      else
        && t.snapshot == s && t.buffer == rest
        && t.mirror + rest == r.mirror + text
        && t.accepted == r.accepted + Journal.EventsOf(parse, text)
  }

  lemma {:induction false} LinesStayFaulted(parse: Parser, r: Live)
    requires r.faulted
    ensures ConsumeLines(parse, r).faulted
    decreases |r.buffer|
  {
    if Journal.LineEnd(r.buffer) < |r.buffer| {
      ConsumeUnfolds(parse, r);
      TakenLine(r);
      TakenStays(r);
      hide *;
      var line, next := r.buffer[..Journal.LineEnd(r.buffer)], LineTaken(r);
      if line == "" {
        LinesStayFaulted(parse, next);
      } else if |Utf8.Encode(line)| > Journal.MAX_FRAME {
        FailStaysFaulted(next, OVERLONG);
      } else {
        TakeLineKeepsBuffer(parse, next, line);
        LineStaysFaulted(parse, next, line);
        LinesStayFaulted(parse, TakeLine(parse, next, line));
      }
    }
  }

  lemma TakenStays(r: Live)
    requires Journal.LineEnd(r.buffer) < |r.buffer|
    ensures LineTaken(r) == r.(buffer := LineTaken(r).buffer, mirror := LineTaken(r).mirror)
  {
  }

  lemma FailStaysFaulted(r: Live, message: string)
    ensures r.faulted || !r.terminal ==> Fail(r, message).faulted
    ensures r.settled <= Fail(r, message).settled
  {
  }

  lemma LineStaysFaulted(parse: Parser, r: Live, line: string)
    requires r.faulted
    ensures TakeLine(parse, r, line).faulted
  {
    hide ReduceEvent, PriorAck, Correlates, Without, IsOpening, FailedBySupervisor, Reject;
  }

  lemma {:induction false} LinesOnlySettle(parse: Parser, r: Live)
    ensures r.settled <= ConsumeLines(parse, r).settled
    decreases |r.buffer|
  {
    if Journal.LineEnd(r.buffer) < |r.buffer| {
      ConsumeUnfolds(parse, r);
      TakenLine(r);
      TakenStays(r);
      hide *;
      var line, next := r.buffer[..Journal.LineEnd(r.buffer)], LineTaken(r);
      if line == "" {
        LinesOnlySettle(parse, next);
      } else if |Utf8.Encode(line)| > Journal.MAX_FRAME {
        FailStaysFaulted(next, OVERLONG);
      } else {
        TakeLineKeepsBuffer(parse, next, line);
        LineOnlySettles(parse, next, line);
        LinesOnlySettle(parse, TakeLine(parse, next, line));
      }
    }
  }

  lemma LineOnlySettles(parse: Parser, r: Live, line: string)
    ensures r.settled <= TakeLine(parse, r, line).settled
  {
    hide ReduceEvent, Acknowledged, FailedBySupervisor, Reject;
    if parse(line).Some? && ReduceEvent(r.snapshot, parse(line).value).Ok? {
      var envelope := parse(line).value;
      AcknowledgedOnlySettles(r.(snapshot := ReduceEvent(r.snapshot, envelope).value,
                                 accepted := r.accepted + [envelope]), envelope.event);
    }
  }

  lemma AcknowledgedOnlySettles(r: Live, event: Event)
    ensures r.settled <= Acknowledged(r, event).settled
  {
    hide PriorAck, SettleControl;
    if event.ControlAcknowledged? && event.controlId.Some? && PriorAck(r.snapshot, event.controlId.value).Some? {
      ControlOnlySettles(r, event.controlId.value, PriorAck(r.snapshot, event.controlId.value).value);
    }
  }

  lemma ControlOnlySettles(r: Live, id: string, ack: ControlAck)
    ensures r.settled <= SettleControl(r, id, ack).settled
  {
    hide Correlates, IsOpening, Fail, SettleWith;
    OneMoreSettled(r, Resolved(id, ack));
    OneMoreSettled(r, Rejected(id, Mismatch));
    FailOnlySettles(SettleWith(r, Rejected(id, Mismatch)), MISMATCH);
  }

  lemma OneMoreSettled(r: Live, settlement: Settlement)
    ensures r.settled <= SettleWith(r, settlement).settled
  {
    hide Without;
  }

  lemma FailOnlySettles(r: Live, message: string)
    ensures r.settled <= Fail(r, message).settled
  {
    hide FailedBySupervisor, Reject;
  }

  /**
   One line on a run without a fault: as the journal reader reduces it, unless an acknowledgement does not correlate.
   */
  lemma LineIsReduced(parse: Parser, r: Live, line: string)
    requires !r.terminal && !r.faulted && line != "" && |Utf8.Encode(line)| <= Journal.MAX_FRAME
    ensures var t := TakeLine(parse, r, line);
            match Journal.ReduceLine(parse, r.snapshot, line)
            case None => t.faulted
            case Some(s) =>
              if t.faulted then Mismatched(r, t)
              else t.snapshot == s && t.accepted == r.accepted + Journal.EventOf(parse, line) && !t.terminal
  {
    hide ReduceEvent, Utf8.Encode, Acknowledged;
    if parse(line).Some? && ReduceEvent(r.snapshot, parse(line).value).Ok? {
      var envelope := parse(line).value;
      var next := r.(snapshot := ReduceEvent(r.snapshot, envelope).value, accepted := r.accepted + [envelope]);
      AcknowledgedFaults(next, envelope.event);
      LineIsAccepted(parse, r, line, envelope);
    }
  }

  lemma AcknowledgedFaults(r: Live, event: Event)
    requires !r.terminal && !r.faulted
    ensures var t := Acknowledged(r, event);
            if t.faulted then Mismatched(r, t) else t.snapshot == r.snapshot && t.accepted == r.accepted && !t.terminal
  {
    hide PriorAck, Correlates, Without, IsOpening, FailedBySupervisor;
    var t := Acknowledged(r, event);
    if t.faulted { assert t.settled[|r.settled|].Rejected? && t.settled[|r.settled|].reason == Mismatch; }
  }

  lemma {:induction false} LinesAreFolded(parse: Parser, r: Live)
    requires !r.terminal && !r.faulted
    ensures ReadAs(parse, r, r.buffer, ConsumeLines(parse, r))
    decreases |r.buffer|
  {
    Journal.FoldUnfolds(parse, r.snapshot, r.buffer);
    Journal.EventsUnfold(parse, r.buffer);
    if Journal.LineEnd(r.buffer) < |r.buffer| {
      FirstLineRead(parse, r);
    } else {
      hide Journal.FoldLines, Journal.EventsOf, Journal.LineEnd;
      assert r.accepted + [] == r.accepted;
    }
  }

  lemma {:induction false} FirstLineRead(parse: Parser, r: Live)
    requires !r.terminal && !r.faulted && Journal.LineEnd(r.buffer) < |r.buffer|
    ensures ReadAs(parse, r, r.buffer, ConsumeLines(parse, r))
    decreases |r.buffer|, 0
  {
    ConsumeUnfolds(parse, r);
    TakenLine(r);
    TakenStays(r);
    hide *;
    var line, next := r.buffer[..Journal.LineEnd(r.buffer)], LineTaken(r);
    if line == "" {
      LinesAreFolded(parse, next);
      BlankIsRead(parse, r, next, ConsumeLines(parse, next));
    } else if |Utf8.Encode(line)| > Journal.MAX_FRAME {
      OverlongIsRefused(parse, r);
      FailStaysFaulted(next, OVERLONG);
      RefusedIsRead(parse, r, Fail(next, OVERLONG));
    } else {
      LineIsReduced(parse, next, line);
      TakeLineKeepsBuffer(parse, next, line);
      var taken := TakeLine(parse, next, line);
      LineOnlySettles(parse, next, line);
      LinesOnlySettle(parse, taken);
      if taken.faulted {
        LinesStayFaulted(parse, taken);
        FaultIsRead(parse, r, next, taken, ConsumeLines(parse, taken));
      } else {
        LinesAreFolded(parse, taken);
        LineIsRead(parse, r, next, taken, ConsumeLines(parse, taken));
      }
    }
  }

  lemma BlankIsRead(parse: Parser, r: Live, next: Live, t: Live)
    requires Journal.LineEnd(r.buffer) < |r.buffer| && r.buffer[..Journal.LineEnd(r.buffer)] == ""
             && next == LineTaken(r)
    requires ReadAs(parse, next, next.buffer, t)
    ensures ReadAs(parse, r, r.buffer, t)
  {
    hide Journal.LineEnd, Journal.FoldLines, Journal.EventsOf;
    Journal.FoldUnfolds(parse, r.snapshot, r.buffer);
    Journal.EventsUnfold(parse, r.buffer);
    assert r.mirror + r.buffer == next.mirror + next.buffer;
    assert [] + Journal.EventsOf(parse, next.buffer) == Journal.EventsOf(parse, next.buffer);
  }

  lemma OverlongIsRefused(parse: Parser, r: Live)
    requires Journal.LineEnd(r.buffer) < |r.buffer|
    requires |Utf8.Encode(r.buffer[..Journal.LineEnd(r.buffer)])| > Journal.MAX_FRAME
             && r.buffer[..Journal.LineEnd(r.buffer)] != ""
    ensures Journal.FoldLines(parse, r.snapshot, r.buffer).None?
  {
    hide Journal.LineEnd, Utf8.Encode;
  }

  lemma RefusedIsRead(parse: Parser, r: Live, t: Live)
    requires Journal.FoldLines(parse, r.snapshot, r.buffer).None? && t.faulted
    ensures ReadAs(parse, r, r.buffer, t)
  {
    hide Journal.FoldLines;
  }

  lemma FaultIsRead(parse: Parser, r: Live, next: Live, taken: Live, t: Live)
    requires Journal.LineEnd(r.buffer) < |r.buffer| && next == LineTaken(r) && t.faulted
    requires next.settled == r.settled && next.snapshot == r.snapshot && taken.settled <= t.settled
    requires Journal.ReduceLine(parse, r.snapshot, r.buffer[..Journal.LineEnd(r.buffer)]).None?
             || Mismatched(next, taken)
    ensures ReadAs(parse, r, r.buffer, t)
  {
    hide Journal.LineEnd, Journal.FoldLines, Journal.EventsOf, Journal.ReduceLine;
    Journal.FoldUnfolds(parse, r.snapshot, r.buffer);
    if Mismatched(next, taken) {
      var i :| |next.settled| <= i < |taken.settled| && taken.settled[i].Rejected?
        && taken.settled[i].reason == Mismatch;
      assert t.settled[i] == taken.settled[i];
    }
  }

  lemma LineIsRead(parse: Parser, r: Live, next: Live, taken: Live, t: Live)
    requires Journal.LineEnd(r.buffer) < |r.buffer| && next == LineTaken(r)
    requires next.settled == r.settled && taken.buffer == next.buffer && taken.mirror == next.mirror
             && r.settled <= taken.settled
    requires next.accepted == r.accepted
    requires Journal.ReduceLine(parse, r.snapshot, r.buffer[..Journal.LineEnd(r.buffer)]) == Some(taken.snapshot)
    requires taken.accepted == next.accepted + Journal.EventOf(parse, r.buffer[..Journal.LineEnd(r.buffer)])
    requires ReadAs(parse, taken, taken.buffer, t)
    ensures ReadAs(parse, r, r.buffer, t)
  {
    hide Journal.LineEnd, Journal.FoldLines, Journal.EventsOf, Journal.ReduceLine, Journal.EventOf;
    Journal.FoldUnfolds(parse, r.snapshot, r.buffer);
    Journal.EventsUnfold(parse, r.buffer);
    assert r.mirror + r.buffer == next.mirror + next.buffer;
    if t.faulted && Mismatched(taken, t) {
      var i :| |taken.settled| <= i < |t.settled| && t.settled[i].Rejected? && t.settled[i].reason == Mismatch;
      assert |r.settled| <= i;
    }
  }

  /**
   Output to a run without a fault: text beyond the limit faults it; otherwise its lines are read exactly as the journal
   reader will fold them, and the run is faulted exactly when that fold refuses them or an acknowledgement does not
   correlate.
   */
  lemma OutputIsFolded(parse: Parser, runId: string, steps: seq<Step>, chunk: string)
    requires !After(parse, runId, steps).terminal && !After(parse, runId, steps).faulted
    ensures var r, t := After(parse, runId, steps), After(parse, runId, steps + [Output(chunk)]);
            var text := r.buffer + chunk;
            if Utf16Length(text) > 2 * 1024 * 1024 then t.faulted && t.accepted == r.accepted
            else ReadAs(parse, r, text, t)
  {
    hide ConsumeLines, Utf16Length, ReadAs;
    var r := After(parse, runId, steps);
    assert (steps + [Output(chunk)])[..|steps + [Output(chunk)]| - 1] == steps;
    var grown := r.(buffer := r.buffer + chunk);
    if Utf16Length(grown.buffer) <= 2 * Journal.MAX_FRAME {
      LinesAreFolded(parse, grown);
      SameReading(parse, r, grown, ConsumeLines(parse, grown));
    }
  }

  lemma SameReading(parse: Parser, r: Live, grown: Live, t: Live)
    requires grown == r.(buffer := grown.buffer)
    ensures ReadAs(parse, r, grown.buffer, t) == ReadAs(parse, grown, grown.buffer, t)
  {
  }

  // ---- Controls are sent ----

  /** What a request is about, as its acknowledgement must repeat it. */
  predicate CorrelatesTo(sent: Correlation, request: Request) {
    match request
    case SteerRequest(id, attemptId, _, _) => sent == Correlation(SteerCommand, Some(id), Some(attemptId))
    case RecoverRequest(id, Retry) => sent == Correlation(RetryCommand, Some(id), None)
    case RecoverRequest(id, Failover) => sent == Correlation(FailoverCommand, Some(id), None)
    case RecoverRequest(id, Abandon) => sent == Correlation(AbandonCommand, Some(id), None)
    case RedirectRequest(id, _) => sent == Correlation(RedirectCommand, Some(id), None)
  }

  lemma AfterOne(parse: Parser, runId: string, steps: seq<Step>, step: Step)
    ensures After(parse, runId, steps + [step]) == Next(parse, After(parse, runId, steps), step)
  {
    hide Next;
    assert (steps + [step])[..|steps + [step]| - 1] == steps;
  }

  /**
   An allowed control of an open run waits once its line is taken, correlated with what was asked; a refused line
   rejects it at once; nothing else of the run changes.
   */
  lemma SentControlWaits(parse: Parser, runId: string, steps: seq<Step>, id: string, request: Request, writable: bool)
    requires var r := After(parse, runId, steps); !r.terminal && id !in r.sent && Allowed(r.snapshot, request)
    ensures var r, t := After(parse, runId, steps), After(parse, runId, steps + [Send(id, request, writable)]);
            && t == r.(waiters := t.waiters, sent := t.sent, settled := t.settled)
            && id in t.sent && CorrelatesTo(t.sent[id], request) && t.sent == r.sent[id := t.sent[id]]
            && (if writable then t.waiters == Put(r.waiters, id, t.sent[id]) && t.settled == r.settled
                else id !in t.waiters.at && t.settled == r.settled + [Rejected(id, SendFailed)])
  {
    hide Allowed;
    AfterOne(parse, runId, steps, Send(id, request, writable));
  }

  /** A waiting control that times out is rejected, and no other. */
  lemma TimedOutControlIsRejected(parse: Parser, runId: string, steps: seq<Step>, id: string)
    requires id in After(parse, runId, steps).waiters.at
    ensures var r, t := After(parse, runId, steps), After(parse, runId, steps + [TimeOut(id)]);
            && t == r.(waiters := t.waiters, settled := r.settled + [Rejected(id, NotAcknowledged)])
            && id !in t.waiters.at
            && forall other :: other != id && other in r.waiters.at ==> other in t.waiters.at
  {
    AfterOne(parse, runId, steps, TimeOut(id));
  }

  // ---- Endings ----

  /** A fault of an open run fails it, unless it has failed already, and rejects all that wait. */
  lemma FaultFails(parse: Parser, runId: string, steps: seq<Step>, message: string)
    requires !After(parse, runId, steps).terminal
    ensures var r, t := After(parse, runId, steps), After(parse, runId, steps + [Fault(message)]);
            && t.faulted && t.snapshot.status.Failed? && t.waiters.order == []
            && t.snapshot == (if r.snapshot.status.Failed? then r.snapshot
                              else r.snapshot.(status := Failed, failureClass := Some(SupervisorFailure),
                                               failure := Some(message)))
            && |t.settled| == |r.settled| + |r.waiters.order|
  {
    AfterOne(parse, runId, steps, Fault(message));
  }

  /**
   How the exit of the process ends a run: by its torn text, by its own end, by a cancellation that was asked for, or by
   none of these.
   */
  predicate EndsAs(r: Live, t: Live) {
    var failedNow := t.snapshot.status.Failed? && t.snapshot.failureClass == Some(SupervisorFailure);
    if !IsBlank(r.buffer) then t.faulted && (if r.snapshot.status.Failed? then t.snapshot == r.snapshot else failedNow)
    else if IsTerminal(r.snapshot.status) then t.snapshot == r.snapshot
    else if !r.cancelRequested then t.faulted && failedNow
    else
      && t.snapshot.status.Cancelled?
      && t.snapshot.failureClass == Some(if r.forced then ForcedTermination else MissingTerminalEvent)
  }

  lemma ExitEnds(parse: Parser, runId: string, steps: seq<Step>)
    requires !After(parse, runId, steps).terminal
    ensures var r, t := After(parse, runId, steps), After(parse, runId, steps + [Close]);
            && t.terminal && IsTerminal(t.snapshot.status) && EndsAs(r, t)
            && t.snapshot == r.snapshot.(status := t.snapshot.status, failureClass := t.snapshot.failureClass,
                                         failure := t.snapshot.failure)
  {
    hide *;
    ClosingStep(parse, runId, steps);
    ClosedEnds(After(parse, runId, steps));
  }

  lemma ClosedEnds(r: Live)
    requires !r.terminal
    ensures var t := ClosedRun(r);
            && t.terminal && IsTerminal(t.snapshot.status) && EndsAs(r, t)
            && t.snapshot == r.snapshot.(status := t.snapshot.status, failureClass := t.snapshot.failureClass,
                                         failure := t.snapshot.failure)
  {
    hide IsBlank, Fail, IsTerminal;
    FailEnds(r, TORN);
    FailEnds(r, NO_END);
    TerminalIs(r.snapshot.status);
    TerminalIs(Fail(r, TORN).snapshot.status);
    TerminalIs(Fail(r, NO_END).snapshot.status);
    TerminalIs(Cancelled);
  }

  lemma FailEnds(r: Live, message: string)
    requires !r.terminal
    ensures var t := Fail(r, message);
            && t.faulted && t.snapshot.status.Failed?
            && (if r.snapshot.status.Failed? then t.snapshot == r.snapshot
                else t.snapshot == r.snapshot.(status := Failed, failureClass := Some(SupervisorFailure),
                                               failure := Some(message)))
  {
    hide Reject;
  }

  lemma TerminalIs(status: RunStatus)
    ensures IsTerminal(status) <==> status in {Succeeded, Failed, Cancelled, Orphaned}
  {
  }

  /** The end keeps the snapshot exactly when the store is written and a result that is due is verified. */
  lemma FinishKeeps(parse: Parser, runId: string, steps: seq<Step>, verified: bool, stored: bool)
    requires After(parse, runId, steps).terminal && !After(parse, runId, steps).finished
    ensures var r, t := After(parse, runId, steps), After(parse, runId, steps + [Finish(verified, stored)]);
            && t.finished && t.waiters.order == []
            && (if stored && (r.snapshot.status.Succeeded? && r.snapshot.result.Some? ==> verified) then
                  t.snapshot == r.snapshot
                else t.snapshot.status.Failed?
                     && t.snapshot == r.snapshot.(status := Failed, failure := t.snapshot.failure))
  {
    AfterOne(parse, runId, steps, Finish(verified, stored));
  }

  // ---- Cancellation is what was asked for ----

  /** Cancellation was asked for while the run was open. */
  predicate Asked(parse: Parser, runId: string, steps: seq<Step>) {
    exists k :: 0 <= k < |steps| && AskedAt(parse, runId, steps, k)
  }

  predicate AskedAt(parse: Parser, runId: string, steps: seq<Step>, k: nat)
    requires k < |steps|
  {
    var r := After(parse, runId, steps[..k]);
    steps[k].CancelRun? && !r.terminal && !IsTerminal(r.snapshot.status)
  }

  predicate ForcedAt(parse: Parser, runId: string, steps: seq<Step>, k: nat)
    requires k < |steps|
  {
    steps[k].ForceExit? && !After(parse, runId, steps[..k]).terminal && Asked(parse, runId, steps[..k])
  }

  predicate ForcedExit(parse: Parser, runId: string, steps: seq<Step>) {
    exists k :: 0 <= k < |steps| && ForcedAt(parse, runId, steps, k)
  }

  lemma OutputKeepsFlags(parse: Parser, r: Live, chunk: string)
    ensures var t := Next(parse, r, Output(chunk)); t.cancelRequested == r.cancelRequested && t.forced == r.forced
  {
    hide ConsumeLines, Utf16Length;
    LinesKeepFlags(parse, r.(buffer := r.buffer + chunk));
  }

  lemma {:induction false} LinesKeepFlags(parse: Parser, r: Live)
    ensures var t := ConsumeLines(parse, r); t.cancelRequested == r.cancelRequested && t.forced == r.forced
    decreases |r.buffer|
  {
    if Journal.LineEnd(r.buffer) < |r.buffer| {
      ConsumeUnfolds(parse, r);
      TakenLine(r);
      TakenStays(r);
      hide *;
      var line, next := r.buffer[..Journal.LineEnd(r.buffer)], LineTaken(r);
      if line == "" {
        LinesKeepFlags(parse, next);
      } else if |Utf8.Encode(line)| > Journal.MAX_FRAME {
        FailKeepsFlags(next, OVERLONG);
      } else {
        TakeLineKeepsBuffer(parse, next, line);
        LineKeepsFlags(parse, next, line);
        LinesKeepFlags(parse, TakeLine(parse, next, line));
      }
    }
  }

  lemma FailKeepsFlags(r: Live, message: string)
    ensures var t := Fail(r, message); t.cancelRequested == r.cancelRequested && t.forced == r.forced
  {
  }

  lemma LineKeepsFlags(parse: Parser, r: Live, line: string)
    ensures var t := TakeLine(parse, r, line); t.cancelRequested == r.cancelRequested && t.forced == r.forced
  {
    hide ReduceEvent, PriorAck, Correlates, Without, IsOpening, FailedBySupervisor, Reject;
  }

  lemma OtherStepFlags(parse: Parser, r: Live, step: Step)
    requires !step.Output?
    ensures var t := Next(parse, r, step);
            && t.cancelRequested == (r.cancelRequested
                                     || (step.CancelRun? && !r.terminal && !IsTerminal(r.snapshot.status)))
            && t.forced == (r.forced || (step.ForceExit? && !r.terminal && r.cancelRequested))
  {
    hide Allowed, CorrelationOf, SendControl, SettleWith, Fail, ClosedRun, FinishedRun, IsTerminal;
    match step
    case Fault(message) => FailKeepsFlags(r, message);
    case Send(id, request, writable) => SendKeepsFlags(r, id, request, writable);
    case TimeOut(id) => SettlingKeepsFlags(r, Rejected(id, NotAcknowledged));
    case Close => ClosingKeepsFlags(r);
    case Finish(verified, stored) => FinishKeepsFlags(r, verified, stored);
    case _ =>
  }

  lemma SettlingKeepsFlags(r: Live, settlement: Settlement)
    ensures var t := SettleWith(r, settlement); t.cancelRequested == r.cancelRequested && t.forced == r.forced
  {
    hide Without;
  }

  lemma SendKeepsFlags(r: Live, id: string, request: Request, writable: bool)
    ensures var t := SendControl(r, id, request, writable);
            t.cancelRequested == r.cancelRequested && t.forced == r.forced
  {
    hide Without, CorrelationOf;
  }

  lemma ClosingKeepsFlags(r: Live)
    ensures var t := ClosedRun(r); t.cancelRequested == r.cancelRequested && t.forced == r.forced
  {
    hide IsBlank, IsTerminal, Fail, CancelledBySupervisor;
    FailKeepsFlags(r, TORN);
    FailKeepsFlags(if IsBlank(r.buffer) then r else Fail(r, TORN), NO_END);
  }

  lemma FinishKeepsFlags(r: Live, verified: bool, stored: bool)
    ensures var t := FinishedRun(r, verified, stored); t.cancelRequested == r.cancelRequested && t.forced == r.forced
  {
    hide Reject, MustVerify;
  }

  lemma EarlierFlags(parse: Parser, runId: string, steps: seq<Step>, step: Step)
    ensures Asked(parse, runId, steps + [step])
            <==> Asked(parse, runId, steps) || AskedAt(parse, runId, steps + [step], |steps|)
    ensures ForcedExit(parse, runId, steps + [step])
            <==> ForcedExit(parse, runId, steps) || ForcedAt(parse, runId, steps + [step], |steps|)
  {
    hide After, Asked;
    var longer := steps + [step];
    forall k | 0 <= k < |steps|
      ensures AskedAt(parse, runId, longer, k) == AskedAt(parse, runId, steps, k)
      ensures ForcedAt(parse, runId, longer, k) == ForcedAt(parse, runId, steps, k)
    {
      assert longer[..k] == steps[..k];
    }
    AskedUnfolds(parse, runId, longer);
    AskedUnfolds(parse, runId, steps);
  }

  lemma AskedUnfolds(parse: Parser, runId: string, steps: seq<Step>)
    ensures Asked(parse, runId, steps) <==> exists k :: 0 <= k < |steps| && AskedAt(parse, runId, steps, k)
  {
  }

  /**
   Over every interleaving: cancellation is on record exactly if it was asked for while the run was open, and so is its
   force.
   */
  lemma {:induction false} FlagsAreAsked(parse: Parser, runId: string, steps: seq<Step>)
    ensures var r := After(parse, runId, steps);
            (r.cancelRequested <==> Asked(parse, runId, steps)) && (r.forced <==> ForcedExit(parse, runId, steps))
  {
    hide Next, Asked, ForcedExit;
    if steps == [] {
      NothingAsked(parse, runId);
    } else {
      var init, last := steps[..|steps| - 1], steps[|steps| - 1];
      FlagsAreAsked(parse, runId, init);
      EarlierFlags(parse, runId, init, last);
      assert init + [last] == steps && steps[..|init|] == init;
      var r := After(parse, runId, init);
      if last.Output? { OutputKeepsFlags(parse, r, last.chunk); } else { OtherStepFlags(parse, r, last); }
    }
  }

  lemma NothingAsked(parse: Parser, runId: string)
    ensures !Asked(parse, runId, []) && !ForcedExit(parse, runId, []) && !NewLive(runId).cancelRequested
            && !NewLive(runId).forced
  {
  }
}
