/**
 A run as its supervisor owns it: live lines, controls awaiting acknowledgement, failure and exit (`OwnedRun` of
 ext-pi/src/supervisor.ts).
 */
module Controls {
  import opened Prelude
  import opened Snapshots
  import opened Reducer
  import Journal
  import Utf8

  type Parser = Journal.Parser

  const MAX_STEERING_TEXT: nat := 64 * 1024

  // ---- Controls ----

  /** What a control was sent about; a terminal acknowledgement must repeat it. */
  datatype Correlation = Correlation(command: Command, occurrenceId: Option<string>, attemptId: Option<string>)

  datatype Request =
    | SteerRequest(occurrenceId: string, attemptId: string, text: string, timing: Timing)
    | RecoverRequest(occurrenceId: string, choice: Choice)
    | RedirectRequest(occurrenceId: string, target: string)

  /** Whether a request may be sent at all, judged on the snapshot held. */
  predicate Allowed(s: Snapshot, request: Request) {
    && !IsTerminal(s.status)
    && match request
       case SteerRequest(id, attemptId, text, _) =>
         && !IsBlank(text) && |Utf8.Encode(text)| <= MAX_STEERING_TEXT
         && id in s.occurrences.at && attemptId in s.occurrences.at[id].attempts.at
         && s.occurrences.at[id].attempts.at[attemptId].state.AttRunning?
         && id + ":" <= attemptId && IsDecimal(attemptId[|id| + 1..])
       case RecoverRequest(id, choice) =>
         && id in s.occurrences.at && s.occurrences.at[id].state.OccRecovering? && s.occurrences.at[id].recovery.Some?
         && exists offer :: offer in s.occurrences.at[id].recovery.value.choices && offer.choice == choice
       case RedirectRequest(id, target) =>
         && id in s.occurrences.at
         && var o := s.occurrences.at[id];
            if o.dispatch.Some? && o.dispatch.value.open then target in o.dispatch.value.targets
            else HasRunningAttempt(o.attempts) && !IsBlank(target)
  }

  function CorrelationOf(request: Request): Correlation {
    match request
    case SteerRequest(id, attemptId, _, _) => Correlation(SteerCommand, Some(id), Some(attemptId))
    case RecoverRequest(id, choice) =>
      Correlation(match choice case Retry => RetryCommand case Failover => FailoverCommand
                  case Abandon => AbandonCommand, Some(id), None)
    case RedirectRequest(id, _) => Correlation(RedirectCommand, Some(id), None)
  }

  datatype Rejection = NotAcknowledged | SendFailed | Mismatch | RunFault | RunEnd

  /** How the promise of one control ended. */
  datatype Settlement = Resolved(controlId: string, ack: ControlAck) | Rejected(controlId: string, reason: Rejection)

  // ---- The state of an owned run ----

  /**
   The run as its supervisor holds it. `mirror` is the text queued for the event mirror, `faulted` says that the fatal
   clean-up was started; `accepted`, `sent` and `settled` record what happened.
   */
  datatype Live = Live(
    snapshot: Snapshot, buffer: string, mirror: string, waiters: Table<Correlation>,
    cancelRequested: bool, forced: bool, faulted: bool, terminal: bool, finished: bool,
    accepted: seq<Envelope>, sent: map<string, Correlation>, settled: seq<Settlement>)

  function NewLive(runId: string): Live {
    Live(InitialSnapshot(runId), "", "", EmptyTable(), false, false, false, false, false, [], map[], [])
  }

  function Reject(ids: seq<string>, reason: Rejection): (r: seq<Settlement>)
    ensures |r| == |ids| && forall i :: 0 <= i < |r| ==> r[i] == Rejected(ids[i], reason)
  {
    seq(|ids|, i requires 0 <= i < |ids| => Rejected(ids[i], reason))
  }

  function FailedBySupervisor(s: Snapshot, message: string): Snapshot {
    if s.status.Failed? then s else s.(status := Failed, failureClass := Some(SupervisorFailure),
                                       failure := Some(message))
  }

  function Fail(r: Live, message: string): Live {
    if r.terminal then r
    else
      r.(snapshot := FailedBySupervisor(r.snapshot, message), waiters := EmptyTable(), faulted := true,
         settled := r.settled + Reject(r.waiters.order, RunFault))
  }

  function SettleWith(r: Live, settlement: Settlement): Live {
    r.(waiters := Without(r.waiters, settlement.controlId), settled := r.settled + [settlement])
  }

  predicate Correlates(ack: ControlAck, expected: Correlation) {
    ack.command == Some(expected.command) && ack.occurrenceId == expected.occurrenceId
      && ack.attemptId == expected.attemptId
  }

  const MISMATCH := "acknowledgement correlation mismatch"

  function SettleControl(r: Live, controlId: string, ack: ControlAck): Live {
    if IsOpening(ack.state) || controlId !in r.waiters.at then r
    else if r.snapshot.protocolVersion == Some(2) && !Correlates(ack, r.waiters.at[controlId]) then
      Fail(SettleWith(r, Rejected(controlId, Mismatch)), MISMATCH)
    else SettleWith(r, Resolved(controlId, ack))
  }

  // ---- Live lines ----

  /** The length of a text in UTF-16 code units, which is how JavaScript counts. */
  function Utf16Length(s: string): nat {
    if s == [] then 0 else (if s[0] as int >= 0x1_0000 then 2 else 1) + Utf16Length(s[1..])
  }

  const BAD_LINE := "protocol failure"
  const OVERFULL := "protocol buffer exceeded limit"
  const OVERLONG := "protocol frame exceeded limit"

  /** One non-empty line. */
  function TakeLine(parse: Parser, r: Live, line: string): Live {
    match parse(line)
    case None => Fail(r, BAD_LINE)
    case Some(envelope) =>
      match ReduceEvent(r.snapshot, envelope)
      case Refused(_) => Fail(r, BAD_LINE)
      case Ok(next) => Acknowledged(r.(snapshot := next, accepted := r.accepted + [envelope]), envelope.event)
  }

  /** After an accepted event: a control acknowledgement settles its waiter with the record held. */
  function Acknowledged(r: Live, event: Event): Live {
    if event.ControlAcknowledged? && event.controlId.Some? then
      match PriorAck(r.snapshot, event.controlId.value)
      case None => r
      case Some(ack) => SettleControl(r, event.controlId.value, ack)
    else r
  }

  /** The complete lines of the buffer; an overlong line stops the reading. */
  function ConsumeLines(parse: Parser, r: Live): Live
    decreases |r.buffer|
  {
    var end := Journal.LineEnd(r.buffer);
    if end == |r.buffer| then r
    else
      var line := r.buffer[..end];
      var next := r.(buffer := r.buffer[end + 1..], mirror := r.mirror + line + "\n");
      if line == "" then ConsumeLines(parse, next)
      else if |Utf8.Encode(line)| > Journal.MAX_FRAME then Fail(next, OVERLONG)
      else
        TakeLineKeepsBuffer(parse, next, line);
        ConsumeLines(parse, TakeLine(parse, next, line))
  }

  lemma TakeLineKeepsBuffer(parse: Parser, r: Live, line: string)
    ensures TakeLine(parse, r, line).buffer == r.buffer && TakeLine(parse, r, line).mirror == r.mirror
  {
    hide ReduceEvent, Acknowledged, Fail;
    FailKeepsText(r, BAD_LINE);
    if parse(line).Some? {
      var reduced := ReduceEvent(r.snapshot, parse(line).value);
      if reduced.Ok? {
        AcknowledgedKeepsText(r.(snapshot := reduced.value, accepted := r.accepted + [parse(line).value]),
                              parse(line).value.event);
      }
    }
  }

  lemma FailKeepsText(r: Live, message: string)
    ensures var t := Fail(r, message); t.buffer == r.buffer && t.mirror == r.mirror && t.accepted == r.accepted
  {
    hide FailedBySupervisor, Reject;
  }

  /** Settling leaves the text read and the accepted envelopes alone. */
  lemma AcknowledgedKeepsText(r: Live, event: Event)
    ensures var t := Acknowledged(r, event); t.buffer == r.buffer && t.mirror == r.mirror && t.accepted == r.accepted
  {
    hide PriorAck, Correlates, Without, Fail, IsOpening;
    if event.ControlAcknowledged? && event.controlId.Some? {
      FailKeepsText(SettleWith(r, Rejected(event.controlId.value, Mismatch)), MISMATCH);
    }
  }

  function Consume(parse: Parser, r: Live, chunk: string): Live {
    var grown := r.(buffer := r.buffer + chunk);
    if Utf16Length(grown.buffer) > 2 * Journal.MAX_FRAME then Fail(grown, OVERFULL) else ConsumeLines(parse, grown)
  }

  // ---- Steps ----

  /**
   `writable` says that the control channel takes the line, `verified` that the result artifact is accepted, `stored`
   that the store is written.
   */
  datatype Step =
    | Output(chunk: string)
    | Send(controlId: string, request: Request, writable: bool)
    | TimeOut(timedOut: string)
    | Fault(message: string)
    | CancelRun
    | ForceExit
    | Close
    | Finish(verified: bool, stored: bool)

  function SendControl(r: Live, controlId: string, request: Request, writable: bool): Live {
    var expected := CorrelationOf(request);
    var waiting := r.(waiters := Put(r.waiters, controlId, expected), sent := r.sent[controlId := expected]);
    if writable then waiting else SettleWith(waiting, Rejected(controlId, SendFailed))
  }

  const TORN := "protocol ended with a torn frame"
  const NO_END := "process exited without terminal event"

  function CancelledBySupervisor(s: Snapshot, forced: bool): Snapshot {
    if forced then s.(status := Cancelled, failureClass := Some(ForcedTermination),
                      failure := Some("process group required forced termination"))
    else s.(status := Cancelled, failureClass := Some(MissingTerminalEvent),
            failure := Some("process exited without run.cancelled"))
  }

  /** The process is gone: a torn line or a missing end is a failure, unless cancellation was asked for. */
  function ClosedRun(r: Live): Live {
    var torn := if IsBlank(r.buffer) then r else Fail(r, TORN);
    var ended :=
      if IsTerminal(torn.snapshot.status) then torn
      else if torn.cancelRequested then torn.(snapshot := CancelledBySupervisor(torn.snapshot, torn.forced))
      else Fail(torn, NO_END);
    ended.(terminal := true)
  }

  predicate MustVerify(s: Snapshot) { s.status.Succeeded? && s.result.Some? }

  function FinishedRun(r: Live, verified: bool, stored: bool): Live {
    var kept := (MustVerify(r.snapshot) ==> verified) && stored;
    r.(snapshot := if kept then r.snapshot else r.snapshot.(status := Failed, failure := Some("persistence failure")),
       waiters := EmptyTable(), finished := true, settled := r.settled + Reject(r.waiters.order, RunEnd))
  }

  /**
   One step of the interleaving; a step that cannot happen changes nothing. Control identifiers are never sent twice.
   */
  function Next(parse: Parser, r: Live, step: Step): Live {
    match step
    case Output(chunk) => if r.terminal then r else Consume(parse, r, chunk)
    case Send(id, request, writable) =>
      if r.terminal || !Allowed(r.snapshot, request) || id in r.sent then r else SendControl(r, id, request, writable)
    case TimeOut(id) => if id in r.waiters.at then SettleWith(r, Rejected(id, NotAcknowledged)) else r
    case Fault(message) => Fail(r, message)
    case CancelRun => if r.terminal || IsTerminal(r.snapshot.status) then r else r.(cancelRequested := true)
    case ForceExit => if r.terminal || !r.cancelRequested then r else r.(forced := true)
    case Close => if r.terminal then r else ClosedRun(r)
    case Finish(verified, stored) => if !r.terminal || r.finished then r else FinishedRun(r, verified, stored)
  }

  function After(parse: Parser, runId: string, steps: seq<Step>): Live {
    if steps == [] then NewLive(runId)
    else Next(parse, After(parse, runId, steps[..|steps| - 1]), steps[|steps| - 1])
  }
}
