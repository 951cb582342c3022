/** The supervisor's object for a run it owns, updated in place, against the steps of `Controls`. */
module OwnedRuns {
  import opened Prelude
  import opened Snapshots
  import opened Reducer
  import opened Controls
  import Journal
  import Utf8

  class OwnedRun {
    var snapshot: Snapshot
    var buffer: string
    var eventMirror: string
    var controlWaiters: Table<Correlation>
    var cancelRequested: bool
    var forcedTermination: bool
    var fatalCleanup: bool
    var terminal: bool
    var resolved: bool
    // The outcomes given to the callers' promises, in order.
    var settlements: seq<Settlement>
    ghost var accepted: seq<Envelope>
    ghost var sent: map<string, Correlation>

    ghost function Value(): Live
      reads this
    {
      Live(snapshot, buffer, eventMirror, controlWaiters, cancelRequested, forcedTermination, fatalCleanup, terminal,
           resolved, accepted, sent, settlements)
    }

    constructor (runId: string)
      ensures Value() == NewLive(runId)
    {
      snapshot, buffer, eventMirror, controlWaiters := InitialSnapshot(runId), "", "", EmptyTable();
      cancelRequested, forcedTermination, fatalCleanup, terminal, resolved := false, false, false, false, false;
      settlements, accepted, sent := [], [], map[];
    }

    /** Reject every waiter in the order of registration, then forget them. */
    method RejectAll(reason: Rejection)
      modifies this`settlements, this`controlWaiters
      ensures controlWaiters == EmptyTable()
      ensures settlements == old(settlements) + Reject(old(controlWaiters).order, reason)
    {
      var ids := controlWaiters.order;
      for i := 0 to |ids|
        invariant controlWaiters == old(controlWaiters)
        invariant settlements == old(settlements) + Reject(ids[..i], reason)
      {
        assert Reject(ids[..i + 1], reason) == Reject(ids[..i], reason) + [Rejected(ids[i], reason)];
        settlements := settlements + [Rejected(ids[i], reason)];
      }
      assert ids[..|ids|] == ids;
      controlWaiters := EmptyTable();
    }

    method FailRun(message: string)
      modifies this
      ensures Value() == Fail(old(Value()), message)
    {
      if terminal { return; }
      if !snapshot.status.Failed? {
        snapshot := snapshot.(status := RunStatus.Failed, failureClass := Some(SupervisorFailure),
                              failure := Some(message));
      }
      RejectAll(RunFault);
      fatalCleanup := true;
    }

    method SettleWaiter(settlement: Settlement)
      modifies this`settlements, this`controlWaiters
      ensures Value() == SettleWith(old(Value()), settlement)
    {
      controlWaiters := Without(controlWaiters, settlement.controlId);
      settlements := settlements + [settlement];
    }

    method SettleAcknowledged(controlId: string, ack: ControlAck)
      modifies this
      ensures Value() == SettleControl(old(Value()), controlId, ack)
    {
      hide Without;
      if IsOpening(ack.state) { return; }
      var waiting := controlId in controlWaiters.at;
      if waiting && snapshot.protocolVersion == Some(2) {
        var expected := controlWaiters.at[controlId];
        if ack.command != Some(expected.command) || ack.occurrenceId != expected.occurrenceId
           || ack.attemptId != expected.attemptId {
          SettleWaiter(Rejected(controlId, Mismatch));
          FailRun(MISMATCH);
          return;
        }
      }
      if !waiting { return; }
      SettleWaiter(Resolved(controlId, ack));
    }

    method ReduceLine(parse: Parser, line: string)
      modifies this
      ensures Value() == TakeLine(parse, old(Value()), line)
    {
      hide ReduceEvent, SettleControl, Fail;
      match parse(line)
      case None => FailRun(BAD_LINE);
      case Some(envelope) =>
        match ReduceEvent(snapshot, envelope)
        case Refused(_) => FailRun(BAD_LINE);
        case Ok(next) =>
          snapshot, accepted := next, accepted + [envelope];
          if envelope.event.ControlAcknowledged? && envelope.event.controlId.Some? {
            var ack := PriorAck(snapshot, envelope.event.controlId.value);
            if ack.Some? { SettleAcknowledged(envelope.event.controlId.value, ack.value); }
          }
    }

    /** One chunk of output: every complete line is mirrored and reduced, the unfinished one stays buffered. */
    method ConsumeChunk(parse: Parser, chunk: string)
      modifies this
      ensures Value() == Consume(parse, old(Value()), chunk)
    {
      hide TakeLine, Fail;
      buffer := buffer + chunk;
      if Utf16Length(buffer) > 2 * Journal.MAX_FRAME {
        FailRun(OVERFULL);
        return;
      }
      while true
        invariant ConsumeLines(parse, Value()) == Consume(parse, old(Value()), chunk)
        decreases |buffer|
      {
        var newline := Journal.LineEnd(buffer);
        if newline == |buffer| { return; }
        var line := buffer[..newline];
        buffer := buffer[newline + 1..];
        eventMirror := eventMirror + line + "\n";
        if line != "" {
          if |Utf8.Encode(line)| > Journal.MAX_FRAME {
            FailRun(OVERLONG);
            return;
          }
          TakeLineKeepsBuffer(parse, Value(), line);
          ReduceLine(parse, line);
        }
      }
    }

    /** Register a waiter and write the control; a channel that refuses the line rejects it at once. */
    method SendControlAwait(controlId: string, request: Request, writable: bool) returns (sending: bool)
      requires controlId !in sent
      modifies this
      ensures sending <==> !old(terminal) && Allowed(old(snapshot), request)
      ensures Value() == if sending then SendControl(old(Value()), controlId, request, writable) else old(Value())
    {
      hide Allowed, Without;
      sending := !terminal && Allowed(snapshot, request);
      if !sending { return; }
      var expected := CorrelationOf(request);
      controlWaiters := Put(controlWaiters, controlId, expected);
      sent := sent[controlId := expected];
      if !writable { SettleWaiter(Rejected(controlId, SendFailed)); }
    }

    method TimeOutControl(controlId: string)
      modifies this
      ensures Value()
              == if controlId in old(controlWaiters).at then
                   SettleWith(old(Value()), Rejected(controlId, NotAcknowledged))
                 else old(Value())
    {
      if controlId in controlWaiters.at { SettleWaiter(Rejected(controlId, NotAcknowledged)); }
    }

    /** The exit of the process, up to the point where the run is terminal. */
    method ProcessClosed(parse: Parser)
      modifies this
      ensures Value() == Next(parse, old(Value()), Close)
    {
      hide Reject;
      if terminal { return; }
      if !IsBlank(buffer) { FailRun(TORN); }
      if !IsTerminal(snapshot.status) {
        if cancelRequested {
          if forcedTermination {
            snapshot := snapshot.(status := RunStatus.Cancelled, failureClass := Some(ForcedTermination),
                                  failure := Some("process group required forced termination"));
          } else {
            snapshot := snapshot.(status := RunStatus.Cancelled, failureClass := Some(MissingTerminalEvent),
                                  failure := Some("process exited without run.cancelled"));
          }
        } else {
          FailRun(NO_END);
        }
      }
      terminal := true;
    }

    /** The persistence after the exit; whatever it gives, no waiter is left when `finished` resolves. */
    method ResolveFinished(parse: Parser, verified: bool, stored: bool) returns (end: Snapshot)
      requires terminal && !resolved
      modifies this
      ensures Value() == Next(parse, old(Value()), Finish(verified, stored)) && end == snapshot
    {
      hide Reject;
      var kept := true;
      if snapshot.status.Succeeded? && snapshot.result.Some? { kept := verified; }
      if !kept || !stored { snapshot := snapshot.(status := RunStatus.Failed, failure := Some("persistence failure")); }
      RejectAll(RunEnd);
      resolved := true;
      end := snapshot;
    }
  }
}
