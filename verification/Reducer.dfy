/** The specification of the run-event reducer: one envelope as a function of snapshots (ext-pi/src/reducer.ts). */
module Reducer {
  import opened Prelude
  import opened Snapshots
  import opened Fields
  import OutputTail

  function InitialSnapshot(runId: string): Snapshot {
    Snapshot(runId, Starting, None, None, None, None, None, EmptyTable(), [], false, map[], EmptyTable(), None, None,
             None, None, None)
  }

  function AttemptsOf(o: Occurrence): nat { |o.attempts.order| }

  function SteersOfAttempt(a: Attempt): nat { |a.steers| }

  function SteersOf(o: Occurrence): nat { TotalOver(o.attempts.order, o.attempts.at, SteersOfAttempt) }

  function AttemptCount(s: Snapshot): nat { TotalOver(s.occurrences.order, s.occurrences.at, AttemptsOf) }

  function SteerCount(s: Snapshot): nat { TotalOver(s.occurrences.order, s.occurrences.at, SteersOf) }

  // ---- Attempts ----

  /** The last `maximum` elements. */
  function LastOf(s: seq<string>, maximum: nat): seq<string> {
    if |s| > maximum then s[|s| - maximum..] else s
  }

  function ApplyProgress(a: Attempt, progress: Progress): Result<Attempt> {
    match progress
    case MessageProgress(text) =>
      var content :- BoundedText(text, 4096);
      Ok(a.(messages := LastOf(a.messages + [content], MAX_MESSAGES)))
    case ReasoningProgress(text) =>
      var content :- BoundedText(text, 4096);
      Ok(a.(reasoning := LastOf(a.reasoning + [content], MAX_SUMMARIES)))
    case ToolProgress(None) => Refused(BadField)
    case ToolProgress(Some(update)) =>
      var tool :- UpdatedTool(a.tools, update);
      Ok(a.(tools := Put(a.tools, tool.id, tool)))
    case TodosProgress(None) => Refused(BadField)
    case TodosProgress(Some(items)) =>
      if |items| > MAX_TODOS then Refused(BadField)
      else
        var todos :- TodosOf(items);
        Ok(a.(todos := todos))
    case UsageProgress(None) => Refused(BadField)
    case UsageProgress(Some(raw)) =>
      var usage :- UsageOf(raw);
      Ok(a.(usage := Some(usage)))
    case NotProgress => Refused(BadField)
  }

  predicate IsAttemptEvent(e: Event) {
    e.AttemptOutput? || e.AttemptProgress? || e.AttemptSteered? || e.AttemptCompleted? || e.AttemptFailed?
  }

  /** An event on a running attempt; `steers` counts the steers of the whole run. */
  function ApplyAttempt(a: Attempt, e: Event, steers: nat): Result<Attempt>
    requires IsAttemptEvent(e)
  {
    var _ :- Require(a.state.AttRunning?, WrongState);
    match e
    case AttemptOutput(_, _, chunk) =>
      var text :- TextOf(chunk);
      Ok(a.(output := OutputTail.TailOf(a.output + text)))
    case AttemptProgress(_, _, progress) => ApplyProgress(a, progress)
    case AttemptSteered(_, _, rawTiming, rawControl, rawText) =>
      var _ :- Require(steers < MAX_STEERS, LimitExceeded);
      var timing :- TimingOf(rawTiming);
      var controlId :- TextOf(rawControl);
      var text :- TextOf(rawText);
      Ok(a.(steers := a.steers + [Steer(controlId, timing, text)]))
    case AttemptCompleted(_, _) => Ok(a.(state := AttCompleted))
    case AttemptFailed(_, _, rawMessage, failure) =>
      var message :- TextOf(rawMessage);
      var kind :- FailureClassOf(failure);
      Ok(a.(state := AttFailed, failure := Some(message), failureClass := Some(kind)))
  }

  // ---- Occurrences ----

  predicate HasRunningAttempt(attempts: Table<Attempt>) {
    exists id :: id in attempts.order && attempts.at[id].state.AttRunning?
  }

  /** The running attempt that was started first. */
  function FirstRunning(order: seq<string>, at: map<string, Attempt>): (r: Option<string>)
    requires forall k :: k in order ==> k in at
    ensures r.None? <==> forall k :: k in order ==> !at[k].state.AttRunning?
    ensures r.Some? ==> r.value in order && at[r.value].state.AttRunning?
  {
    if order == [] then None
    else if at[order[0]].state.AttRunning? then Some(order[0])
    else FirstRunning(order[1..], at)
  }

  function NewAttempt(id: string, target: string): Attempt {
    Attempt(id, target, AttRunning, "", [], [], EmptyTable(), [], None, [], None, None)
  }

  function CloseDispatch(dispatch: Option<Dispatch>): Option<Dispatch> {
    match dispatch
    case None => None
    case Some(d) => Some(d.(open := false))
  }

  function StartAttempt(occurrenceId: string, o: Occurrence, attempt: Text, rawTarget: Text,
                        attempts: nat): Result<Occurrence>
  {
    var id :- AttemptId(occurrenceId, attempt);
    var _ :- Require(o.state.OccRunning?, WrongState);
    var _ :- Require(id !in o.attempts.at, Duplicate);
    var _ :- Require(attempts < MAX_ATTEMPTS, LimitExceeded);
    var target :- TextOf(rawTarget);
    Ok(o.(dispatch := CloseDispatch(o.dispatch), attempts := Put(o.attempts, id, NewAttempt(id, target))))
  }

  function OnAttempt(occurrenceId: string, o: Occurrence, e: Event, steers: nat): Result<Occurrence>
    requires IsAttemptEvent(e)
  {
    var id :- AttemptId(occurrenceId, e.attempt);
    var _ :- Require(id in o.attempts.at, Unknown);
    var a :- ApplyAttempt(o.attempts.at[id], e, steers);
    Ok(o.(attempts := Put(o.attempts, id, a), replayable := if e.AttemptSteered? then false else o.replayable))
  }

  function ChooseRecovery(o: Occurrence, rawChoice: Text, target: Option<string>, rawControl: Text): Result<Occurrence>
  {
    var _ :- Require(o.recovery.Some? && o.state.OccRecovering?, WrongState);
    var recovery := o.recovery.value;
    var _ :- Require(recovery.chosen.None?, Duplicate);
    var name :- TextOf(rawChoice);
    match ChoiceNamed(name)
    case None => Refused(NotOffered)
    case Some(choice) =>
      var offer := Offer(choice, target);
      var _ :- Require(offer in recovery.choices, NotOffered);
      var controlId :- TextOf(rawControl);
      Ok(o.(recovery := Some(recovery.(chosen := Some(Chosen(controlId, offer))))))
  }

  function Reuse(o: Occurrence, rawGroup: Text): Result<Occurrence> {
    var _ :- Require(o.state.OccRunning? && o.attempts.order == [] && o.personPending != Some(true), WrongState);
    var group :- TextOf(rawGroup);
    Ok(o.(state := OccReused, reuseKind := Some(group), dispatch := CloseDispatch(o.dispatch)))
  }

  function AwaitRecovery(o: Occurrence, rawChoices: Option<seq<Option<RawOffer>>>, rawGap: Text,
                         rawMessage: Text): Result<Occurrence>
  {
    var _ :- Require(o.state.OccRunning?, WrongState);
    var choices :- CheckedOffers(rawChoices);
    var gap :- TextOf(rawGap);
    var message :- TextOf(rawMessage);
    Ok(o.(state := OccRecovering, recovery := Some(Recovery(gap, message, [], choices, None))))
  }

  function RetryOccurrence(o: Occurrence, rawControl: Text): Result<Occurrence> {
    var _ :- Require(o.recovery.Some? && o.state.OccRecovering?, WrongState);
    var recovery := o.recovery.value;
    var _ :- Require(recovery.chosen.Some? && !recovery.chosen.value.offer.choice.Abandon?, WrongState);
    var _ :- Require(|recovery.retries| < MAX_HISTORY, LimitExceeded);
    var controlId :- TextOf(rawControl);
    Ok(o.(state := OccRunning, recovery := Some(recovery.(retries := recovery.retries + [controlId]))))
  }

  function OpenDispatch(o: Occurrence, rawTargets: Option<seq<Text>>): Result<Occurrence> {
    var _ :- Require(o.state.OccRunning? && o.dispatch.None?, WrongState);
    var targets :- DispatchTargets(rawTargets);
    Ok(o.(dispatch := Some(Dispatch(targets, true, None))))
  }

  function RedirectTo(o: Occurrence, rawTarget: Text, rawControl: Text): Result<Occurrence> {
    var target :- TextOf(rawTarget);
    var controlId :- TextOf(rawControl);
    var running := FirstRunning(o.attempts.order, o.attempts.at);
    if o.dispatch.Some? && o.dispatch.value.open && target in o.dispatch.value.targets then
      Ok(o.(dispatch := Some(o.dispatch.value.(open := false, redirect := Some(Redirect(controlId, target, None))))))
    else if running.Some? && (o.dispatch.None? || target in o.dispatch.value.targets) then
      var targets := if o.dispatch.Some? then o.dispatch.value.targets else [target];
      Ok(o.(dispatch := Some(Dispatch(targets, false, Some(Redirect(controlId, target, running))))))
    else Refused(NotOffered)
  }

  predicate IsPersonAddressee(addressee: string) {
    "person " <= addressee
  }

  function AwaitPerson(o: Occurrence, question: Option<QuestionRef>): Result<Occurrence> {
    var _ :- Require(o.state.OccRunning? && IsPersonAddressee(o.addressee) && o.attempts.order == []
                     && o.personPending != Some(true) && o.personQuestion.None?, WrongState);
    var _ :- Require(question.Some?, BadField);
    Ok(o.(personQuestion := question, personPending := Some(true)))
  }

  function CompleteOccurrence(o: Occurrence, rawSource: Text, rawAnswer: Text): Result<Occurrence> {
    var _ :- Require(o.state.OccRunning? || o.state.OccReused?, WrongState);
    var _ :- Require(o.personPending != Some(true), WrongState);
    var _ :- Require(!HasRunningAttempt(o.attempts), WrongState);
    var source :- TextOf(rawSource);
    var answer :- TextOf(rawAnswer);
    Ok(o.(state := if o.state.OccReused? then OccReused else OccCompleted, source := Some(source),
          answer := Some(answer)))
  }

  function FailOccurrence(o: Occurrence, rawMessage: Text, failure: Text): Result<Occurrence> {
    var _ :- Require(o.state.OccRunning? || o.state.OccRecovering?, WrongState);
    var _ :- Require(!HasRunningAttempt(o.attempts), WrongState);
    var message :- TextOf(rawMessage);
    var kind :- FailureClassOf(failure);
    Ok(o.(state := OccFailed, answer := Some(message), failureClass := Some(kind)))
  }

  /** Events that act on one known occurrence. */
  predicate IsOccurrenceEvent(e: Event) {
    || IsAttemptEvent(e) || e.AttemptStarted? || e.RecoveryChosen? || e.OccurrenceReused? || e.RecoveryPending?
    || e.OccurrenceRetried? || e.DispatchPending? || e.OccurrenceRedirected? || e.PersonAnswerPending?
    || e.OccurrenceCompleted? || e.OccurrenceFailed?
  }

  function ApplyOccurrence(occurrenceId: string, o: Occurrence, e: Event, attempts: nat,
                           steers: nat): Result<Occurrence>
    requires IsOccurrenceEvent(e)
  {
    if IsAttemptEvent(e) then OnAttempt(occurrenceId, o, e, steers)
    else
      match e
      case AttemptStarted(_, attempt, target) => StartAttempt(occurrenceId, o, attempt, target, attempts)
      case RecoveryChosen(_, choice, target, controlId) => ChooseRecovery(o, choice, target, controlId)
      case OccurrenceReused(_, group) => Reuse(o, group)
      case RecoveryPending(_, choices, gap, message) => AwaitRecovery(o, choices, gap, message)
      case OccurrenceRetried(_, controlId) => RetryOccurrence(o, controlId)
      case DispatchPending(_, targets) => OpenDispatch(o, targets)
      case OccurrenceRedirected(_, target, controlId) => RedirectTo(o, target, controlId)
      case PersonAnswerPending(_, question) => AwaitPerson(o, question)
      case OccurrenceCompleted(_, source, answer) => CompleteOccurrence(o, source, answer)
      case OccurrenceFailed(_, message, failure) => FailOccurrence(o, message, failure)
  }

  // ---- The run ----

  predicate Settled(o: Occurrence) { o.state.OccCompleted? || o.state.OccReused? }

  predicate AllSettled(s: Snapshot) {
    forall id :: id in s.occurrences.order ==> Settled(s.occurrences.at[id])
  }

  function StartRun(s: Snapshot, e: Event, protocolVersion: int): Result<Snapshot>
    requires e.RunStarted?
  {
    var _ :- Require(s.status.Starting? || s.status.Cancelling?, WrongState);
    var status := if s.status.Cancelling? then Cancelling else Running;
    var workflow :- TextOf(e.workflow);
    var target :- TextOf(e.target);
    var started := s.(status := status, workflow := Some(workflow), target := Some(target));
    if protocolVersion == 2 then
      var answering :- PersonAnsweringOf(e.personAnswering);
      Ok(started.(personAnswering := Some(answering)))
    else Ok(started)
  }

  function StartOccurrence(s: Snapshot, e: Event): Result<Snapshot>
    requires e.OccurrenceStarted?
  {
    var id :- OccurrenceId(e.occurrenceId);
    var _ :- Require(s.status.Running?, WrongState);
    var _ :- Require(id !in s.occurrences.at, Duplicate);
    var _ :- Require(|s.occurrences.order| < MAX_OCCURRENCES, LimitExceeded);
    var code :- TextOf(e.code);
    var intent :- TextOf(e.intent);
    var addressee :- TextOf(e.addressee);
    var prompt :- TextOf(e.prompt);
    var o := Occurrence(id, OccRunning, code, intent, addressee, prompt, None, None, None, None, None, None, true, None,
                        None, EmptyTable());
    Ok(s.(occurrences := Put(s.occurrences, id, o)))
  }

  function OnOccurrence(s: Snapshot, e: Event): Result<Snapshot>
    requires IsOccurrenceEvent(e)
  {
    var id :- OccurrenceId(e.occurrenceId);
    var _ :- Require(id in s.occurrences.at, Unknown);
    var o :- ApplyOccurrence(id, s.occurrences.at[id], e, AttemptCount(s), SteerCount(s));
    Ok(s.(occurrences := Put(s.occurrences, id, o)))
  }

  function OrderTrace(s: Snapshot, field: Option<seq<Text>>): Result<Snapshot> {
    var _ :- Require(!s.traceRecorded, Duplicate);
    var ids :- DistinctTexts(field);
    var _ :- Require(forall i :: 0 <= i < |ids| ==> ids[i] in s.occurrences.at, BadField);
    var _ :- Require(|ids| == |s.occurrences.order| && AllSettled(s), WrongState);
    Ok(s.(authoredOrder := ids, traceRecorded := true))
  }

  predicate IsOpening(state: AckState) { state.AckAccepted? || state.AckQueued? }

  /** Whether an acknowledgement may follow the record held for its control. */
  function AckTransition(prior: Option<ControlAck>, ack: ControlAck, acks: nat): Result<()> {
    match prior
    case None => Require(acks < MAX_CONTROLS, LimitExceeded)
    case Some(p) =>
      if p.command != ack.command || p.occurrenceId != ack.occurrenceId
         || p.attemptId != ack.attemptId then Refused(Uncorrelated)
      else Require(IsOpening(p.state) && !IsOpening(ack.state), BadTransition)
  }

  /** The occurrence table after a person-answer acknowledgement. */
  function AnswerPersonAck(occurrences: Table<Occurrence>, prior: Option<ControlAck>,
                           ack: ControlAck): Result<Table<Occurrence>>
  {
    var _ :- Require((ack.state.AckDelivered? || ack.state.AckFailed?) ==>
                       (prior.Some? && prior.value.state.AckAccepted?), BadTransition);
    var _ :- Require(ack.occurrenceId.Some?, BadField);
    var _ :- Require(ack.attemptId.None?, BadField);
    var id := ack.occurrenceId.value;
    if id !in occurrences.at || occurrences.at[id].personPending != Some(true) then Refused(WrongState)
    else if ack.state.AckDelivered? then Ok(Put(occurrences, id, occurrences.at[id].(personPending := Some(false))))
    else Ok(occurrences)
  }

  function PriorAck(s: Snapshot, controlId: string): Option<ControlAck> {
    if controlId in s.controlAcks.at then Some(s.controlAcks.at[controlId]) else None
  }

  /** Enter an acknowledgement record; a repetition of the record held changes nothing. */
  function RecordAck(s: Snapshot, ack: ControlAck): Result<Snapshot> {
    var prior := PriorAck(s, ack.controlId);
    if prior == Some(ack) then Ok(s)
    else
      var _ :- AckTransition(prior, ack, |s.controlAcks.order|);
      var occurrences :- if ack.command == Some(AnswerPerson) then AnswerPersonAck(s.occurrences, prior, ack)
                         else Ok(s.occurrences);
      Ok(s.(occurrences := occurrences, controlAcks := Put(s.controlAcks, ack.controlId, ack)))
  }

  function Acknowledge(s: Snapshot, e: Event, protocolVersion: int): Result<Snapshot>
    requires e.ControlAcknowledged?
  {
    var _ :- Require(s.status.Running? || s.status.Cancelling?, WrongState);
    var ack :- AckOf(e, protocolVersion);
    RecordAck(s, ack)
  }

  function CompleteRun(s: Snapshot, e: Event, protocolVersion: int): Result<Snapshot>
    requires e.RunCompleted?
  {
    var _ :- Require(s.status.Running? && s.traceRecorded && |s.authoredOrder| == |s.occurrences.order|
                     && AllSettled(s), WrongState);
    var billed :- NaturalText(e.billFresh);
    var memo :- NaturalText(e.billMemo);
    if protocolVersion == 2 then
      var _ :- Require(e.result.Some?, BadField);
      Ok(s.(status := Succeeded, billFresh := Some(billed), billMemo := Some(memo), result := e.result))
    else Ok(s.(status := Succeeded, billFresh := Some(billed), billMemo := Some(memo)))
  }

  function FailRun(s: Snapshot, rawMessage: Text, failure: Text): Result<Snapshot> {
    var _ :- Require(s.status.Running? || s.status.Cancelling?, WrongState);
    var message :- TextOf(rawMessage);
    var kind :- FailureClassOf(failure);
    Ok(s.(status := Failed, failure := Some(message), failureClass := Some(kind)))
  }

  function CancelRun(s: Snapshot, rawMessage: Text): Result<Snapshot> {
    var _ :- Require(s.status.Running? || s.status.Cancelling?, WrongState);
    var message :- TextOf(rawMessage);
    Ok(s.(status := Cancelled, failure := Some(message), failureClass := Some(CancelledFailure)))
  }

  function Apply(s: Snapshot, e: Event, protocolVersion: int): Result<Snapshot> {
    if (e.AttemptProgress? || e.PersonAnswerPending?) && protocolVersion != 2 then Refused(UnsupportedVersion)
    else if IsOccurrenceEvent(e) then OnOccurrence(s, e)
    else
      match e
      case RunStarted(_, _, _) => StartRun(s, e, protocolVersion)
      case OccurrenceStarted(_, _, _, _, _) => StartOccurrence(s, e)
      case TraceOrdered(ids) => OrderTrace(s, ids)
      case ControlAcknowledged(_, _, _, _, _, _) => Acknowledge(s, e, protocolVersion)
      case RunCompleted(_, _, _) => CompleteRun(s, e, protocolVersion)
      case RunFailed(message, failure) => FailRun(s, message, failure)
      case RunCancelled(message) => CancelRun(s, message)
      case _ => Refused(UnknownEvent)
  }

  function ExpectedSequence(s: Snapshot): nat {
    match s.lastSequence case None => 0 case Some(n) => n + 1
  }

  /** The envelope checks, before the event itself is looked at. */
  function Admit(s: Snapshot, env: Envelope): Result<()> {
    var _ :- Require(env.protocolVersion == 1 || env.protocolVersion == 2, UnsupportedVersion);
    var _ :- Require(s.protocolVersion.None? || s.protocolVersion.value == env.protocolVersion, VersionChanged);
    var _ :- Require(env.runId == s.runId, RunChanged);
    var _ :- Require(env.timestampCanonical, BadTimestamp);
    var _ :- Require(IsDecimal(env.sequence), BadSequence);
    if env.sequence in s.eventDigests then
      Refused(if s.eventDigests[env.sequence] == Digest(env) then DuplicateSequence else ConflictingSequence)
    else
      var _ :- Require(DigitsValue(env.sequence) <= MAX_WORD64, SequenceRange);
      var _ :- Require(DigitsValue(env.sequence) == ExpectedSequence(s), SequenceGap);
      Require(!IsTerminal(s.status), PostTerminal)
  }

  /** The snapshot with the envelope's bookkeeping, to which the event is then applied. */
  function Advance(s: Snapshot, env: Envelope): Snapshot {
    s.(protocolVersion := Some(env.protocolVersion), lastSequence := Some(ExpectedSequence(s)),
       eventDigests := map[env.sequence := Digest(env)])
  }

  function ReduceEvent(s: Snapshot, env: Envelope): Result<Snapshot> {
    var _ :- Admit(s, env);
    Apply(Advance(s, env), env.event, env.protocolVersion)
  }

  /** The snapshot after a run of envelopes, all of which must be accepted. */
  function Replay(s: Snapshot, run: seq<Envelope>): Result<Snapshot> {
    if run == [] then Ok(s)
    else
      var before :- Replay(s, run[..|run| - 1]);
      ReduceEvent(before, run[|run| - 1])
  }

  /** The snapshots that some run of accepted envelopes leads to. */
  ghost predicate Reachable(s: Snapshot) {
    exists runId, run :: Replay(InitialSnapshot(runId), run) == Ok(s)
  }

  lemma {:induction false} ReplayAppend(s: Snapshot, a: seq<Envelope>, b: seq<Envelope>)
    ensures Replay(s, a + b) == match Replay(s, a) case Refused(r) => Refused(r) case Ok(t) => Replay(t, b)
  {
    if b == [] {
      assert a + b == a;
    } else {
      var init := b[..|b| - 1];
      ReplayAppend(s, a, init);
      assert (a + b)[..|a + b| - 1] == a + init;
    }
  }
}
