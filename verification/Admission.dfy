/** Which envelope a run accepts next, told by the envelopes before it alone. */
module Admission {
  import opened Prelude
  import opened Snapshots
  import opened History

  // ---- Fields ----

  predicate IsWord(field: Text, maximum: nat) {
    field.Some? && IsDecimal(field.value) && DigitsValue(field.value) <= maximum
  }

  predicate IsShort(field: Text, maximum: nat) { field.Some? && 1 <= |field.value| <= maximum }

  predicate IsFailure(field: Text) {
    field in {Some("setup"), Some("transport"), Some("decode"), Some("protocol"), Some("cancelled"), Some("runtime")}
  }

  predicate IsOffer(raw: Option<RawOffer>) {
    && raw.Some? && raw.value.choice in {Some("retry"), Some("failover"), Some("abandon")}
    && (raw.value.target.Some? ==> raw.value.choice == Some("failover"))
  }

  /** Up to sixty-four different choices, of which only a failover may name a target. */
  predicate AreOffers(field: Option<seq<Option<RawOffer>>>) {
    && field.Some? && 1 <= |field.value| <= 64
    && (forall i :: 0 <= i < |field.value| ==> IsOffer(field.value[i]))
    && forall i, j :: 0 <= i < j < |field.value| ==> field.value[i].value.choice != field.value[j].value.choice
  }

  predicate AreTexts(field: Option<seq<Text>>) {
    && field.Some? && (forall i :: 0 <= i < |field.value| ==> field.value[i].Some?)
    && forall i, j :: 0 <= i < j < |field.value| ==> field.value[i] != field.value[j]
  }

  predicate IsGivenShort(field: Optional<Text>, maximum: nat) { field.Given? ==> IsShort(field.field, maximum) }

  predicate IsToolStatus(field: Optional<Text>) {
    field in {Undefined, Optional.Given(Some("pending")), Optional.Given(Some("in_progress")),
              Optional.Given(Some("completed")),
              Optional.Given(Some("failed")), Optional.Given(Some("cancelled"))}
  }

  predicate IsTodo(raw: Option<RawTodo>) {
    && raw.Some? && IsShort(raw.value.content, 1024)
    && raw.value.priority in {Some("high"), Some("medium"), Some("low")}
    && raw.value.status in {Some("pending"), Some("in_progress"), Some("completed")}
  }

  predicate IsUsage(raw: RawUsage) {
    && raw.used.Some? && raw.size.Some? && IsDecimal(raw.used.value) && IsDecimal(raw.size.value)
    && 0 < DigitsValue(raw.size.value) && DigitsValue(raw.used.value) <= DigitsValue(raw.size.value)
  }

  /** Progress that an attempt with this story can make. */
  predicate IsProgress(progress: Progress, story: seq<Envelope>) {
    match progress
    case MessageProgress(text) => IsShort(text, 4096)
    case ReasoningProgress(text) => IsShort(text, 4096)
    case ToolProgress(Some(update)) =>
      var known := FirstMentions(story, ToolIn);
      && update.id.Some? && (update.id.value in known || |known| < 128)
      && IsGivenShort(update.title, 1024) && IsGivenShort(update.toolKind, 128)
      && IsToolStatus(update.status) && IsGivenShort(update.summary, 4096)
    case TodosProgress(Some(items)) => |items| <= 128 && forall i :: 0 <= i < |items| ==> IsTodo(items[i])
    case UsageProgress(Some(usage)) => IsUsage(usage)
    case _ => false
  }

  // ---- What has happened ----

  function StartedOccurrences(run: seq<Envelope>): seq<string> { Collected(run, NewOccurrenceIn) }

  function StoryOf(run: seq<Envelope>, id: string): seq<Envelope> { Selected(run, About(id)) }

  predicate IsOpen(run: seq<Envelope>) { Latest(run, StatusIn) == Some(Running) }

  predicate HasEnded(run: seq<Envelope>) { Latest(run, StatusIn) in {Some(Succeeded), Some(Failed), Some(Cancelled)} }

  function AnyStartIn(env: Envelope): Option<Envelope> { if env.event.AttemptStarted? then Some(env) else None }

  /** The attempts started and the steers given in the whole run. */
  function AttemptsIn(run: seq<Envelope>): nat { |Collected(run, AnyStartIn)| }

  function SteersIn(run: seq<Envelope>): nat { |Collected(run, SteerIn)| }

  predicate SomeRuns(story: seq<Envelope>, id: string) {
    exists key :: key in Collected(story, StartedIn(id)) && RunsAfter(story, id, key)
  }

  predicate IsSettled(story: seq<Envelope>) { StateAfter(story) in {Some(OccCompleted), Some(OccReused)} }

  predicate AllSettledIn(run: seq<Envelope>) {
    forall id :: id in StartedOccurrences(run) ==> IsSettled(StoryOf(run, id))
  }

  // ---- Events on an occurrence ----

  /** An event on an attempt that runs. */
  predicate AttemptMay(told: seq<Envelope>, env: Envelope, steers: nat) {
    match env.event
    case AttemptOutput(_, _, chunk) => chunk.Some?
    case AttemptProgress(_, _, progress) => env.protocolVersion == 2 && IsProgress(progress, told)
    case AttemptSteered(_, _, timing, controlId, text) =>
      steers < 256 && timing in {Some("interrupt-now"), Some("next-boundary")} && controlId.Some? && text.Some?
    case AttemptCompleted(_, _) => true
    case AttemptFailed(_, _, message, failure) => message.Some? && IsFailure(failure)
    case _ => false
  }

  function NumberOf(e: Event): Text {
    match e
    case AttemptStarted(_, n, _) => n
    case AttemptOutput(_, n, _) => n
    case AttemptProgress(_, n, _) => n
    case AttemptSteered(_, n, _, _, _) => n
    case AttemptCompleted(_, n) => n
    case AttemptFailed(_, n, _, _) => n
    case _ => None
  }

  predicate IsOnAttempt(e: Event) {
    e.AttemptOutput? || e.AttemptProgress? || e.AttemptSteered? || e.AttemptCompleted? || e.AttemptFailed?
  }

  predicate OccurrenceMay(story: seq<Envelope>, id: string, env: Envelope, attempts: nat, steers: nat) {
    var state, started := StateAfter(story), Collected(story, StartedIn(id));
    var since := Since(story, IsOfferEvent);
    var runs := SomeRuns(story, id);
    if IsOnAttempt(env.event) then
      && IsWord(NumberOf(env.event), MAX_WORD32)
      && var key := id + ":" + NumberOf(env.event).value;
         RunsAfter(story, id, key) && AttemptMay(Selected(story, AboutAttempt(id, key)), env, steers)
    else
      match env.event
      case AttemptStarted(_, number, target) =>
        && state == Some(OccRunning) && IsWord(number, MAX_WORD32) && id + ":" + number.value !in started
        && attempts < 512 && target.Some?
      case RecoveryChosen(_, choice, target, controlId) =>
        && state == Some(OccRecovering) && Latest(since, ChoiceIn).None? && Latest(story, OffersIn).Some?
        && Some(RawOffer(choice, target)) in Latest(story, OffersIn).value && controlId.Some?
      case OccurrenceReused(_, group) =>
        state == Some(OccRunning) && started == [] && Latest(story, PendingIn) != Some(true) && group.Some?
      case RecoveryPending(_, choices, gap, message) =>
        state == Some(OccRunning) && AreOffers(choices) && gap.Some? && message.Some?
      case OccurrenceRetried(_, controlId) =>
        && state == Some(OccRecovering) && controlId.Some?
        && Latest(since, ChoiceIn).Some? && Latest(since, ChoiceIn).value.choice != Some("abandon")
      case DispatchPending(_, targets) =>
        state == Some(OccRunning) && TargetsAfter(story).None? && AreTexts(targets) && 1 <= |targets.value| <= 64
      case OccurrenceRedirected(_, target, controlId) =>
        && target.Some? && controlId.Some?
        && var reserved := TargetsAfter(story);
           if reserved.None? then runs
           else target in reserved.value && (Latest(story, OpenIn) == Some(true) || runs)
      case PersonAnswerPending(_, question) =>
        && env.protocolVersion == 2 && state == Some(OccRunning) && started == []
        && Latest(story, AddresseeIn).Some? && "person " <= Latest(story, AddresseeIn).value
        && Latest(story, QuestionIn).None? && question.Some?
      case OccurrenceCompleted(_, source, answer) =>
        && state in {Some(OccRunning), Some(OccReused)} && Latest(story, PendingIn) != Some(true) && !runs
        && source.Some? && answer.Some?
      case OccurrenceFailed(_, message, failure) =>
        state in {Some(OccRunning), Some(OccRecovering)} && !runs && message.Some? && IsFailure(failure)
      case _ => false
  }

  // ---- Acknowledgements ----

  predicate IsClosing(state: Text) {
    state in {Some("delivered"), Some("rejected-stale"), Some("unsupported"), Some("failed")}
  }

  predicate IsOpeningState(state: Text) { state in {Some("accepted"), Some("queued")} }

  predicate AckFields(env: Envelope)
    requires env.event.ControlAcknowledged?
  {
    && env.event.controlId.Some? && env.event.message.Some?
    && (IsOpeningState(env.event.state) || IsClosing(env.event.state))
    && (env.protocolVersion == 2 ==>
          && env.event.command in {Some("cancelRun"), Some("steerOccurrence"), Some("retryOccurrence"),
                                   Some("failoverOccurrence"),
                                   Some("abandonOccurrence"), Some("redirectOccurrence"), Some("answerPerson"),
                                   Some("invalid")}
          && (env.event.occurrenceRef.Given? ==> IsWord(env.event.occurrenceRef.field, MAX_WORD64))
          && (env.event.attemptRef.Given? ==>
                && env.event.attemptRef.field.Some?
                && IsWord(env.event.attemptRef.field.value.occurrenceId, MAX_WORD64)
                && IsWord(env.event.attemptRef.field.value.attemptNumber, MAX_WORD32)))
  }

  /** Two acknowledgements of the same command, occurrence and attempt; version 1 has none of these. */
  predicate SameTarget(env: Envelope, prior: Envelope)
    requires env.event.ControlAcknowledged? && prior.event.ControlAcknowledged?
  {
    env.protocolVersion == 2 ==>
      && env.event.command == prior.event.command && env.event.occurrenceRef == prior.event.occurrenceRef
      && ReferenceText(env.event.attemptRef) == ReferenceText(prior.event.attemptRef)
  }

  predicate Repeats(env: Envelope, prior: Envelope)
    requires env.event.ControlAcknowledged? && prior.event.ControlAcknowledged?
  {
    SameTarget(env, prior) && env.event.state == prior.event.state && env.event.message == prior.event.message
  }

  /** An answer is acknowledged while its question is pending, and it ends only after it was accepted. */
  predicate AnswerMay(run: seq<Envelope>, env: Envelope, prior: Option<Envelope>)
    requires env.event.ControlAcknowledged?
    requires prior.Some? ==> prior.value.event.ControlAcknowledged?
  {
    && env.event.occurrenceRef.Given? && env.event.occurrenceRef.field.Some? && env.event.attemptRef.Undefined?
    && Latest(StoryOf(run, env.event.occurrenceRef.field.value), PendingIn) == Some(true)
    && (env.event.state in {Some("delivered"), Some("failed")} ==>
          prior.Some? && prior.value.event.state == Some("accepted"))
  }

  predicate AckMay(run: seq<Envelope>, env: Envelope)
    requires env.event.ControlAcknowledged?
  {
    && IsOpen(run) && AckFields(env)
    && var prior := Latest(run, RecordIn(env.event.controlId.value));
       && (prior.Some? ==> prior.value.event.ControlAcknowledged?)
       && ((prior.Some? && Repeats(env, prior.value))
           || (&& (if prior.None? then |FirstMentions(run, ControlIn)| < 256
                   else && SameTarget(env, prior.value)
                        && IsOpeningState(prior.value.event.state) && IsClosing(env.event.state))
               && (env.protocolVersion == 2 && env.event.command == Some("answerPerson") ==>
                     AnswerMay(run, env, prior))))
  }

  // ---- Events of the run ----

  predicate RunMay(run: seq<Envelope>, env: Envelope) {
    match env.event
    case RunStarted(workflow, target, answering) =>
      && Latest(run, StatusIn).None? && workflow.Some? && target.Some?
      && (env.protocolVersion == 2 ==> answering in {Some("engine"), Some("local-control")})
    case OccurrenceStarted(id, code, intent, addressee, prompt) =>
      && IsOpen(run) && IsWord(id, MAX_WORD64) && id.value !in StartedOccurrences(run)
      && |StartedOccurrences(run)| < 2048
      && code.Some? && intent.Some? && addressee.Some? && prompt.Some?
    case TraceOrdered(ids) =>
      && Latest(run, TraceIn).None? && AreTexts(ids) && |ids.value| == |StartedOccurrences(run)|
      && (forall i :: 0 <= i < |ids.value| ==> ids.value[i].value in StartedOccurrences(run))
      && AllSettledIn(run)
    case ControlAcknowledged(_, _, _, _, _, _) => AckMay(run, env)
    case RunCompleted(billed, memo, result) =>
      && IsOpen(run) && Latest(run, TraceIn).Some? && |Latest(run, TraceIn).value| == |StartedOccurrences(run)|
      && AllSettledIn(run)
      && billed.Some? && IsDecimal(billed.value) && memo.Some? && IsDecimal(memo.value)
      && (env.protocolVersion == 2 ==> result.Some?)
    case RunFailed(message, failure) => IsOpen(run) && message.Some? && IsFailure(failure)
    case RunCancelled(message) => IsOpen(run) && message.Some?
    case UnknownEventType(_) => false
    case _ =>
      var id := OccurrenceOf(env.event);
      && IsWord(id, MAX_WORD64) && id.value in StartedOccurrences(run)
      && OccurrenceMay(StoryOf(run, id.value), id.value, env, AttemptsIn(run), SteersIn(run))
  }

  /** The envelope itself: version, run, time stamp, the next sequence number, and a run that has not ended. */
  predicate EnvelopeFits(runId: string, run: seq<Envelope>, env: Envelope) {
    && env.protocolVersion in {1, 2} && (run != [] ==> env.protocolVersion == run[|run| - 1].protocolVersion)
    && env.runId == runId && env.timestampCanonical
    && IsDecimal(env.sequence) && DigitsValue(env.sequence) == |run| <= 0xFFFF_FFFF_FFFF_FFFF
    && !HasEnded(run)
  }

  /** What may follow a run. */
  predicate MayFollow(runId: string, run: seq<Envelope>, env: Envelope) {
    EnvelopeFits(runId, run, env) && RunMay(run, env)
  }
}
