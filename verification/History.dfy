/** What a snapshot should say, told by the envelopes alone: the latest and the collected values of their fields. */
module History {
  import opened Prelude
  import opened Snapshots
  import OutputTail

  // ---- The words of the protocol ----

  function FailureName(kind: FailureClass): string {
    match kind
    case SetupFailure => "setup"
    case TransportFailure => "transport"
    case DecodeFailure => "decode"
    case ProtocolFailure => "protocol"
    case CancelledFailure => "cancelled"
    case RuntimeFailure => "runtime"
    case SupervisorFailure => "supervisor"
    case ForcedTermination => "forced-termination"
    case MissingTerminalEvent => "missing-terminal-event"
    case LostOwnership => "lost-ownership"
    case CorruptStore => "corrupt-store"
    case UnknownFailure => "unknown"
  }

  function ChoiceName(choice: Choice): string {
    match choice
    case Retry => "retry"
    case Failover => "failover"
    case Abandon => "abandon"
  }

  function TimingName(timing: Timing): string {
    match timing
    case InterruptNow => "interrupt-now"
    case NextBoundary => "next-boundary"
  }

  function AnsweringName(answering: PersonAnswering): string {
    match answering
    case ByEngine => "engine"
    case ByLocalControl => "local-control"
  }

  function ToolStatusName(status: ToolStatus): string {
    match status
    case ToolPending => "pending"
    case ToolInProgress => "in_progress"
    case ToolCompleted => "completed"
    case ToolFailed => "failed"
    case ToolCancelled => "cancelled"
  }

  function PriorityName(priority: Priority): string {
    match priority
    case High => "high"
    case Medium => "medium"
    case Low => "low"
  }

  function TodoStatusName(status: TodoStatus): string {
    match status
    case TodoPending => "pending"
    case TodoInProgress => "in_progress"
    case TodoCompleted => "completed"
  }

  function AckStateName(state: AckState): string {
    match state
    case AckAccepted => "accepted"
    case AckQueued => "queued"
    case AckDelivered => "delivered"
    case AckRejectedStale => "rejected-stale"
    case AckUnsupported => "unsupported"
    case AckFailed => "failed"
  }

  function CommandName(command: Command): string {
    match command
    case CancelCommand => "cancelRun"
    case SteerCommand => "steerOccurrence"
    case RetryCommand => "retryOccurrence"
    case FailoverCommand => "failoverOccurrence"
    case AbandonCommand => "abandonOccurrence"
    case RedirectCommand => "redirectOccurrence"
    case AnswerPerson => "answerPerson"
    case InvalidCommand => "invalid"
  }

  function Shown<T>(value: Option<T>, name: T -> string): Option<string> {
    match value case None => None case Some(v) => Some(name(v))
  }

  /** Texts as the fields of an event give them. */
  function TextsGiven(texts: seq<string>): seq<Text> { seq(|texts|, i requires 0 <= i < |texts| => Some(texts[i])) }

  // ---- Reading a story: some of the envelopes of a run, in order ----

  type Read<!T> = Envelope -> Option<T>

  /** The value in the last envelope that has one. */
  function Latest<T>(story: seq<Envelope>, read: Read<T>): Option<T> {
    if story == [] then None
    else
      var value := read(story[|story| - 1]);
      if value.Some? then value else Latest(story[..|story| - 1], read)
  }

  /** The values of all envelopes that have one, in order. */
  function Collected<T>(story: seq<Envelope>, read: Read<T>): seq<T> {
    if story == [] then []
    else
      var value := read(story[|story| - 1]);
      Collected(story[..|story| - 1], read) + if value.Some? then [value.value] else []
  }

  /** The values of all envelopes that have one, each where it occurs first. */
  function FirstMentions(story: seq<Envelope>, read: Read<string>): seq<string> {
    if story == [] then []
    else
      var before, value := FirstMentions(story[..|story| - 1], read), read(story[|story| - 1]);
      if value.Some? && value.value !in before then before + [value.value] else before
  }

  function Selected(run: seq<Envelope>, which: Envelope -> bool): seq<Envelope> {
    if run == [] then []
    else Selected(run[..|run| - 1], which) + if which(run[|run| - 1]) then [run[|run| - 1]] else []
  }

  /** The story since the last of certain envelopes, that one included. */
  function Since(story: seq<Envelope>, which: Envelope -> bool): seq<Envelope> {
    if story == [] then []
    else if which(story[|story| - 1]) then [story[|story| - 1]]
    else
      var since := Since(story[..|story| - 1], which);
      if since == [] then [] else since + [story[|story| - 1]]
  }

  lemma LatestNext<T>(story: seq<Envelope>, env: Envelope, read: Read<T>)
    ensures Latest(story + [env], read) == if read(env).Some? then read(env) else Latest(story, read)
  {
    assert (story + [env])[..|story + [env]| - 1] == story;
  }

  lemma CollectedNext<T>(story: seq<Envelope>, env: Envelope, read: Read<T>)
    ensures Collected(story + [env], read)
            == if read(env).Some? then Collected(story, read) + [read(env).value] else Collected(story, read)
  {
    assert (story + [env])[..|story + [env]| - 1] == story;
  }

  lemma FirstMentionsNext(story: seq<Envelope>, env: Envelope, read: Read<string>)
    ensures var before := FirstMentions(story, read);
            FirstMentions(story + [env], read)
            == if read(env).Some? && read(env).value !in before then before + [read(env).value] else before
  {
    assert (story + [env])[..|story + [env]| - 1] == story;
  }

  lemma SelectedNext(run: seq<Envelope>, env: Envelope, which: Envelope -> bool)
    ensures Selected(run + [env], which) == if which(env) then Selected(run, which) + [env] else Selected(run, which)
  {
    assert (run + [env])[..|run + [env]| - 1] == run;
  }

  lemma SinceNext(story: seq<Envelope>, env: Envelope, which: Envelope -> bool)
    ensures var since := Since(story, which);
            Since(story + [env], which) == if which(env) then [env] else if since == [] then [] else since + [env]
  {
    assert (story + [env])[..|story + [env]| - 1] == story;
  }

  /** The last `maximum` of all values, or all of them if they are fewer. */
  predicate IsLastOf<T(==)>(some: seq<T>, all: seq<T>, maximum: nat) {
    |some| == (if |all| < maximum then |all| else maximum) && some == all[|all| - |some|..]
  }

  // ---- Attempts ----

  /** The fields that every event about an occurrence carries. */
  function OccurrenceOf(e: Event): Text {
    match e
    case OccurrenceStarted(id, _, _, _, _) => id
    case AttemptStarted(id, _, _) => id
    case AttemptOutput(id, _, _) => id
    case AttemptProgress(id, _, _) => id
    case AttemptSteered(id, _, _, _, _) => id
    case AttemptCompleted(id, _) => id
    case AttemptFailed(id, _, _, _) => id
    case RecoveryChosen(id, _, _, _) => id
    case OccurrenceReused(id, _) => id
    case RecoveryPending(id, _, _, _) => id
    case OccurrenceRetried(id, _) => id
    case DispatchPending(id, _) => id
    case OccurrenceRedirected(id, _, _) => id
    case PersonAnswerPending(id, _) => id
    case OccurrenceCompleted(id, _, _) => id
    case OccurrenceFailed(id, _, _) => id
    case _ => None
  }

  /** The attempt that an event about an occurrence is about, if it is about one. */
  function AttemptOf(id: string, e: Event): Option<string> {
    var number :=
      match e
      case AttemptStarted(_, n, _) => n
      case AttemptOutput(_, n, _) => n
      case AttemptProgress(_, n, _) => n
      case AttemptSteered(_, n, _, _, _) => n
      case AttemptCompleted(_, n) => n
      case AttemptFailed(_, n, _, _) => n
      case _ => None;
    match number case None => None case Some(n) => Some(id + ":" + n)
  }

  function TargetIn(env: Envelope): Option<string> {
    match env.event case AttemptStarted(_, _, target) => target case _ => None
  }

  function AttemptStateIn(env: Envelope): Option<AttemptState> {
    match env.event
    case AttemptStarted(_, _, _) => Some(AttRunning)
    case AttemptCompleted(_, _) => Some(AttemptState.AttCompleted)
    case AttemptFailed(_, _, _, _) => Some(AttFailed)
    case _ => None
  }

  function ChunkIn(env: Envelope): Option<string> {
    match env.event case AttemptOutput(_, _, chunk) => chunk case _ => None
  }

  function AttemptMessageIn(env: Envelope): Option<string> {
    match env.event case AttemptFailed(_, _, message, _) => message case _ => None
  }

  function AttemptClassIn(env: Envelope): Option<string> {
    match env.event case AttemptFailed(_, _, _, failure) => failure case _ => None
  }

  datatype SteerFields = SteerFields(controlId: Text, timing: Text, text: Text)

  function SteerIn(env: Envelope): Option<SteerFields> {
    match env.event
    case AttemptSteered(_, _, timing, controlId, text) => Some(SteerFields(controlId, timing, text))
    case _ => None
  }

  function SteersGiven(steers: seq<Steer>): seq<SteerFields> {
    seq(|steers|, i requires 0 <= i < |steers| =>
      SteerFields(Some(steers[i].controlId), Some(TimingName(steers[i].timing)), Some(steers[i].text)))
  }

  function MessageIn(env: Envelope): Option<string> {
    match env.event case AttemptProgress(_, _, MessageProgress(text)) => text case _ => None
  }

  function ReasoningIn(env: Envelope): Option<string> {
    match env.event case AttemptProgress(_, _, ReasoningProgress(text)) => text case _ => None
  }

  function TodosIn(env: Envelope): Option<seq<Option<RawTodo>>> {
    match env.event case AttemptProgress(_, _, TodosProgress(items)) => items case _ => None
  }

  function TodosGiven(todos: seq<Todo>): seq<Option<RawTodo>> {
    seq(|todos|, i requires 0 <= i < |todos| =>
      Some(RawTodo(Some(todos[i].content), Some(PriorityName(todos[i].priority)),
                   Some(TodoStatusName(todos[i].status)))))
  }

  function UsageIn(env: Envelope): Option<RawUsage> {
    match env.event case AttemptProgress(_, _, UsageProgress(usage)) => usage case _ => None
  }

  function UsageGiven(usage: Option<Usage>): Option<RawUsage> {
    match usage case None => None case Some(u) => Some(RawUsage(Some(u.used), Some(u.size)))
  }

  function ToolUpdateIn(env: Envelope): Option<ToolUpdate> {
    match env.event case AttemptProgress(_, _, ToolProgress(tool)) => tool case _ => None
  }

  function ToolIn(env: Envelope): Option<string> {
    match ToolUpdateIn(env) case None => None case Some(update) => update.id
  }

  /** A field of an update of one tool; an absent field says nothing. */
  function FieldOf(env: Envelope, key: string, field: ToolUpdate -> Optional<Text>): Option<string> {
    match ToolUpdateIn(env)
    case None => None
    case Some(update) =>
      if update.id != Some(key) then None else match field(update) case Undefined => None case Given(text) => text
  }

  function ToolFieldIn(key: string, field: ToolUpdate -> Optional<Text>): Read<string> {
    (env: Envelope) => FieldOf(env, key, field)
  }

  function TitleOf(update: ToolUpdate): Optional<Text> { update.title }
  function KindOf(update: ToolUpdate): Optional<Text> { update.toolKind }
  function StatusOf(update: ToolUpdate): Optional<Text> { update.status }
  function SummaryOf(update: ToolUpdate): Optional<Text> { update.summary }

  predicate ToolTells(tool: Tool, key: string, story: seq<Envelope>) {
    && tool.id == key
    && tool.title == Latest(story, ToolFieldIn(key, TitleOf))
    && tool.toolKind == Latest(story, ToolFieldIn(key, KindOf))
    && Shown(tool.status, ToolStatusName) == Latest(story, ToolFieldIn(key, StatusOf))
    && tool.summary == Latest(story, ToolFieldIn(key, SummaryOf))
  }

  predicate ToolsTell(tools: Table<Tool>, story: seq<Envelope>) {
    && tools.order == FirstMentions(story, ToolIn)
    && forall key :: key in tools.at ==> ToolTells(tools.at[key], key, story)
  }

  predicate OutcomeTells(a: Attempt, story: seq<Envelope>) {
    && Some(a.target) == Latest(story, TargetIn)
    && Some(a.state) == Latest(story, AttemptStateIn)
    && a.output == OutputTail.TailOf(Concat(Collected(story, ChunkIn)))
    && a.failure == Latest(story, AttemptMessageIn)
    && Shown(a.failureClass, FailureName) == Latest(story, AttemptClassIn)
    && SteersGiven(a.steers) == Collected(story, SteerIn)
  }

  predicate ProgressTells(a: Attempt, story: seq<Envelope>) {
    && IsLastOf(a.messages, Collected(story, MessageIn), 64)
    && IsLastOf(a.reasoning, Collected(story, ReasoningIn), 32)
    && TodosGiven(a.todos) == (match Latest(story, TodosIn) case None => [] case Some(items) => items)
    && UsageGiven(a.usage) == Latest(story, UsageIn)
    && ToolsTell(a.tools, story)
  }

  /** An attempt is what the events about it say, from its start on. */
  predicate AttemptTells(a: Attempt, key: string, story: seq<Envelope>) {
    a.id == key && OutcomeTells(a, story) && ProgressTells(a, story)
  }

  // ---- Occurrences ----

  /** An envelope is about an occurrence: it names it, or it acknowledges an answer to its question. */
  predicate IsAbout(env: Envelope, id: string) {
    || OccurrenceOf(env.event) == Some(id)
    || AnswerTo(env, id)
  }

  predicate AnswerTo(env: Envelope, id: string) {
    && env.protocolVersion == 2 && env.event.ControlAcknowledged?
    && env.event.command == Some("answerPerson") && env.event.occurrenceRef == Optional.Given(Some(id))
  }

  function About(id: string): Envelope -> bool { (env: Envelope) => IsAbout(env, id) }

  function AboutAttempt(id: string, attemptId: string): Envelope -> bool {
    (env: Envelope) => AttemptOf(id, env.event) == Some(attemptId)
  }

  function CodeIn(env: Envelope): Option<string> {
    match env.event case OccurrenceStarted(_, code, _, _, _) => code case _ => None
  }

  function IntentIn(env: Envelope): Option<string> {
    match env.event case OccurrenceStarted(_, _, intent, _, _) => intent case _ => None
  }

  function AddresseeIn(env: Envelope): Option<string> {
    match env.event case OccurrenceStarted(_, _, _, addressee, _) => addressee case _ => None
  }

  function PromptIn(env: Envelope): Option<string> {
    match env.event case OccurrenceStarted(_, _, _, _, prompt) => prompt case _ => None
  }

  function StateIn(env: Envelope): Option<OccurrenceState> {
    match env.event
    case OccurrenceStarted(_, _, _, _, _) => Some(OccRunning)
    case RecoveryPending(_, _, _, _) => Some(OccRecovering)
    case OccurrenceRetried(_, _) => Some(OccRunning)
    case OccurrenceReused(_, _) => Some(OccReused)
    case OccurrenceCompleted(_, _, _) => Some(OccCompleted)
    case OccurrenceFailed(_, _, _) => Some(OccFailed)
    case _ => None
  }

  /** A reused occurrence stays reused when it completes. */
  function StateAfter(story: seq<Envelope>): Option<OccurrenceState> {
    var state := Latest(story, StateIn);
    if state == Some(OccCompleted) && Latest(story, ReuseIn).Some? then Some(OccReused) else state
  }

  function AnswerIn(env: Envelope): Option<string> {
    match env.event
    case OccurrenceCompleted(_, _, answer) => answer
    case OccurrenceFailed(_, message, _) => message
    case _ => None
  }

  function SourceIn(env: Envelope): Option<string> {
    match env.event case OccurrenceCompleted(_, source, _) => source case _ => None
  }

  function ClassIn(env: Envelope): Option<string> {
    match env.event case OccurrenceFailed(_, _, failure) => failure case _ => None
  }

  function ReuseIn(env: Envelope): Option<string> {
    match env.event case OccurrenceReused(_, group) => group case _ => None
  }

  function QuestionIn(env: Envelope): Option<QuestionRef> {
    match env.event case PersonAnswerPending(_, question) => question case _ => None
  }

  /** A question is pending until a delivered answer is acknowledged. */
  function PendingIn(env: Envelope): Option<bool> {
    match env.event
    case PersonAnswerPending(_, _) => Some(true)
    case ControlAcknowledged(_, state, _, _, _, _) => if state == Some("delivered") then Some(false) else None
    case _ => None
  }

  predicate StartTells(o: Occurrence, story: seq<Envelope>) {
    && Some(o.code) == Latest(story, CodeIn)
    && Some(o.intent) == Latest(story, IntentIn)
    && Some(o.addressee) == Latest(story, AddresseeIn)
    && Some(o.prompt) == Latest(story, PromptIn)
  }

  predicate EndTells(o: Occurrence, story: seq<Envelope>) {
    && Some(o.state) == StateAfter(story)
    && o.answer == Latest(story, AnswerIn)
    && o.source == Latest(story, SourceIn)
    && Shown(o.failureClass, FailureName) == Latest(story, ClassIn)
    && o.reuseKind == Latest(story, ReuseIn)
  }

  predicate PersonTells(o: Occurrence, story: seq<Envelope>) {
    && o.personQuestion == Latest(story, QuestionIn)
    && o.personPending == Latest(story, PendingIn)
    && (o.replayable <==> Collected(story, SteerIn) == [])
  }

  // ---- Recovery: the last offers, and what was chosen and retried since ----

  predicate IsOfferEvent(env: Envelope) { env.event.RecoveryPending? }

  function OffersIn(env: Envelope): Option<seq<Option<RawOffer>>> {
    match env.event case RecoveryPending(_, choices, _, _) => choices case _ => None
  }

  function GapIn(env: Envelope): Option<string> {
    match env.event case RecoveryPending(_, _, gap, _) => gap case _ => None
  }

  function RecoveryMessageIn(env: Envelope): Option<string> {
    match env.event case RecoveryPending(_, _, _, message) => message case _ => None
  }

  function RetryIn(env: Envelope): Option<string> {
    match env.event case OccurrenceRetried(_, controlId) => controlId case _ => None
  }

  datatype ChoiceFields = ChoiceFields(controlId: Text, choice: Text, target: Option<string>)

  function ChoiceIn(env: Envelope): Option<ChoiceFields> {
    match env.event
    case RecoveryChosen(_, choice, target, controlId) => Some(ChoiceFields(controlId, choice, target))
    case _ => None
  }

  function OffersGiven(offers: seq<Offer>): seq<Option<RawOffer>> {
    seq(|offers|, i requires 0 <= i < |offers| => Some(RawOffer(Some(ChoiceName(offers[i].choice)), offers[i].target)))
  }

  function ChoiceGiven(chosen: Option<Chosen>): Option<ChoiceFields> {
    match chosen
    case None => None
    case Some(c) => Some(ChoiceFields(Some(c.controlId), Some(ChoiceName(c.offer.choice)), c.offer.target))
  }

  predicate RecoveryTells(recovery: Option<Recovery>, story: seq<Envelope>) {
    match recovery
    case None => Since(story, IsOfferEvent) == []
    case Some(r) =>
      var since := Since(story, IsOfferEvent);
      && since != []
      && Some(r.gap) == Latest(story, GapIn)
      && Some(r.message) == Latest(story, RecoveryMessageIn)
      && Some(OffersGiven(r.choices)) == Latest(story, OffersIn)
      && r.retries == Collected(since, RetryIn)
      && ChoiceGiven(r.chosen) == Latest(since, ChoiceIn)
  }

  // ---- Dispatch: the targets reserved, whether they are still open, and the last redirect ----

  function TargetsIn(env: Envelope): Option<seq<Text>> {
    match env.event case DispatchPending(_, targets) => targets case _ => None
  }

  function OpenIn(env: Envelope): Option<bool> {
    match env.event
    case DispatchPending(_, _) => Some(true)
    case AttemptStarted(_, _, _) => Some(false)
    case OccurrenceReused(_, _) => Some(false)
    case OccurrenceRedirected(_, _, _) => Some(false)
    case _ => None
  }

  function RedirectTargetIn(env: Envelope): Option<string> {
    match env.event case OccurrenceRedirected(_, target, _) => target case _ => None
  }

  function RedirectControlIn(env: Envelope): Option<string> {
    match env.event case OccurrenceRedirected(_, _, controlId) => controlId case _ => None
  }

  /** The targets of a story: those that were reserved, or else the one target that it was redirected to. */
  function TargetsAfter(story: seq<Envelope>): Option<seq<Text>> {
    var reserved, redirected := Latest(story, TargetsIn), Latest(story, RedirectTargetIn);
    if reserved.Some? then reserved else if redirected.Some? then Some([redirected]) else None
  }

  function StartedIn(id: string): Read<string> {
    (env: Envelope) => if env.event.AttemptStarted? then AttemptOf(id, env.event) else None
  }

  predicate RunsAfter(story: seq<Envelope>, id: string, attemptId: string) {
    Latest(Selected(story, AboutAttempt(id, attemptId)), AttemptStateIn) == Some(AttRunning)
  }

  /** The attempt that was started first among those that run. */
  predicate IsFirstRunning(story: seq<Envelope>, id: string, attemptId: string) {
    var started := Collected(story, StartedIn(id));
    exists i :: 0 <= i < |started| && started[i] == attemptId && RunsAfter(story, id, attemptId)
                && forall j :: 0 <= j < i ==> !RunsAfter(story, id, started[j])
  }

  /** A redirect to an open target stops nothing; any other stops the first running attempt. */
  predicate StopTells(stopped: Option<string>, story: seq<Envelope>, id: string)
    decreases |story|
  {
    if story == [] then stopped.None?
    else
      var before, last := story[..|story| - 1], story[|story| - 1];
      if RedirectTargetIn(last).None? then StopTells(stopped, before, id)
      else
        var reserved := TargetsAfter(before);
        if Latest(before, OpenIn) == Some(true) && reserved.Some? && RedirectTargetIn(last) in reserved.value then
          stopped.None?
        else stopped.Some? && IsFirstRunning(before, id, stopped.value)
  }

  predicate DispatchTells(dispatch: Option<Dispatch>, story: seq<Envelope>, id: string) {
    match dispatch
    case None => TargetsAfter(story).None?
    case Some(d) =>
      && Some(TextsGiven(d.targets)) == TargetsAfter(story)
      && Some(d.open) == Latest(story, OpenIn)
      && RedirectTells(d.redirect, story, id)
  }

  predicate RedirectTells(redirect: Option<Redirect>, story: seq<Envelope>, id: string) {
    match redirect
    case None => Latest(story, RedirectTargetIn).None?
    case Some(r) =>
      && Some(r.target) == Latest(story, RedirectTargetIn)
      && Some(r.controlId) == Latest(story, RedirectControlIn)
      && StopTells(r.stoppedAttempt, story, id)
  }

  /** An attempt of the table tells its part of the story; of any other nothing was said. */
  predicate EntryTells(attempts: Table<Attempt>, key: string, story: seq<Envelope>, id: string) {
    var told := Selected(story, AboutAttempt(id, key));
    if key in attempts.at then AttemptTells(attempts.at[key], key, told) else told == []
  }

  /** The attempts in the order of their starts. */
  ghost predicate AttemptsTell(attempts: Table<Attempt>, story: seq<Envelope>, id: string) {
    && attempts.order == Collected(story, StartedIn(id))
    && forall key: string :: EntryTells(attempts, key, story, id)
  }

  /** An occurrence is what the envelopes about it say. */
  ghost predicate OccurrenceTells(o: Occurrence, id: string, story: seq<Envelope>) {
    && o.id == id && StartTells(o, story) && EndTells(o, story) && PersonTells(o, story)
    && RecoveryTells(o.recovery, story) && DispatchTells(o.dispatch, story, id) && AttemptsTell(o.attempts, story, id)
  }

  // ---- Controls ----

  function ControlIn(env: Envelope): Option<string> {
    match env.event case ControlAcknowledged(controlId, _, _, _, _, _) => controlId case _ => None
  }

  function RecordIn(controlId: string): Read<Envelope> {
    (env: Envelope) => if ControlIn(env) == Some(controlId) then Some(env) else None
  }

  function ReferenceText(reference: Optional<Option<AttemptReference>>): Option<Text> {
    match reference
    case Undefined => None
    case Given(None) => Some(None)
    case Given(Some(r)) =>
      Some(if r.occurrenceId.Some? && r.attemptNumber.Some? then
             Some(r.occurrenceId.value + ":" + r.attemptNumber.value)
           else None)
  }

  /** A record repeats the fields of its envelope; in version 1 it has no correlation. */
  predicate AckTells(ack: ControlAck, env: Envelope) {
    && env.event.ControlAcknowledged?
    && Some(ack.controlId) == env.event.controlId
    && Some(AckStateName(ack.state)) == env.event.state
    && Some(ack.message) == env.event.message
    && (env.protocolVersion != 2 ==> ack.command.None? && ack.occurrenceId.None? && ack.attemptId.None?)
    && (env.protocolVersion == 2 ==>
          && ack.command.Some? && Some(CommandName(ack.command.value)) == env.event.command
          && env.event.occurrenceRef == (if ack.occurrenceId.Some? then Optional.Given(ack.occurrenceId) else Undefined)
          && ReferenceText(env.event.attemptRef) == if ack.attemptId.Some? then Some(ack.attemptId) else None)
  }

  predicate AcksTell(acks: Table<ControlAck>, run: seq<Envelope>) {
    && acks.order == FirstMentions(run, ControlIn)
    && forall c :: c in acks.at ==>
      Latest(run, RecordIn(c)).Some? && AckTells(acks.at[c], Latest(run, RecordIn(c)).value)
  }

  // ---- The run ----

  function StatusIn(env: Envelope): Option<RunStatus> {
    match env.event
    case RunStarted(_, _, _) => Some(Running)
    case RunCompleted(_, _, _) => Some(Succeeded)
    case RunFailed(_, _) => Some(Failed)
    case RunCancelled(_) => Some(Cancelled)
    case _ => None
  }

  function WorkflowIn(env: Envelope): Option<string> {
    match env.event case RunStarted(workflow, _, _) => workflow case _ => None
  }

  function RunTargetIn(env: Envelope): Option<string> {
    match env.event case RunStarted(_, target, _) => target case _ => None
  }

  function AnsweringIn(env: Envelope): Option<string> {
    match env.event
    case RunStarted(_, _, answering) => if env.protocolVersion == 2 then answering else None
    case _ => None
  }

  function BillFreshIn(env: Envelope): Option<string> {
    match env.event case RunCompleted(billed, _, _) => billed case _ => None
  }

  function BillMemoIn(env: Envelope): Option<string> {
    match env.event case RunCompleted(_, memo, _) => memo case _ => None
  }

  function ResultIn(env: Envelope): Option<ResultRef> {
    match env.event case RunCompleted(_, _, result) => if env.protocolVersion == 2 then result else None case _ => None
  }

  function RunMessageIn(env: Envelope): Option<string> {
    match env.event
    case RunFailed(message, _) => message
    case RunCancelled(message) => message
    case _ => None
  }

  function RunClassIn(env: Envelope): Option<string> {
    match env.event
    case RunFailed(_, failure) => failure
    case RunCancelled(_) => Some("cancelled")
    case _ => None
  }

  function TraceIn(env: Envelope): Option<seq<Text>> {
    match env.event case TraceOrdered(ids) => ids case _ => None
  }

  function NewOccurrenceIn(env: Envelope): Option<string> {
    match env.event case OccurrenceStarted(id, _, _, _, _) => id case _ => None
  }

  predicate RunTells(s: Snapshot, run: seq<Envelope>) {
    && s.status == (match Latest(run, StatusIn) case None => Starting case Some(status) => status)
    && s.workflow == Latest(run, WorkflowIn)
    && s.target == Latest(run, RunTargetIn)
    && Shown(s.personAnswering, AnsweringName) == Latest(run, AnsweringIn)
    && s.billFresh == Latest(run, BillFreshIn)
    && s.billMemo == Latest(run, BillMemoIn)
    && s.result == Latest(run, ResultIn)
    && s.failure == Latest(run, RunMessageIn)
    && Shown(s.failureClass, FailureName) == Latest(run, RunClassIn)
    && (if s.traceRecorded then Some(TextsGiven(s.authoredOrder)) else None) == Latest(run, TraceIn)
    && (!s.traceRecorded ==> s.authoredOrder == [])
  }

  /** An occurrence of the table tells its part of the run; of any other nothing was said. */
  ghost predicate MemberTells(occurrences: Table<Occurrence>, id: string, run: seq<Envelope>) {
    var told := Selected(run, About(id));
    if id in occurrences.at then OccurrenceTells(occurrences.at[id], id, told) else told == []
  }

  /** The occurrences in the order of their starts. */
  ghost predicate OccurrencesTell(occurrences: Table<Occurrence>, run: seq<Envelope>) {
    && occurrences.order == Collected(run, NewOccurrenceIn)
    && forall id: string :: MemberTells(occurrences, id, run)
  }

  /** A snapshot is what the envelopes of its run say, field by field. */
  ghost predicate Tells(s: Snapshot, run: seq<Envelope>) {
    RunTells(s, run) && AcksTell(s.controlAcks, run) && OccurrencesTell(s.occurrences, run)
  }
}
