/** The run snapshot and the runtime envelopes that it is folded from (ext-pi/src/types.ts). */
module Snapshots {
  import opened Prelude

  /** The most bytes that are read of a snapshot or of a result artifact. */
  const MAX_SNAPSHOT_FILE: nat := 64 * 1024 * 1024

  // ---- Snapshots ----

  datatype RunStatus = Starting | Running | Cancelling | Succeeded | Failed | Cancelled | Orphaned

  predicate IsTerminal(status: RunStatus) {
    status.Succeeded? || status.Failed? || status.Cancelled? || status.Orphaned?
  }

  datatype OccurrenceState = OccRunning | OccRecovering | OccReused | OccCompleted | OccFailed | OccCancelled

  datatype AttemptState = AttRunning | AttCompleted | AttFailed

  datatype FailureClass =
    | SetupFailure | TransportFailure | DecodeFailure | ProtocolFailure | CancelledFailure | RuntimeFailure
    // The classes below are written by the supervisor, never by an event.
    | SupervisorFailure | ForcedTermination | MissingTerminalEvent | LostOwnership | CorruptStore | UnknownFailure

  datatype Choice = Retry | Failover | Abandon

  datatype Timing = InterruptNow | NextBoundary

  datatype Steer = Steer(controlId: string, timing: Timing, text: string)

  datatype ToolStatus = ToolPending | ToolInProgress | ToolCompleted | ToolFailed | ToolCancelled

  datatype Tool = Tool(id: string, title: Option<string>, toolKind: Option<string>, status: Option<ToolStatus>,
                       summary: Option<string>)

  datatype Priority = High | Medium | Low

  datatype TodoStatus = TodoPending | TodoInProgress | TodoCompleted

  datatype Todo = Todo(content: string, priority: Priority, status: TodoStatus)

  datatype Usage = Usage(used: string, size: string)

  datatype Attempt = Attempt(
    id: string, target: string, state: AttemptState, output: string, steers: seq<Steer>,
    messages: seq<string>, tools: Table<Tool>, todos: seq<Todo>, usage: Option<Usage>,
    reasoning: seq<string>, failure: Option<string>, failureClass: Option<FailureClass>)

  datatype Redirect = Redirect(controlId: string, target: string, stoppedAttempt: Option<string>)

  datatype Dispatch = Dispatch(targets: seq<string>, open: bool, redirect: Option<Redirect>)

  datatype Offer = Offer(choice: Choice, target: Option<string>)

  datatype Chosen = Chosen(controlId: string, offer: Offer)

  datatype Recovery = Recovery(gap: string, message: string, retries: seq<string>, choices: seq<Offer>,
                               chosen: Option<Chosen>)

  /** A reference to a question artifact, already checked by the flat field validation. */
  datatype QuestionRef = QuestionRef(path: string, sha256: string, bytes: string)

  /**
   What JSON.parse gives, with the own properties of an object in their order. A number is given by the text with which
   JSON.stringify shows it: that tells doubles apart, but for the two zeros and for the infinities, which are shown as
   null.
   */
  datatype Value =
    | JNull
    | JBool(bool)
    | JText(text: string)
    | JNum(shown: string)
    | JArr(items: seq<Value>)
    | JObj(members: seq<Named<Value>>)

  /** A reference to a result artifact; its code may be any JSON value. */
  datatype ResultRef = ResultRef(path: string, sha256: string, bytes: string, code: Value, preview: string)

  datatype Occurrence = Occurrence(
    id: string, state: OccurrenceState, code: string, intent: string, addressee: string, prompt: string,
    answer: Option<string>, dispatch: Option<Dispatch>, recovery: Option<Recovery>, reuseKind: Option<string>,
    source: Option<string>, failureClass: Option<FailureClass>, replayable: bool,
    personQuestion: Option<QuestionRef>, personPending: Option<bool>, attempts: Table<Attempt>)

  datatype AckState = AckAccepted | AckQueued | AckDelivered | AckRejectedStale | AckUnsupported | AckFailed

  datatype Command =
    | CancelCommand | SteerCommand | RetryCommand | FailoverCommand | AbandonCommand
    | RedirectCommand | AnswerPerson | InvalidCommand

  datatype ControlAck = ControlAck(
    controlId: string, state: AckState, message: string,
    command: Option<Command>, occurrenceId: Option<string>, attemptId: Option<string>)

  datatype PersonAnswering = ByEngine | ByLocalControl

  datatype Snapshot = Snapshot(
    runId: string, status: RunStatus, protocolVersion: Option<int>, lastSequence: Option<nat>,
    workflow: Option<string>, target: Option<string>, personAnswering: Option<PersonAnswering>,
    occurrences: Table<Occurrence>, authoredOrder: seq<string>, traceRecorded: bool,
    eventDigests: map<string, Envelope>, controlAcks: Table<ControlAck>,
    billFresh: Option<string>, billMemo: Option<string>, result: Option<ResultRef>,
    failure: Option<string>, failureClass: Option<FailureClass>)

  /** SHA-256 is taken to be injective, so the digest of an envelope is the envelope. */
  function Digest(envelope: Envelope): Envelope { envelope }

  // ---- Events ----

  /** A field that must be text; `None` stands for every value that is not. */
  type Text = Option<string>

  /** A field that may be absent. */
  datatype Optional<+T> = Undefined | Given(field: T)

  datatype RawOffer = RawOffer(choice: Text, target: Option<string>)

  datatype ToolUpdate = ToolUpdate(id: Text, title: Optional<Text>, toolKind: Optional<Text>, status: Optional<Text>,
                                   summary: Optional<Text>)

  datatype RawTodo = RawTodo(content: Text, priority: Text, status: Text)

  datatype RawUsage = RawUsage(used: Text, size: Text)

  /** Progress records; `None` stands for a part that is not an object or not an array. */
  datatype Progress =
    | MessageProgress(text: Text)
    | ReasoningProgress(text: Text)
    | ToolProgress(tool: Option<ToolUpdate>)
    | TodosProgress(items: Option<seq<Option<RawTodo>>>)
    | UsageProgress(usage: Option<RawUsage>)
    | NotProgress

  datatype AttemptReference = AttemptReference(occurrenceId: Text, attemptNumber: Text)

  /** Events by type. A control identifier is `None` when it is not text of the identifier grammar. */
  datatype Event =
    | RunStarted(workflow: Text, target: Text, personAnswering: Text)
    | OccurrenceStarted(occurrenceId: Text, code: Text, intent: Text, addressee: Text, prompt: Text)
    | AttemptStarted(occurrenceId: Text, attempt: Text, target: Text)
    | AttemptOutput(occurrenceId: Text, attempt: Text, chunk: Text)
    | AttemptProgress(occurrenceId: Text, attempt: Text, progress: Progress)
    | AttemptSteered(occurrenceId: Text, attempt: Text, timing: Text, controlId: Text, text: Text)
    | AttemptCompleted(occurrenceId: Text, attempt: Text)
    | AttemptFailed(occurrenceId: Text, attempt: Text, message: Text, failure: Text)
    | RecoveryChosen(occurrenceId: Text, choice: Text, target: Option<string>, controlId: Text)
    | OccurrenceReused(occurrenceId: Text, answerGroup: Text)
    | RecoveryPending(occurrenceId: Text, choices: Option<seq<Option<RawOffer>>>, gap: Text, message: Text)
    | OccurrenceRetried(occurrenceId: Text, controlId: Text)
    | DispatchPending(occurrenceId: Text, targets: Option<seq<Text>>)
    | OccurrenceRedirected(occurrenceId: Text, target: Text, controlId: Text)
    | PersonAnswerPending(occurrenceId: Text, question: Option<QuestionRef>)
    | OccurrenceCompleted(occurrenceId: Text, source: Text, answer: Text)
    | OccurrenceFailed(occurrenceId: Text, message: Text, failure: Text)
    | TraceOrdered(occurrenceIds: Option<seq<Text>>)
    | ControlAcknowledged(controlId: Text, state: Text, command: Text, occurrenceRef: Optional<Text>,
                          attemptRef: Optional<Option<AttemptReference>>, message: Text)
    | RunCompleted(billFresh: Text, billMemo: Text, result: Option<ResultRef>)
    | RunFailed(message: Text, failure: Text)
    | RunCancelled(message: Text)
    | UnknownEventType(name: string)

  datatype Envelope = Envelope(protocolVersion: int, runId: string, sequence: string, timestampCanonical: bool,
                               event: Event)
}
