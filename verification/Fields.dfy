/** The field validators of the reducer: pure readings of event fields (ext-pi/src/reducer.ts). */
module Fields {
  import opened Prelude
  import opened Snapshots

  const MAX_OCCURRENCES: nat := 2_048
  const MAX_ATTEMPTS: nat := 512
  const MAX_STEERS: nat := 256
  const MAX_CONTROLS: nat := 256
  const MAX_OPTIONS: nat := 64
  const MAX_HISTORY: nat := 64
  const MAX_MESSAGES: nat := 64
  const MAX_SUMMARIES: nat := 32
  const MAX_TOOLS: nat := 128
  const MAX_TODOS: nat := 128

  function TextOf(field: Text): Result<string> {
    match field
    case None => Refused(BadField)
    case Some(s) => Ok(s)
  }

  function NaturalText(field: Text): Result<string> {
    var s :- TextOf(field);
    if IsDecimal(s) then Ok(s) else Refused(BadField)
  }

  function DecimalText(field: Text, maximum: nat): Result<string> {
    var s :- TextOf(field);
    if IsDecimal(s) && DigitsValue(s) <= maximum then Ok(s) else Refused(BadField)
  }

  function OccurrenceId(field: Text): Result<string> {
    DecimalText(field, MAX_WORD64)
  }

  function AttemptId(occurrence: string, attempt: Text): Result<string> {
    var n :- DecimalText(attempt, MAX_WORD32);
    Ok(occurrence + ":" + n)
  }

  function FailureClassOf(field: Text): Result<FailureClass> {
    var s :- TextOf(field);
    if s == "setup" then Ok(SetupFailure)
    else if s == "transport" then Ok(TransportFailure)
    else if s == "decode" then Ok(DecodeFailure)
    else if s == "protocol" then Ok(ProtocolFailure)
    else if s == "cancelled" then Ok(CancelledFailure)
    else if s == "runtime" then Ok(RuntimeFailure)
    else Refused(BadField)
  }

  function TimingOf(field: Text): Result<Timing> {
    var s :- TextOf(field);
    if s == "interrupt-now" then Ok(InterruptNow)
    else if s == "next-boundary" then Ok(NextBoundary)
    else Refused(BadField)
  }

  function PersonAnsweringOf(field: Text): Result<PersonAnswering> {
    var s :- TextOf(field);
    if s == "engine" then Ok(ByEngine)
    else if s == "local-control" then Ok(ByLocalControl)
    else Refused(BadField)
  }

  // ---- Recovery offers and dispatch targets ----

  function ChoiceNamed(s: string): Option<Choice> {
    if s == "retry" then Some(Retry)
    else if s == "failover" then Some(Failover)
    else if s == "abandon" then Some(Abandon)
    else None
  }

  function OfferOf(raw: Option<RawOffer>): Result<Offer> {
    match raw
    case None => Refused(BadField)
    case Some(r) =>
      var name :- TextOf(r.choice);
      match ChoiceNamed(name)
      case None => Refused(BadField)
      case Some(choice) =>
        if !choice.Failover? && r.target.Some? then Refused(BadField) else Ok(Offer(choice, r.target))
  }

  function OffersOf(raw: seq<Option<RawOffer>>): (r: Result<seq<Offer>>)
    ensures r.Ok? ==> |r.value| == |raw|
  {
    if raw == [] then Ok([])
    else
      var first :- OfferOf(raw[0]);
      var rest :- OffersOf(raw[1..]);
      Ok([first] + rest)
  }

  predicate DistinctChoices(offers: seq<Offer>) {
    forall i, j :: 0 <= i < j < |offers| ==> offers[i].choice != offers[j].choice
  }

  function CheckedOffers(field: Option<seq<Option<RawOffer>>>): Result<seq<Offer>> {
    match field
    case None => Refused(BadField)
    case Some(raw) =>
      if raw == [] then Refused(BadField)
      else if |raw| > MAX_OPTIONS then Refused(LimitExceeded)
      else
        var offers :- OffersOf(raw);
        if DistinctChoices(offers) then Ok(offers) else Refused(Duplicate)
  }

  /** The texts of a list, when every element is text. */
  function TextsOf(raw: seq<Text>): (r: Result<seq<string>>)
    ensures r.Ok? ==> |r.value| == |raw|
  {
    if raw == [] then Ok([])
    else
      var first :- TextOf(raw[0]);
      var rest :- TextsOf(raw[1..]);
      Ok([first] + rest)
  }

  predicate NoRepeats(s: seq<string>) {
    forall i, j :: 0 <= i < j < |s| ==> s[i] != s[j]
  }

  function DistinctTexts(field: Option<seq<Text>>): (r: Result<seq<string>>)
    ensures r.Ok? ==> Distinct(r.value)
  {
    match field
    case None => Refused(BadField)
    case Some(raw) =>
      var texts :- TextsOf(raw);
      if NoRepeats(texts) then Ok(texts) else Refused(BadField)
  }

  function DispatchTargets(field: Option<seq<Text>>): Result<seq<string>> {
    var targets :- DistinctTexts(field);
    if targets == [] then Refused(BadField)
    else if |targets| > MAX_OPTIONS then Refused(LimitExceeded)
    else Ok(targets)
  }

  // ---- Progress ----

  function BoundedText(field: Text, maximum: nat): Result<string> {
    var s :- TextOf(field);
    if s == "" || |s| > maximum then Refused(BadField) else Ok(s)
  }

  function OptionalText(field: Optional<Text>, maximum: nat): Result<Option<string>> {
    match field
    case Undefined => Ok(None)
    case Given(text) => var s :- BoundedText(text, maximum); Ok(Some(s))
  }

  function OptionalStatus(field: Optional<Text>): Result<Option<ToolStatus>> {
    match field
    case Undefined => Ok(None)
    case Given(text) =>
      var s :- TextOf(text);
      if s == "pending" then Ok(Some(ToolPending))
      else if s == "in_progress" then Ok(Some(ToolInProgress))
      else if s == "completed" then Ok(Some(ToolCompleted))
      else if s == "failed" then Ok(Some(ToolFailed))
      else if s == "cancelled" then Ok(Some(ToolCancelled))
      else Refused(BadField)
  }

  function Or<T>(update: Option<T>, previous: Option<T>): Option<T> {
    if update.Some? then update else previous
  }

  /** A tool record after an update: given fields replace, absent fields keep their previous value. */
  function UpdatedTool(tools: Table<Tool>, update: ToolUpdate): Result<Tool> {
    var id :- TextOf(update.id);
    var _ :- Require(id in tools.at || |tools.order| < MAX_TOOLS, LimitExceeded);
    var title :- OptionalText(update.title, 1024);
    var toolKind :- OptionalText(update.toolKind, 128);
    var status :- OptionalStatus(update.status);
    var summary :- OptionalText(update.summary, 4096);
    var previous := if id in tools.at then tools.at[id] else Tool(id, None, None, None, None);
    Ok(Tool(id, Or(title, previous.title), Or(toolKind, previous.toolKind), Or(status, previous.status),
            Or(summary, previous.summary)))
  }

  function TodoOf(raw: Option<RawTodo>): Result<Todo> {
    match raw
    case None => Refused(BadField)
    case Some(item) =>
      var priority :- TextOf(item.priority);
      var status :- TextOf(item.status);
      var p :- if priority == "high" then Ok(High) else if priority == "medium" then Ok(Medium)
               else if priority == "low" then Ok(Low) else Refused(BadField);
      var s :- if status == "pending" then Ok(TodoPending) else if status == "in_progress" then Ok(TodoInProgress)
               else if status == "completed" then Ok(TodoCompleted) else Refused(BadField);
      var content :- BoundedText(item.content, 1024);
      Ok(Todo(content, p, s))
  }

  function TodosOf(raw: seq<Option<RawTodo>>): (r: Result<seq<Todo>>)
    ensures r.Ok? ==> |r.value| == |raw|
  {
    if raw == [] then Ok([])
    else
      var first :- TodoOf(raw[0]);
      var rest :- TodosOf(raw[1..]);
      Ok([first] + rest)
  }

  /** A usage record that lies inside its context window. */
  predicate InsideWindow(usage: Usage) {
    && IsDecimal(usage.used) && IsDecimal(usage.size)
    && 0 < DigitsValue(usage.size) && DigitsValue(usage.used) <= DigitsValue(usage.size)
  }

  function UsageOf(raw: RawUsage): (r: Result<Usage>)
    ensures r.Ok? ==> InsideWindow(r.value)
  {
    var used :- NaturalText(raw.used);
    var size :- NaturalText(raw.size);
    if InsideWindow(Usage(used, size)) then Ok(Usage(used, size)) else Refused(BadField)
  }

  // ---- Control acknowledgements ----

  function AckStateOf(field: Text): Result<AckState> {
    var s :- TextOf(field);
    if s == "accepted" then Ok(AckAccepted)
    else if s == "queued" then Ok(AckQueued)
    else if s == "delivered" then Ok(AckDelivered)
    else if s == "rejected-stale" then Ok(AckRejectedStale)
    else if s == "unsupported" then Ok(AckUnsupported)
    else if s == "failed" then Ok(AckFailed)
    else Refused(BadField)
  }

  function CommandOf(field: Text): Result<Command> {
    var s :- TextOf(field);
    if s == "cancelRun" then Ok(CancelCommand)
    else if s == "steerOccurrence" then Ok(SteerCommand)
    else if s == "retryOccurrence" then Ok(RetryCommand)
    else if s == "failoverOccurrence" then Ok(FailoverCommand)
    else if s == "abandonOccurrence" then Ok(AbandonCommand)
    else if s == "redirectOccurrence" then Ok(RedirectCommand)
    else if s == "answerPerson" then Ok(AnswerPerson)
    else if s == "invalid" then Ok(InvalidCommand)
    else Refused(BadField)
  }

  function ReferencedOccurrence(field: Optional<Text>): Result<Option<string>> {
    match field
    case Undefined => Ok(None)
    case Given(text) => var id :- OccurrenceId(text); Ok(Some(id))
  }

  function ReferencedAttempt(field: Optional<Option<AttemptReference>>): Result<Option<string>> {
    match field
    case Undefined => Ok(None)
    case Given(None) => Refused(BadField)
    case Given(Some(reference)) =>
      var occurrence :- OccurrenceId(reference.occurrenceId);
      var id :- AttemptId(occurrence, reference.attemptNumber);
      Ok(Some(id))
  }

  /** The acknowledgement record that an event spells out. Version 1 records carry no correlation. */
  function AckOf(e: Event, protocolVersion: int): Result<ControlAck>
    requires e.ControlAcknowledged?
  {
    var controlId :- TextOf(e.controlId);
    var state :- AckStateOf(e.state);
    if protocolVersion == 2 then
      var command :- CommandOf(e.command);
      var occurrence :- ReferencedOccurrence(e.occurrenceRef);
      var attempt :- ReferencedAttempt(e.attemptRef);
      var message :- TextOf(e.message);
      Ok(ControlAck(controlId, state, message, Some(command), occurrence, attempt))
    else
      var message :- TextOf(e.message);
      Ok(ControlAck(controlId, state, message, None, None, None))
  }
}
