/**
 Over every accepted run, the snapshot says field by field what the envelopes said: nothing is swapped, lost or made up.
 */
module RunHistory {
  import opened Prelude
  import opened Snapshots
  import opened Fields
  import opened Reducer
  import opened History
  import Lifecycle
  import OutputTail

  // ---- Attempts ----

  lemma OutcomeStep(a: Attempt, story: seq<Envelope>, env: Envelope, steers: nat)
    requires OutcomeTells(a, story) && IsAttemptEvent(env.event) && ApplyAttempt(a, env.event, steers).Ok?
    ensures OutcomeTells(ApplyAttempt(a, env.event, steers).value, story + [env])
  {
    hide OutputTail.TailOf, Latest, Collected, ApplyProgress, Concat;
    var b := ApplyAttempt(a, env.event, steers).value;
    LatestNext(story, env, TargetIn);
    LatestNext(story, env, AttemptStateIn);
    LatestNext(story, env, AttemptMessageIn);
    LatestNext(story, env, AttemptClassIn);
    CollectedNext(story, env, ChunkIn);
    CollectedNext(story, env, SteerIn);
    if env.event.AttemptProgress? { ProgressLeavesOutcome(a, env.event.progress); }
    if env.event.AttemptOutput? { OutputGrows(Collected(story, ChunkIn), env.event.chunk.value); }
    if env.event.AttemptSteered? {
      assert SteersGiven(b.steers) == SteersGiven(a.steers) + [SteerIn(env).value];
    } else {
      assert b.steers == a.steers;
    }
  }

  lemma OutputGrows(chunks: seq<string>, chunk: string)
    ensures OutputTail.TailOf(OutputTail.TailOf(Concat(chunks)) + chunk) == OutputTail.TailOf(Concat(chunks + [chunk]))
  {
    hide OutputTail.TailOf;
    assert (chunks + [chunk])[..|chunks + [chunk]| - 1] == chunks;
    OutputTail.TailAppend(Concat(chunks), chunk);
  }

  lemma ProgressLeavesOutcome(a: Attempt, progress: Progress)
    requires ApplyProgress(a, progress).Ok?
    ensures var b := ApplyProgress(a, progress).value;
            b == a.(messages := b.messages, reasoning := b.reasoning, tools := b.tools, todos := b.todos,
                    usage := b.usage)
  {
    hide UpdatedTool, TodosOf, UsageOf, BoundedText;
  }

  lemma LastOfNext<T>(some: seq<T>, all: seq<T>, x: T, maximum: nat)
    requires maximum > 0 && IsLastOf(some, all, maximum)
    ensures IsLastOf(if |some| + 1 > maximum then (some + [x])[|some| + 1 - maximum..] else some + [x], all + [x],
                     maximum)
  {
  }

  lemma TextTells(field: Text, maximum: nat)
    requires BoundedText(field, maximum).Ok?
    ensures field == Some(BoundedText(field, maximum).value)
  {
  }

  lemma ProgressStep(a: Attempt, story: seq<Envelope>, env: Envelope)
    requires ProgressTells(a, story) && env.event.AttemptProgress? && ApplyProgress(a, env.event.progress).Ok?
    ensures ProgressTells(ApplyProgress(a, env.event.progress).value, story + [env])
  {
    hide Latest, Collected, UpdatedTool, TodosOf, UsageOf, BoundedText, IsLastOf, ToolsTell;
    LatestNext(story, env, TodosIn);
    LatestNext(story, env, UsageIn);
    CollectedNext(story, env, MessageIn);
    CollectedNext(story, env, ReasoningIn);
    match env.event.progress
    case MessageProgress(text) =>
      TextTells(text, 4096);
      LastOfNext(a.messages, Collected(story, MessageIn), text.value, 64);
      ToolsUntouched(a.tools, story, env);
    case ReasoningProgress(text) =>
      TextTells(text, 4096);
      LastOfNext(a.reasoning, Collected(story, ReasoningIn), text.value, 32);
      ToolsUntouched(a.tools, story, env);
    case ToolProgress(tool) => ToolStep(a.tools, story, env);
    case TodosProgress(items) =>
      TodosAre(items.value);
      ToolsUntouched(a.tools, story, env);
    case UsageProgress(usage) =>
      UsageIs(usage.value);
      ToolsUntouched(a.tools, story, env);
    case NotProgress =>
  }

  lemma {:induction false} TodosAre(items: seq<Option<RawTodo>>)
    requires TodosOf(items).Ok?
    ensures TodosGiven(TodosOf(items).value) == items
  {
    if items != [] {
      TodosAre(items[1..]);
      var rest := TodosOf(items[1..]).value;
      assert TodosOf(items).value == [TodoOf(items[0]).value] + rest;
      TodoIs(items[0]);
      assert TodosGiven(TodosOf(items).value)[1..] == TodosGiven(rest);
      assert items == [items[0]] + items[1..];
    }
  }

  lemma TodoIs(raw: Option<RawTodo>)
    requires TodoOf(raw).Ok?
    ensures var todo := TodoOf(raw).value;
            raw == Some(RawTodo(Some(todo.content), Some(PriorityName(todo.priority)),
                                Some(TodoStatusName(todo.status))))
  {
  }

  lemma UsageIs(raw: RawUsage)
    requires UsageOf(raw).Ok?
    ensures UsageGiven(Some(UsageOf(raw).value)) == Some(raw)
  {
    hide IsDecimal, DigitsValue;
  }

  lemma ToolsUntouched(tools: Table<Tool>, story: seq<Envelope>, env: Envelope)
    requires ToolsTell(tools, story) && ToolUpdateIn(env).None?
    ensures ToolsTell(tools, story + [env])
  {
    hide Latest, FirstMentions;
    FirstMentionsNext(story, env, ToolIn);
    forall key | key in tools.at
      ensures ToolTells(tools.at[key], key, story + [env])
    {
      ToolUntouched(tools.at[key], key, story, env);
    }
  }

  /** An update says nothing of other tools. */
  lemma ToolUntouched(tool: Tool, key: string, story: seq<Envelope>, env: Envelope)
    requires ToolTells(tool, key, story) && ToolIn(env) != Some(key)
    ensures ToolTells(tool, key, story + [env])
  {
    hide Latest;
    LatestNext(story, env, ToolFieldIn(key, TitleOf));
    LatestNext(story, env, ToolFieldIn(key, KindOf));
    LatestNext(story, env, ToolFieldIn(key, StatusOf));
    LatestNext(story, env, ToolFieldIn(key, SummaryOf));
  }

  lemma OptionalTells(field: Optional<Text>, maximum: nat)
    requires OptionalText(field, maximum).Ok?
    ensures OptionalText(field, maximum).value == match field case Undefined => None case Given(text) => text
  {
  }

  lemma StatusTells(field: Optional<Text>)
    requires OptionalStatus(field).Ok?
    ensures Shown(OptionalStatus(field).value, ToolStatusName)
            == match field case Undefined => None case Given(text) => text
  {
  }

  lemma ToolUpdated(tools: Table<Tool>, story: seq<Envelope>, env: Envelope)
    requires ToolsTell(tools, story) && ToolUpdateIn(env).Some? && UpdatedTool(tools, ToolUpdateIn(env).value).Ok?
    requires var id := ToolUpdateIn(env).value.id; id.Some? && (id.value !in tools.at ==> NothingSaid(id.value, story))
    ensures var tool := UpdatedTool(tools, ToolUpdateIn(env).value).value;
            ToolIn(env) == Some(tool.id) && ToolTells(tool, tool.id, story + [env])
  {
    hide Latest, OptionalText, OptionalStatus, FirstMentions;
    var update := ToolUpdateIn(env).value;
    var key := update.id.value;
    var previous := if key in tools.at then tools.at[key] else Tool(key, None, None, None, None);
    assert ToolTells(previous, key, story);
    LatestNext(story, env, ToolFieldIn(key, TitleOf));
    LatestNext(story, env, ToolFieldIn(key, KindOf));
    LatestNext(story, env, ToolFieldIn(key, StatusOf));
    LatestNext(story, env, ToolFieldIn(key, SummaryOf));
    OptionalTells(update.title, 1024);
    OptionalTells(update.toolKind, 128);
    StatusTells(update.status);
    OptionalTells(update.summary, 4096);
  }

  predicate NothingSaid(key: string, story: seq<Envelope>) { ToolTells(Tool(key, None, None, None, None), key, story) }

  lemma {:induction false} UnmentionedTool(key: string, story: seq<Envelope>)
    requires key !in FirstMentions(story, ToolIn)
    ensures NothingSaid(key, story)
  {
    if story != [] {
      var before, last := story[..|story| - 1], story[|story| - 1];
      UnmentionedTool(key, before);
      assert story == before + [last];
      ToolUntouched(Tool(key, None, None, None, None), key, before, last);
    }
  }

  lemma ToolStep(tools: Table<Tool>, story: seq<Envelope>, env: Envelope)
    requires ToolsTell(tools, story) && ToolUpdateIn(env).Some? && UpdatedTool(tools, ToolUpdateIn(env).value).Ok?
    ensures var tool := UpdatedTool(tools, ToolUpdateIn(env).value).value;
            ToolsTell(Put(tools, tool.id, tool), story + [env])
  {
    hide UpdatedTool, FirstMentions, ToolTells, NothingSaid;
    var update := ToolUpdateIn(env).value;
    UpdateNames(tools, update);
    if update.id.value !in tools.at { UnmentionedTool(update.id.value, story); }
    ToolUpdated(tools, story, env);
    FirstMentionsNext(story, env, ToolIn);
    var tool := UpdatedTool(tools, update).value;
    forall key | key in Put(tools, tool.id, tool).at
      ensures ToolTells(Put(tools, tool.id, tool).at[key], key, story + [env])
    {
      if key != tool.id { ToolUntouched(tools.at[key], key, story, env); }
    }
  }

  lemma UpdateNames(tools: Table<Tool>, update: ToolUpdate)
    requires UpdatedTool(tools, update).Ok?
    ensures update.id == Some(UpdatedTool(tools, update).value.id)
  {
    hide OptionalText, OptionalStatus;
  }

  lemma OtherProgress(a: Attempt, story: seq<Envelope>, env: Envelope)
    requires ProgressTells(a, story) && !env.event.AttemptProgress?
    ensures ProgressTells(a, story + [env])
  {
    hide Latest, Collected, IsLastOf, ToolsTell;
    LatestNext(story, env, TodosIn);
    LatestNext(story, env, UsageIn);
    CollectedNext(story, env, MessageIn);
    CollectedNext(story, env, ReasoningIn);
    ToolsUntouched(a.tools, story, env);
  }

  /** An event on a running attempt: it then tells one envelope more. */
  lemma AttemptStep(a: Attempt, key: string, story: seq<Envelope>, env: Envelope, steers: nat)
    requires AttemptTells(a, key, story) && IsAttemptEvent(env.event) && ApplyAttempt(a, env.event, steers).Ok?
    ensures AttemptTells(ApplyAttempt(a, env.event, steers).value, key, story + [env])
  {
    hide OutcomeTells, ProgressTells, ApplyProgress;
    OutcomeStep(a, story, env, steers);
    var b := ApplyAttempt(a, env.event, steers).value;
    if env.event.AttemptProgress? {
      ProgressStep(a, story, env);
      ProgressLeavesOutcome(a, env.event.progress);
    } else {
      OtherProgress(a, story, env);
      SameProgress(a, b, story + [env]);
    }
  }

  lemma SameProgress(a: Attempt, b: Attempt, story: seq<Envelope>)
    requires ProgressTells(a, story)
    requires b.messages == a.messages && b.reasoning == a.reasoning && b.tools == a.tools && b.todos == a.todos
             && b.usage == a.usage
    ensures ProgressTells(b, story)
  {
  }

  lemma NewAttemptTells(key: string, target: string, env: Envelope)
    requires env.event.AttemptStarted? && env.event.target == Some(target)
    ensures AttemptTells(NewAttempt(key, target), key, [env])
  {
    hide Latest, Collected, OutputTail.TailOf, ProgressTells;
    LatestNext([], env, TargetIn);
    LatestNext([], env, AttemptStateIn);
    LatestNext([], env, AttemptMessageIn);
    LatestNext([], env, AttemptClassIn);
    CollectedNext([], env, ChunkIn);
    CollectedNext([], env, SteerIn);
    NothingTold(key, target);
    OtherProgress(NewAttempt(key, target), [], env);
    assert [] + [env] == [env];
  }

  lemma NothingTold(key: string, target: string)
    ensures ProgressTells(NewAttempt(key, target), [])
    ensures Latest([], AttemptMessageIn) == None && Latest([], AttemptClassIn) == None
    ensures Collected([], ChunkIn) == [] && Collected([], SteerIn) == [] && OutputTail.TailOf(Concat([])) == ""
  {
    hide OutputTail.TailOf, ToolsTell, TodosGiven, MessageIn, ReasoningIn, TodosIn, UsageIn, ChunkIn, SteerIn,
         AttemptMessageIn, AttemptClassIn;
    NothingOutput();
    NoTodoTold();
    NoToolTold();
  }

  lemma NoTodoTold()
    ensures TodosGiven([]) == []
  {
  }

  lemma NoToolTold()
    ensures ToolsTell(EmptyTable(), [])
  {
    hide ToolTells, ToolIn;
  }

  lemma NothingOutput()
    ensures OutputTail.TailOf("") == ""
  {
  }

  // ---- Occurrences ----

  lemma StartStep(o: Occurrence, story: seq<Envelope>, env: Envelope, p: Occurrence)
    requires StartTells(o, story) && !env.event.OccurrenceStarted?
    requires p.code == o.code && p.intent == o.intent && p.addressee == o.addressee && p.prompt == o.prompt
    ensures StartTells(p, story + [env])
  {
    hide Latest;
    LatestNext(story, env, CodeIn);
    LatestNext(story, env, IntentIn);
    LatestNext(story, env, AddresseeIn);
    LatestNext(story, env, PromptIn);
  }

  /** What an accepted event writes into an occurrence, apart from its attempts, its recovery and its dispatch. */
  lemma OccurrenceWrites(id: string, o: Occurrence, e: Event, attempts: nat, steers: nat)
    requires IsOccurrenceEvent(e) && ApplyOccurrence(id, o, e, attempts, steers).Ok?
    ensures var p := ApplyOccurrence(id, o, e, attempts, steers).value;
            && p == o.(state := p.state, answer := p.answer, source := p.source, failureClass := p.failureClass,
                       reuseKind := p.reuseKind, replayable := p.replayable, personQuestion := p.personQuestion,
                       personPending := p.personPending, recovery := p.recovery, dispatch := p.dispatch,
                       attempts := p.attempts)
  {
    hide ApplyAttempt, AttemptId, CheckedOffers, DispatchTargets, FirstRunning, HasRunningAttempt, FailureClassOf,
         NewAttempt;
  }

  lemma EndStep(id: string, o: Occurrence, story: seq<Envelope>, env: Envelope, attempts: nat, steers: nat)
    requires EndTells(o, story) && (o.state.OccReused? <==> o.reuseKind.Some?)
    requires IsOccurrenceEvent(env.event) && ApplyOccurrence(id, o, env.event, attempts, steers).Ok?
    ensures EndTells(ApplyOccurrence(id, o, env.event, attempts, steers).value, story + [env])
  {
    hide Latest, Reuse, CompleteOccurrence, FailOccurrence, EndTells;
    match env.event
    case OccurrenceReused(_, _) => ReuseEndStep(o, story, env);
    case OccurrenceCompleted(_, _, _) => CompletedEndStep(o, story, env);
    case OccurrenceFailed(_, _, _) => FailedEndStep(o, story, env);
    case _ => OtherEndStep(id, o, story, env, attempts, steers);
  }

  lemma EndReadsNext(story: seq<Envelope>, env: Envelope)
    ensures Latest(story + [env], StateIn) == if StateIn(env).Some? then StateIn(env) else Latest(story, StateIn)
    ensures Latest(story + [env], AnswerIn) == if AnswerIn(env).Some? then AnswerIn(env) else Latest(story, AnswerIn)
    ensures Latest(story + [env], SourceIn) == if SourceIn(env).Some? then SourceIn(env) else Latest(story, SourceIn)
    ensures Latest(story + [env], ClassIn) == if ClassIn(env).Some? then ClassIn(env) else Latest(story, ClassIn)
    ensures Latest(story + [env], ReuseIn) == if ReuseIn(env).Some? then ReuseIn(env) else Latest(story, ReuseIn)
  {
    hide Latest;
    LatestNext(story, env, StateIn);
    LatestNext(story, env, AnswerIn);
    LatestNext(story, env, SourceIn);
    LatestNext(story, env, ClassIn);
    LatestNext(story, env, ReuseIn);
  }

  lemma ReuseEndStep(o: Occurrence, story: seq<Envelope>, env: Envelope)
    requires EndTells(o, story) && env.event.OccurrenceReused? && Reuse(o, env.event.answerGroup).Ok?
    ensures EndTells(Reuse(o, env.event.answerGroup).value, story + [env])
  {
    hide Latest, HasRunningAttempt, FailureName;
    EndReadsNext(story, env);
  }

  lemma CompletedEndStep(o: Occurrence, story: seq<Envelope>, env: Envelope)
    requires EndTells(o, story) && (o.state.OccReused? <==> o.reuseKind.Some?) && env.event.OccurrenceCompleted?
    requires CompleteOccurrence(o, env.event.source, env.event.answer).Ok?
    ensures EndTells(CompleteOccurrence(o, env.event.source, env.event.answer).value, story + [env])
  {
    hide Latest, HasRunningAttempt, FailureName;
    EndReadsNext(story, env);
  }

  lemma FailedEndStep(o: Occurrence, story: seq<Envelope>, env: Envelope)
    requires EndTells(o, story) && env.event.OccurrenceFailed?
    requires FailOccurrence(o, env.event.message, env.event.failure).Ok?
    ensures EndTells(FailOccurrence(o, env.event.message, env.event.failure).value, story + [env])
  {
    hide Latest, HasRunningAttempt, FailureClassOf;
    EndReadsNext(story, env);
    FailureIs(env.event.failure);
  }

  lemma OtherEndStep(id: string, o: Occurrence, story: seq<Envelope>, env: Envelope, attempts: nat, steers: nat)
    requires EndTells(o, story) && (o.state.OccReused? <==> o.reuseKind.Some?)
    requires IsOccurrenceEvent(env.event) && ApplyOccurrence(id, o, env.event, attempts, steers).Ok?
    requires !env.event.OccurrenceReused? && !env.event.OccurrenceCompleted? && !env.event.OccurrenceFailed?
    ensures EndTells(ApplyOccurrence(id, o, env.event, attempts, steers).value, story + [env])
  {
    hide Latest, ApplyOccurrence, FailureName;
    OtherKeepsEnd(id, o, env.event, attempts, steers);
    EndReadsNext(story, env);
  }

  lemma OtherKeepsEnd(id: string, o: Occurrence, e: Event, attempts: nat, steers: nat)
    requires IsOccurrenceEvent(e) && ApplyOccurrence(id, o, e, attempts, steers).Ok?
    requires !e.OccurrenceReused? && !e.OccurrenceCompleted? && !e.OccurrenceFailed?
    ensures var p := ApplyOccurrence(id, o, e, attempts, steers).value;
            && p.answer == o.answer && p.source == o.source && p.failureClass == o.failureClass
            && p.reuseKind == o.reuseKind
            && p.state == (if e.RecoveryPending? then OccRecovering
                           else if e.OccurrenceRetried? then OccRunning
                           else o.state)
            && (e.RecoveryPending? ==> o.state.OccRunning?) && (e.OccurrenceRetried? ==> o.state.OccRecovering?)
  {
    hide ApplyAttempt, AttemptId, CheckedOffers, DispatchTargets, FirstRunning, HasRunningAttempt, NewAttempt,
         FailureClassOf, Reuse, CompleteOccurrence, FailOccurrence;
  }

  lemma PersonStep(id: string, o: Occurrence, story: seq<Envelope>, env: Envelope, attempts: nat, steers: nat)
    requires PersonTells(o, story) && IsOccurrenceEvent(env.event)
             && ApplyOccurrence(id, o, env.event, attempts, steers).Ok?
    ensures PersonTells(ApplyOccurrence(id, o, env.event, attempts, steers).value, story + [env])
  {
    hide Latest, Collected, ApplyAttempt, AttemptId, CheckedOffers, DispatchTargets, FirstRunning, HasRunningAttempt,
         NewAttempt,
         FailureClassOf;
    LatestNext(story, env, QuestionIn);
    LatestNext(story, env, PendingIn);
    CollectedNext(story, env, SteerIn);
  }

  // ---- Recovery ----

  lemma {:induction false} OffersAre(raw: seq<Option<RawOffer>>)
    requires OffersOf(raw).Ok?
    ensures OffersGiven(OffersOf(raw).value) == raw
  {
    if raw != [] {
      OffersAre(raw[1..]);
      var rest := OffersOf(raw[1..]).value;
      assert OffersOf(raw).value == [OfferOf(raw[0]).value] + rest;
      OfferIs(raw[0]);
      assert OffersGiven(OffersOf(raw).value)[1..] == OffersGiven(rest);
      assert raw == [raw[0]] + raw[1..];
    }
  }

  lemma OfferIs(raw: Option<RawOffer>)
    requires OfferOf(raw).Ok?
    ensures var offer := OfferOf(raw).value; raw == Some(RawOffer(Some(ChoiceName(offer.choice)), offer.target))
  {
  }

  lemma CheckedOffersAre(field: Option<seq<Option<RawOffer>>>)
    requires CheckedOffers(field).Ok?
    ensures field == Some(OffersGiven(CheckedOffers(field).value))
  {
    hide OffersOf;
    OffersAre(field.value);
  }

  lemma RecoveryStep(id: string, o: Occurrence, story: seq<Envelope>, env: Envelope, attempts: nat, steers: nat)
    requires RecoveryTells(o.recovery, story)
    requires IsOccurrenceEvent(env.event) && ApplyOccurrence(id, o, env.event, attempts, steers).Ok?
    ensures RecoveryTells(ApplyOccurrence(id, o, env.event, attempts, steers).value.recovery, story + [env])
  {
    hide Latest, Collected, Since, ApplyAttempt, AttemptId, CheckedOffers, DispatchTargets, FirstRunning,
         HasRunningAttempt,
         NewAttempt, FailureClassOf;
    var since := Since(story, IsOfferEvent);
    LatestNext(story, env, GapIn);
    LatestNext(story, env, RecoveryMessageIn);
    LatestNext(story, env, OffersIn);
    SinceNext(story, env, IsOfferEvent);
    LatestNext(since, env, ChoiceIn);
    CollectedNext(since, env, RetryIn);
    if env.event.RecoveryPending? {
      CheckedOffersAre(env.event.choices);
      NothingSince(env);
    } else if env.event.RecoveryChosen? {
      ChoiceIs(env.event.choice.value);
    }
  }

  lemma ChoiceIs(name: string)
    requires ChoiceNamed(name).Some?
    ensures name == ChoiceName(ChoiceNamed(name).value)
  {
  }

  lemma NothingSince(env: Envelope)
    requires env.event.RecoveryPending?
    ensures Latest([env], ChoiceIn) == None && Collected([env], RetryIn) == []
  {
    assert [env][..0] == [];
  }

  // ---- Attempts of an occurrence ----

  lemma KeyOfAttempt(id: string, e: Event)
    requires IsAttemptEvent(e) || e.AttemptStarted?
    requires AttemptId(id, e.attempt).Ok?
    ensures AttemptOf(id, e) == Some(AttemptId(id, e.attempt).value)
  {
    hide IsDecimal, DigitsValue;
  }

  /** What an accepted event does to the attempts of its occurrence. */
  lemma AttemptsWritten(id: string, o: Occurrence, e: Event, attempts: nat, steers: nat)
    requires IsOccurrenceEvent(e) && ApplyOccurrence(id, o, e, attempts, steers).Ok?
    ensures var p := ApplyOccurrence(id, o, e, attempts, steers).value;
            if IsAttemptEvent(e) then
              && AttemptId(id, e.attempt).Ok? && AttemptId(id, e.attempt).value in o.attempts.at
              && ApplyAttempt(o.attempts.at[AttemptId(id, e.attempt).value], e, steers).Ok?
              && p.attempts == Put(o.attempts, AttemptId(id, e.attempt).value,
                                   ApplyAttempt(o.attempts.at[AttemptId(id, e.attempt).value], e, steers).value)
            else if e.AttemptStarted? then
              && AttemptId(id, e.attempt).Ok? && AttemptId(id, e.attempt).value !in o.attempts.at && e.target.Some?
              && p.attempts == Put(o.attempts, AttemptId(id, e.attempt).value,
                                   NewAttempt(AttemptId(id, e.attempt).value, e.target.value))
            else p.attempts == o.attempts
  {
    hide ApplyAttempt, AttemptId, CheckedOffers, DispatchTargets, FirstRunning, HasRunningAttempt, FailureClassOf,
         NewAttempt;
  }

  lemma AttemptsStep(id: string, o: Occurrence, story: seq<Envelope>, env: Envelope, attempts: nat, steers: nat)
    requires AttemptsTell(o.attempts, story, id)
    requires IsOccurrenceEvent(env.event) && ApplyOccurrence(id, o, env.event, attempts, steers).Ok?
    ensures AttemptsTell(ApplyOccurrence(id, o, env.event, attempts, steers).value.attempts, story + [env], id)
  {
    hide ApplyOccurrence, ApplyAttempt, AttemptId, AttemptsTell, NewAttempt;
    var e := env.event;
    AttemptsWritten(id, o, e, attempts, steers);
    if IsAttemptEvent(e) {
      KeyOfAttempt(id, e);
      AttemptEventStep(id, o.attempts, story, env, AttemptId(id, e.attempt).value, steers);
    } else if e.AttemptStarted? {
      KeyOfAttempt(id, e);
      StartedStep(id, o.attempts, story, env, AttemptId(id, e.attempt).value, e.target.value);
    } else {
      OtherStep(id, o.attempts, story, env);
    }
  }

  lemma AttemptEventStep(id: string, attempts: Table<Attempt>, story: seq<Envelope>, env: Envelope, key: string,
                         steers: nat)
    requires AttemptsTell(attempts, story, id) && key in attempts.at && AttemptOf(id, env.event) == Some(key)
    requires IsAttemptEvent(env.event) && ApplyAttempt(attempts.at[key], env.event, steers).Ok?
    ensures AttemptsTell(Put(attempts, key, ApplyAttempt(attempts.at[key], env.event, steers).value), story + [env], id)
  {
    hide ApplyAttempt, AttemptTells, Selected, Collected;
    var after := Put(attempts, key, ApplyAttempt(attempts.at[key], env.event, steers).value);
    CollectedNext(story, env, StartedIn(id));
    forall k: string
      ensures EntryTells(after, k, story + [env], id)
    {
      assert EntryTells(attempts, k, story, id);
      SelectedNext(story, env, AboutAttempt(id, k));
      if k == key { AttemptStep(attempts.at[key], key, Selected(story, AboutAttempt(id, key)), env, steers); }
    }
  }

  lemma StartedStep(id: string, attempts: Table<Attempt>, story: seq<Envelope>, env: Envelope, key: string,
                    target: string)
    requires AttemptsTell(attempts, story, id) && key !in attempts.at && AttemptOf(id, env.event) == Some(key)
    requires env.event.AttemptStarted? && env.event.target == Some(target)
    ensures AttemptsTell(Put(attempts, key, NewAttempt(key, target)), story + [env], id)
  {
    hide NewAttempt, AttemptTells, Selected, Collected;
    CollectedNext(story, env, StartedIn(id));
    forall k: string
      ensures EntryTells(Put(attempts, key, NewAttempt(key, target)), k, story + [env], id)
    {
      assert EntryTells(attempts, k, story, id);
      SelectedNext(story, env, AboutAttempt(id, k));
      if k == key {
        NewAttemptTells(key, target, env);
        assert [] + [env] == [env];
      }
    }
  }

  lemma OtherStep(id: string, attempts: Table<Attempt>, story: seq<Envelope>, env: Envelope)
    requires AttemptsTell(attempts, story, id) && AttemptOf(id, env.event).None?
    ensures AttemptsTell(attempts, story + [env], id)
  {
    hide AttemptTells, Selected, Collected;
    CollectedNext(story, env, StartedIn(id));
    forall k: string
      ensures EntryTells(attempts, k, story + [env], id)
    {
      assert EntryTells(attempts, k, story, id);
      SelectedNext(story, env, AboutAttempt(id, k));
    }
  }

  // ---- Dispatch ----

  lemma {:induction false} TextsAre(raw: seq<Text>)
    requires TextsOf(raw).Ok?
    ensures TextsGiven(TextsOf(raw).value) == raw
  {
    if raw != [] {
      TextsAre(raw[1..]);
      var rest := TextsOf(raw[1..]).value;
      assert TextsOf(raw).value == [raw[0].value] + rest;
      assert TextsGiven(TextsOf(raw).value)[1..] == TextsGiven(rest);
      assert raw == [raw[0]] + raw[1..];
    }
  }

  lemma DistinctTextsAre(field: Option<seq<Text>>)
    requires DistinctTexts(field).Ok?
    ensures field == Some(TextsGiven(DistinctTexts(field).value))
  {
    hide TextsOf;
    TextsAre(field.value);
  }

  lemma TargetsAre(field: Option<seq<Text>>)
    requires DispatchTargets(field).Ok?
    ensures field == Some(TextsGiven(DispatchTargets(field).value))
  {
    hide DistinctTexts;
    DistinctTextsAre(field);
  }

  lemma GivenHas(texts: seq<string>, text: string)
    ensures Some(text) in TextsGiven(texts) <==> text in texts
  {
    var given := TextsGiven(texts);
    if text in texts {
      var i :| 0 <= i < |texts| && texts[i] == text;
      assert given[i] == Some(text);
    }
    if Some(text) in given {
      var i :| 0 <= i < |given| && given[i] == Some(text);
      assert texts[i] == text;
    }
  }

  lemma TargetsNext(story: seq<Envelope>, env: Envelope)
    requires TargetsIn(env).None? && RedirectTargetIn(env).None?
    ensures TargetsAfter(story + [env]) == TargetsAfter(story)
    ensures Latest(story + [env], RedirectTargetIn) == Latest(story, RedirectTargetIn)
  {
    hide Latest;
    LatestNext(story, env, TargetsIn);
    LatestNext(story, env, RedirectTargetIn);
  }

  lemma StopNext(stopped: Option<string>, story: seq<Envelope>, env: Envelope, id: string)
    requires RedirectTargetIn(env).None?
    ensures StopTells(stopped, story + [env], id) == StopTells(stopped, story, id)
  {
    hide Latest, IsFirstRunning, TargetsAfter;
    assert (story + [env])[..|story + [env]| - 1] == story;
  }

  /** An event that is no redirect and reserves nothing can only close the dispatch. */
  lemma DispatchGoesOn(dispatch: Option<Dispatch>, story: seq<Envelope>, env: Envelope, id: string,
                       after: Option<Dispatch>)
    requires DispatchTells(dispatch, story, id) && !env.event.DispatchPending? && !env.event.OccurrenceRedirected?
    requires after == (if env.event.AttemptStarted? || env.event.OccurrenceReused? then CloseDispatch(dispatch)
                       else dispatch)
    ensures DispatchTells(after, story + [env], id)
  {
    hide Latest, TargetsAfter, StopTells;
    TargetsNext(story, env);
    LatestNext(story, env, OpenIn);
    LatestNext(story, env, RedirectControlIn);
    if dispatch.Some? && dispatch.value.redirect.Some? {
      StopNext(dispatch.value.redirect.value.stoppedAttempt, story, env, id);
    }
  }

  lemma DispatchOpens(story: seq<Envelope>, env: Envelope, id: string, targets: seq<string>)
    requires TargetsAfter(story).None? && env.event.DispatchPending? && env.event.targets == Some(TextsGiven(targets))
    ensures DispatchTells(Some(Dispatch(targets, true, None)), story + [env], id)
  {
    hide Latest;
    LatestNext(story, env, TargetsIn);
    LatestNext(story, env, RedirectTargetIn);
    LatestNext(story, env, OpenIn);
  }

  lemma DispatchRedirected(dispatch: Option<Dispatch>, story: seq<Envelope>, env: Envelope, id: string, d: Dispatch)
    requires DispatchTells(dispatch, story, id)
    requires env.event.OccurrenceRedirected? && env.event.target.Some? && env.event.controlId.Some?
    requires !d.open && d.redirect.Some? && d.redirect.value.target == env.event.target.value
             && d.redirect.value.controlId == env.event.controlId.value
    requires dispatch.Some? ==> d.targets == dispatch.value.targets && env.event.target.value in d.targets
    requires dispatch.None? ==> d.targets == [env.event.target.value]
    requires if dispatch.Some? && dispatch.value.open then d.redirect.value.stoppedAttempt.None?
             else && d.redirect.value.stoppedAttempt.Some?
                  && IsFirstRunning(story, id, d.redirect.value.stoppedAttempt.value)
    ensures DispatchTells(Some(d), story + [env], id)
  {
    hide Latest, IsFirstRunning, TextsGiven;
    LatestNext(story, env, TargetsIn);
    LatestNext(story, env, RedirectTargetIn);
    LatestNext(story, env, RedirectControlIn);
    LatestNext(story, env, OpenIn);
    GivenHas(d.targets, env.event.target.value);
    OneGiven(env.event.target.value);
    assert (story + [env])[..|story + [env]| - 1] == story;
    if dispatch.Some? && Latest(story, TargetsIn).None? {
      OneTarget(dispatch.value.targets, env.event.target.value, story);
    }
  }

  lemma OneGiven(text: string)
    ensures TextsGiven([text]) == [Some(text)]
  {
  }

  /** Without reserved targets, a redirect names the same target again. */
  lemma OneTarget(targets: seq<string>, target: string, story: seq<Envelope>)
    requires Some(TextsGiven(targets)) == TargetsAfter(story) && Latest(story, TargetsIn).None? && target in targets
    ensures targets == [target]
  {
    hide Latest;
    assert |targets| == |TextsGiven(targets)| == 1;
  }

  lemma {:induction false} FirstRunningAt(order: seq<string>, at: map<string, Attempt>) returns (i: nat)
    requires forall k :: k in order ==> k in at
    requires FirstRunning(order, at).Some?
    ensures i < |order| && order[i] == FirstRunning(order, at).value && at[order[i]].state.AttRunning?
    ensures forall j :: 0 <= j < i ==> !at[order[j]].state.AttRunning?
  {
    if at[order[0]].state.AttRunning? {
      i := 0;
    } else {
      var j := FirstRunningAt(order[1..], at);
      i := j + 1;
    }
  }

  lemma RunsExactly(attempts: Table<Attempt>, story: seq<Envelope>, id: string, key: string)
    requires AttemptsTell(attempts, story, id) && key in attempts.at
    ensures attempts.at[key].state.AttRunning? <==> RunsAfter(story, id, key)
  {
    hide Latest, Selected, Collected, ProgressTells;
    assert EntryTells(attempts, key, story, id);
  }

  lemma FirstRunningTells(attempts: Table<Attempt>, story: seq<Envelope>, id: string)
    requires AttemptsTell(attempts, story, id) && FirstRunning(attempts.order, attempts.at).Some?
    ensures IsFirstRunning(story, id, FirstRunning(attempts.order, attempts.at).value)
  {
    hide AttemptsTell, RunsAfter, Collected, FirstRunning;
    var i := FirstRunningAt(attempts.order, attempts.at);
    OrderTells(attempts, story, id);
    forall j | 0 <= j <= i
      ensures attempts.at[attempts.order[j]].state.AttRunning? <==> RunsAfter(story, id, attempts.order[j])
    {
      assert attempts.order[j] in attempts.order;
      RunsExactly(attempts, story, id, attempts.order[j]);
    }
  }

  lemma OrderTells(attempts: Table<Attempt>, story: seq<Envelope>, id: string)
    requires AttemptsTell(attempts, story, id)
    ensures attempts.order == Collected(story, StartedIn(id))
  {
  }

  /** What an accepted event does to the dispatch of its occurrence, but for a redirect. */
  lemma DispatchWritten(id: string, o: Occurrence, e: Event, attempts: nat, steers: nat)
    requires IsOccurrenceEvent(e) && ApplyOccurrence(id, o, e, attempts, steers).Ok?
    ensures var p := ApplyOccurrence(id, o, e, attempts, steers).value;
            && (e.DispatchPending? ==> o.dispatch.None? && DispatchTargets(e.targets).Ok?
                                       && p.dispatch == Some(Dispatch(DispatchTargets(e.targets).value, true, None)))
            && (!e.DispatchPending? && !e.OccurrenceRedirected? ==>
                  p.dispatch == if e.AttemptStarted? || e.OccurrenceReused? then CloseDispatch(o.dispatch)
                                else o.dispatch)
  {
    hide ApplyAttempt, AttemptId, CheckedOffers, DispatchTargets, FirstRunning, HasRunningAttempt, FailureClassOf,
         NewAttempt;
  }

  lemma RedirectStep(o: Occurrence, story: seq<Envelope>, env: Envelope, id: string)
    requires DispatchTells(o.dispatch, story, id) && AttemptsTell(o.attempts, story, id)
    requires env.event.OccurrenceRedirected? && RedirectTo(o, env.event.target, env.event.controlId).Ok?
    ensures DispatchTells(RedirectTo(o, env.event.target, env.event.controlId).value.dispatch, story + [env], id)
  {
    hide FirstRunning, DispatchTells, AttemptsTell;
    var p := RedirectTo(o, env.event.target, env.event.controlId).value;
    var running := FirstRunning(o.attempts.order, o.attempts.at);
    if running.Some? { FirstRunningTells(o.attempts, story, id); }
    DispatchRedirected(o.dispatch, story, env, id, p.dispatch.value);
  }

  lemma DispatchStep(id: string, o: Occurrence, story: seq<Envelope>, env: Envelope, attempts: nat, steers: nat)
    requires DispatchTells(o.dispatch, story, id) && AttemptsTell(o.attempts, story, id)
    requires IsOccurrenceEvent(env.event) && ApplyOccurrence(id, o, env.event, attempts, steers).Ok?
    ensures DispatchTells(ApplyOccurrence(id, o, env.event, attempts, steers).value.dispatch, story + [env], id)
  {
    hide DispatchTells, AttemptsTell, ApplyOccurrence, RedirectTo;
    var e, p := env.event, ApplyOccurrence(id, o, env.event, attempts, steers).value;
    DispatchWritten(id, o, e, attempts, steers);
    if e.DispatchPending? {
      TargetsAre(e.targets);
      NoDispatch(story, id);
      DispatchOpens(story, env, id, DispatchTargets(e.targets).value);
    } else if e.OccurrenceRedirected? {
      RedirectIsApplied(id, o, e, attempts, steers);
      RedirectStep(o, story, env, id);
    } else {
      DispatchGoesOn(o.dispatch, story, env, id, p.dispatch);
    }
  }

  lemma NoDispatch(story: seq<Envelope>, id: string)
    requires DispatchTells(None, story, id)
    ensures TargetsAfter(story).None?
  {
  }

  lemma RedirectIsApplied(id: string, o: Occurrence, e: Event, attempts: nat, steers: nat)
    requires e.OccurrenceRedirected?
    ensures ApplyOccurrence(id, o, e, attempts, steers) == RedirectTo(o, e.target, e.controlId)
  {
  }

  // ---- A whole occurrence ----

  lemma TellsAfterEvent(id: string, o: Occurrence, story: seq<Envelope>, env: Envelope, attempts: nat, steers: nat)
    requires OccurrenceTells(o, id, story) && (o.state.OccReused? <==> o.reuseKind.Some?)
    requires IsOccurrenceEvent(env.event) && ApplyOccurrence(id, o, env.event, attempts, steers).Ok?
    ensures OccurrenceTells(ApplyOccurrence(id, o, env.event, attempts, steers).value, id, story + [env])
  {
    OccurrenceWrites(id, o, env.event, attempts, steers);
    hide ApplyOccurrence, StartTells, EndTells, PersonTells, RecoveryTells, DispatchTells, AttemptsTell;
    StartStep(o, story, env, ApplyOccurrence(id, o, env.event, attempts, steers).value);
    EndStep(id, o, story, env, attempts, steers);
    PersonStep(id, o, story, env, attempts, steers);
    RecoveryStep(id, o, story, env, attempts, steers);
    DispatchStep(id, o, story, env, attempts, steers);
    AttemptsStep(id, o, story, env, attempts, steers);
  }

  /** An occurrence that has just started tells its first envelope. */
  lemma NewOccurrenceTells(o: Occurrence, id: string, env: Envelope)
    requires env.event.OccurrenceStarted?
    requires env.event.code == Some(o.code) && env.event.intent == Some(o.intent)
             && env.event.addressee == Some(o.addressee) && env.event.prompt == Some(o.prompt)
    requires o == Occurrence(id, OccRunning, o.code, o.intent, o.addressee, o.prompt,
                             None, None, None, None, None, None, true, None, None, EmptyTable())
    ensures OccurrenceTells(o, id, [env])
  {
    hide OccurrenceTells, StartTells, EndTells, PersonTells, RecoveryTells, DispatchTells, AttemptsTell;
    NewStartTells(o, env);
    NewEndTells(o, env);
    NewRestTells(o, id, env);
    PartsTell(o, id, [env]);
  }

  lemma PartsTell(o: Occurrence, id: string, story: seq<Envelope>)
    requires o.id == id && StartTells(o, story) && EndTells(o, story) && PersonTells(o, story)
    requires RecoveryTells(o.recovery, story) && DispatchTells(o.dispatch, story, id)
             && AttemptsTell(o.attempts, story, id)
    ensures OccurrenceTells(o, id, story)
  {
    hide StartTells, EndTells, PersonTells, RecoveryTells, DispatchTells, AttemptsTell;
  }

  lemma OneTold<T>(env: Envelope, read: Read<T>)
    ensures Latest([env], read) == read(env)
    ensures Collected([env], read) == if read(env).Some? then [read(env).value] else []
  {
    assert [env][..0] == [];
  }

  lemma NewStartTells(o: Occurrence, env: Envelope)
    requires env.event.OccurrenceStarted?
    requires env.event.code == Some(o.code) && env.event.intent == Some(o.intent)
             && env.event.addressee == Some(o.addressee) && env.event.prompt == Some(o.prompt)
    ensures StartTells(o, [env])
  {
    hide Latest;
    OneTold(env, CodeIn);
    OneTold(env, IntentIn);
    OneTold(env, AddresseeIn);
    OneTold(env, PromptIn);
  }

  lemma NewEndTells(o: Occurrence, env: Envelope)
    requires env.event.OccurrenceStarted? && o.state.OccRunning?
    requires o.answer.None? && o.source.None? && o.failureClass.None? && o.reuseKind.None?
    ensures EndTells(o, [env])
  {
    hide Latest;
    OneTold(env, StateIn);
    OneTold(env, AnswerIn);
    OneTold(env, SourceIn);
    OneTold(env, ClassIn);
    OneTold(env, ReuseIn);
  }

  lemma NewRestTells(o: Occurrence, id: string, env: Envelope)
    requires env.event.OccurrenceStarted? && o.personQuestion.None? && o.personPending.None? && o.replayable
    requires o.recovery.None? && o.dispatch.None? && o.attempts == EmptyTable()
    ensures PersonTells(o, [env]) && RecoveryTells(o.recovery, [env]) && DispatchTells(o.dispatch, [env], id)
    ensures AttemptsTell(o.attempts, [env], id)
  {
    hide Latest, Collected, Selected, Since;
    OneTold(env, QuestionIn);
    OneTold(env, PendingIn);
    OneTold(env, SteerIn);
    OneTold(env, TargetsIn);
    OneTold(env, RedirectTargetIn);
    OneTold(env, StartedIn(id));
    SinceNext([], env, IsOfferEvent);
    assert [] + [env] == [env];
    NothingSelected(IsOfferEvent);
    forall key: string
      ensures EntryTells(o.attempts, key, [env], id)
    {
      SelectedNext([], env, AboutAttempt(id, key));
      NothingSelected(AboutAttempt(id, key));
    }
  }

  lemma NothingSelected(which: Envelope -> bool)
    ensures Selected([], which) == [] && Since([], which) == []
  {
  }

  /** An acknowledged answer: only a delivered one changes the occurrence. */
  lemma TellsAfterAnswer(id: string, o: Occurrence, story: seq<Envelope>, env: Envelope, p: Occurrence)
    requires OccurrenceTells(o, id, story) && AnswerTo(env, id)
    requires p == if env.event.state == Some("delivered") then o.(personPending := Some(false)) else o
    ensures OccurrenceTells(p, id, story + [env])
  {
    hide OccurrenceTells, StartTells, EndTells, PersonTells, RecoveryTells, DispatchTells, AttemptsTell;
    PartsOf(o, id, story);
    StartStep(o, story, env, p);
    AnswerKeepsEnd(o, story, env, p);
    AnswerMovesPerson(o, story, env, p);
    AnswerKeepsRecovery(o.recovery, story, env);
    DispatchGoesOn(o.dispatch, story, env, id, o.dispatch);
    OtherStep(id, o.attempts, story, env);
    PartsTell(p, id, story + [env]);
  }

  lemma PartsOf(o: Occurrence, id: string, story: seq<Envelope>)
    requires OccurrenceTells(o, id, story)
    ensures o.id == id && StartTells(o, story) && EndTells(o, story) && PersonTells(o, story)
    ensures RecoveryTells(o.recovery, story) && DispatchTells(o.dispatch, story, id)
            && AttemptsTell(o.attempts, story, id)
  {
    hide StartTells, EndTells, PersonTells, RecoveryTells, DispatchTells, AttemptsTell;
  }

  lemma AnswerKeepsEnd(o: Occurrence, story: seq<Envelope>, env: Envelope, p: Occurrence)
    requires EndTells(o, story) && env.event.ControlAcknowledged?
    requires p.state == o.state && p.answer == o.answer && p.source == o.source && p.failureClass == o.failureClass
             && p.reuseKind == o.reuseKind
    ensures EndTells(p, story + [env])
  {
    hide Latest;
    LatestNext(story, env, StateIn);
    LatestNext(story, env, AnswerIn);
    LatestNext(story, env, SourceIn);
    LatestNext(story, env, ClassIn);
    LatestNext(story, env, ReuseIn);
  }

  lemma AnswerMovesPerson(o: Occurrence, story: seq<Envelope>, env: Envelope, p: Occurrence)
    requires PersonTells(o, story) && env.event.ControlAcknowledged?
    requires p == if env.event.state == Some("delivered") then o.(personPending := Some(false)) else o
    ensures PersonTells(p, story + [env])
  {
    hide Latest, Collected;
    LatestNext(story, env, QuestionIn);
    LatestNext(story, env, PendingIn);
    CollectedNext(story, env, SteerIn);
  }

  lemma AnswerKeepsRecovery(recovery: Option<Recovery>, story: seq<Envelope>, env: Envelope)
    requires RecoveryTells(recovery, story) && env.event.ControlAcknowledged?
    ensures RecoveryTells(recovery, story + [env])
  {
    hide Latest, Collected, Since;
    var since := Since(story, IsOfferEvent);
    LatestNext(story, env, GapIn);
    LatestNext(story, env, RecoveryMessageIn);
    LatestNext(story, env, OffersIn);
    SinceNext(story, env, IsOfferEvent);
    LatestNext(since, env, ChoiceIn);
    CollectedNext(since, env, RetryIn);
  }

  // ---- The table of occurrences ----

  lemma OccurrenceIs(field: Text)
    requires OccurrenceId(field).Ok?
    ensures field == Some(OccurrenceId(field).value)
  {
    hide IsDecimal, DigitsValue;
  }

  lemma NamesOccurrence(e: Event)
    requires IsOccurrenceEvent(e) || e.OccurrenceStarted?
    ensures OccurrenceOf(e) == e.occurrenceId
  {
  }

  /** One more envelope about `id`, and about no other occurrence. */
  lemma OccurrencesNext(occurrences: Table<Occurrence>, run: seq<Envelope>, env: Envelope, id: string, p: Occurrence)
    requires OccurrencesTell(occurrences, run)
    requires forall k: string :: IsAbout(env, k) <==> k == id
    requires NewOccurrenceIn(env) == if id in occurrences.at then None else Some(id)
    requires OccurrenceTells(p, id, Selected(run, About(id)) + [env])
    ensures OccurrencesTell(Put(occurrences, id, p), run + [env])
  {
    hide OccurrenceTells, Selected, Collected, IsAbout;
    CollectedNext(run, env, NewOccurrenceIn);
    forall k: string
      ensures MemberTells(Put(occurrences, id, p), k, run + [env])
    {
      assert MemberTells(occurrences, k, run);
      SelectedNext(run, env, About(k));
    }
  }

  lemma OccurrencesKept(occurrences: Table<Occurrence>, run: seq<Envelope>, env: Envelope)
    requires OccurrencesTell(occurrences, run)
    requires forall k: string :: !IsAbout(env, k)
    requires NewOccurrenceIn(env).None?
    ensures OccurrencesTell(occurrences, run + [env])
  {
    hide OccurrenceTells, Selected, Collected, IsAbout;
    CollectedNext(run, env, NewOccurrenceIn);
    forall k: string
      ensures MemberTells(occurrences, k, run + [env])
    {
      assert MemberTells(occurrences, k, run);
      SelectedNext(run, env, About(k));
    }
  }

  lemma MemberOf(occurrences: Table<Occurrence>, run: seq<Envelope>, id: string)
    requires OccurrencesTell(occurrences, run)
    ensures id in occurrences.at ==> OccurrenceTells(occurrences.at[id], id, Selected(run, About(id)))
    ensures id !in occurrences.at ==> Selected(run, About(id)) == []
  {
    hide OccurrenceTells, Selected;
    assert MemberTells(occurrences, id, run);
  }

  lemma OccurrenceEventStep(s: Snapshot, run: seq<Envelope>, env: Envelope)
    requires OccurrencesTell(s.occurrences, run) && Lifecycle.RunOk(s)
    requires IsOccurrenceEvent(env.event) && OnOccurrence(s, env.event).Ok?
    ensures var t := OnOccurrence(s, env.event).value;
            t == s.(occurrences := t.occurrences) && OccurrencesTell(t.occurrences, run + [env])
  {
    hide OccurrencesTell, OccurrenceTells, ApplyOccurrence, OccurrenceId, Selected, TotalOver;
    var e := env.event;
    var id := OccurrenceId(e.occurrenceId).value;
    OccurrenceIs(e.occurrenceId);
    NamesOccurrence(e);
    MemberOf(s.occurrences, run, id);
    assert Lifecycle.OccurrenceOk(id, s.occurrences.at[id]);
    TellsAfterEvent(id, s.occurrences.at[id], Selected(run, About(id)), env, AttemptCount(s), SteerCount(s));
    OccurrencesNext(s.occurrences, run, env, id,
                    ApplyOccurrence(id, s.occurrences.at[id], e, AttemptCount(s), SteerCount(s)).value);
  }

  lemma OccurrenceStartStep(s: Snapshot, run: seq<Envelope>, env: Envelope)
    requires OccurrencesTell(s.occurrences, run) && env.event.OccurrenceStarted? && StartOccurrence(s, env.event).Ok?
    ensures var t := StartOccurrence(s, env.event).value;
            t == s.(occurrences := t.occurrences) && OccurrencesTell(t.occurrences, run + [env])
  {
    hide OccurrencesTell, OccurrenceTells, OccurrenceId, Selected;
    var id := OccurrenceId(env.event.occurrenceId).value;
    var o := StartOccurrence(s, env.event).value.occurrences.at[id];
    OccurrenceIs(env.event.occurrenceId);
    MemberOf(s.occurrences, run, id);
    NewOccurrenceTells(o, id, env);
    assert [] + [env] == [env];
    OccurrencesNext(s.occurrences, run, env, id, o);
  }

  // ---- Acknowledgements ----

  lemma AckSpelled(env: Envelope)
    requires env.event.ControlAcknowledged? && RecordOf(env).Ok?
    ensures AckTells(RecordOf(env).value, env)
  {
    hide IsDecimal, DigitsValue;
  }

  /** The record that an acknowledgement spells out. */
  function RecordOf(env: Envelope): Result<ControlAck>
    requires env.event.ControlAcknowledged?
  {
    Fields.AckOf(env.event, env.protocolVersion)
  }

  lemma AckStep(acks: Table<ControlAck>, run: seq<Envelope>, env: Envelope, ack: ControlAck)
    requires AcksTell(acks, run) && AckTells(ack, env)
    ensures AcksTell(Put(acks, ack.controlId, ack), run + [env])
  {
    hide AckTells, Latest, FirstMentions;
    FirstMentionsNext(run, env, ControlIn);
    assert ControlIn(env) == Some(ack.controlId) by { AckNames(ack, env); }
    var after := Put(acks, ack.controlId, ack);
    forall c | c in after.at
      ensures Latest(run + [env], RecordIn(c)).Some? && AckTells(after.at[c], Latest(run + [env], RecordIn(c)).value)
    {
      LatestNext(run, env, RecordIn(c));
    }
  }

  lemma AckNames(ack: ControlAck, env: Envelope)
    requires AckTells(ack, env)
    ensures ControlIn(env) == Some(ack.controlId)
  {
  }

  lemma AcksKept(acks: Table<ControlAck>, run: seq<Envelope>, env: Envelope)
    requires AcksTell(acks, run) && !env.event.ControlAcknowledged?
    ensures AcksTell(acks, run + [env])
  {
    hide AckTells, Latest, FirstMentions;
    FirstMentionsNext(run, env, ControlIn);
    forall c | c in acks.at
      ensures Latest(run + [env], RecordIn(c)) == Latest(run, RecordIn(c))
    {
      LatestNext(run, env, RecordIn(c));
    }
  }

  /** Entering a record: the table of records, and the occurrence that it answers. */
  lemma RecordWrites(s: Snapshot, ack: ControlAck)
    requires RecordAck(s, ack).Ok? && Lifecycle.LedgerOk(s.occurrences, s.controlAcks)
    ensures var t := RecordAck(s, ack).value;
            && t == s.(occurrences := t.occurrences, controlAcks := Put(s.controlAcks, ack.controlId, ack))
            && (ack.command != Some(AnswerPerson) ==> t.occurrences == s.occurrences)
            && (ack.command == Some(AnswerPerson) && ack.occurrenceId.Some?
                && ack.occurrenceId.value in s.occurrences.at ==>
                  var o := s.occurrences.at[ack.occurrenceId.value];
                  t.occurrences == Put(s.occurrences, ack.occurrenceId.value,
                                       if ack.state.AckDelivered? then o.(personPending := Some(false)) else o))
  {
    hide AckTransition, Lifecycle.AnswersOk;
    var prior := PriorAck(s, ack.controlId);
    if prior == Some(ack) {
      assert s.controlAcks.at[ack.controlId := ack] == s.controlAcks.at;
      if ack.command == Some(AnswerPerson) && ack.occurrenceId.Some? && ack.occurrenceId.value in s.occurrences.at {
        var id := ack.occurrenceId.value;
        assert Lifecycle.Delivers(ack, id) ==> Lifecycle.Answered(s.occurrences, id);
        assert s.occurrences.at[id := s.occurrences.at[id]] == s.occurrences.at;
      }
    } else if ack.command == Some(AnswerPerson) && ack.occurrenceId.value in s.occurrences.at {
      var id := ack.occurrenceId.value;
      assert s.occurrences.at[id := s.occurrences.at[id]] == s.occurrences.at;
    }
  }

  lemma {:induction false} LatestIsTold(run: seq<Envelope>, c: string)
    requires Latest(run, RecordIn(c)).Some?
    ensures Latest(run, RecordIn(c)).value in run
  {
    if RecordIn(c)(run[|run| - 1]).None? { LatestIsTold(run[..|run| - 1], c); }
  }

  lemma {:induction false} SelectedHas(run: seq<Envelope>, which: Envelope -> bool, env: Envelope)
    requires env in run && which(env)
    ensures env in Selected(run, which)
  {
    if run[|run| - 1] != env { SelectedHas(run[..|run| - 1], which, env); }
  }

  /** A record of an answer names an occurrence that has started. */
  lemma AnswersAreKnown(s: Snapshot, run: seq<Envelope>, c: string)
    requires Tells(s, run) && c in s.controlAcks.at
    requires s.controlAcks.at[c].command == Some(AnswerPerson) && s.controlAcks.at[c].occurrenceId.Some?
    ensures s.controlAcks.at[c].occurrenceId.value in s.occurrences.at
  {
    hide RunTells, OccurrencesTell, Latest, Selected;
    var id, last := s.controlAcks.at[c].occurrenceId.value, Latest(run, RecordIn(c)).value;
    LatestIsTold(run, c);
    assert AnswerTo(last, id);
    SelectedHas(run, About(id), last);
    MemberOf(s.occurrences, run, id);
  }

  lemma AnswersOccurrence(ack: ControlAck, env: Envelope, id: string)
    requires AckTells(ack, env)
    ensures IsAbout(env, id) <==> ack.command == Some(AnswerPerson) && ack.occurrenceId == Some(id)
    ensures ack.state.AckDelivered? <==> env.event.state == Some("delivered")
    ensures NewOccurrenceIn(env).None?
  {
  }

  lemma AckEventStep(s: Snapshot, run: seq<Envelope>, env: Envelope)
    requires Tells(s, run) && Lifecycle.RunOk(s)
    requires env.event.ControlAcknowledged? && RecordOf(env).Ok? && RecordAck(s, RecordOf(env).value).Ok?
    ensures var t := RecordAck(s, RecordOf(env).value).value;
            && t == s.(occurrences := t.occurrences, controlAcks := t.controlAcks)
            && AcksTell(t.controlAcks, run + [env]) && OccurrencesTell(t.occurrences, run + [env])
  {
    hide Lifecycle.LedgerOk, RunTells, AcksTell, OccurrencesTell, RecordOf, RecordAck, IsAbout, AckTells,
         OccurrenceTells, Selected;
    var ack := RecordOf(env).value;
    AckSpelled(env);
    RecordWrites(s, ack);
    AckStep(s.controlAcks, run, env, ack);
    forall id: string
      ensures IsAbout(env, id) <==> ack.command == Some(AnswerPerson) && ack.occurrenceId == Some(id)
    {
      AnswersOccurrence(ack, env, id);
    }
    AnswersOccurrence(ack, env, "");
    AnswerIsKnown(s, run, ack);
    if ack.command == Some(AnswerPerson) && ack.occurrenceId.Some? {
      var id := ack.occurrenceId.value;
      var o := s.occurrences.at[id];
      var p := if ack.state.AckDelivered? then o.(personPending := Some(false)) else o;
      MemberOf(s.occurrences, run, id);
      AboutIsAnswer(env, id);
      TellsAfterAnswer(id, o, Selected(run, About(id)), env, p);
      OccurrencesNext(s.occurrences, run, env, id, p);
    } else {
      OccurrencesKept(s.occurrences, run, env);
      AnswerNeedsOccurrence(s, ack);
    }
  }

  lemma AboutIsAnswer(env: Envelope, id: string)
    requires env.event.ControlAcknowledged? && IsAbout(env, id)
    ensures AnswerTo(env, id)
  {
  }

  lemma AnswerIsKnown(s: Snapshot, run: seq<Envelope>, ack: ControlAck)
    requires Tells(s, run) && RecordAck(s, ack).Ok?
    ensures ack.command == Some(AnswerPerson) && ack.occurrenceId.Some? ==> ack.occurrenceId.value in s.occurrences.at
  {
    hide Tells, AckTransition;
    if PriorAck(s, ack.controlId) == Some(ack) && ack.command == Some(AnswerPerson) && ack.occurrenceId.Some? {
      AnswersAreKnown(s, run, ack.controlId);
    }
  }

  lemma AnswerNeedsOccurrence(s: Snapshot, ack: ControlAck)
    requires RecordAck(s, ack).Ok? && (ack.command == Some(AnswerPerson) ==> ack.occurrenceId.None?)
    ensures RecordAck(s, ack).value.occurrences == s.occurrences
  {
    hide AckTransition;
  }

  // ---- The fields of the run ----

  lemma FailureIs(field: Text)
    requires FailureClassOf(field).Ok?
    ensures field == Some(FailureName(FailureClassOf(field).value))
  {
  }

  /** Events about occurrences and controls say nothing of the run itself. */
  lemma RunKept(s: Snapshot, run: seq<Envelope>, env: Envelope, t: Snapshot)
    requires RunTells(s, run)
    requires IsOccurrenceEvent(env.event) || env.event.OccurrenceStarted? || env.event.ControlAcknowledged?
    requires t == s.(protocolVersion := t.protocolVersion, lastSequence := t.lastSequence,
                     eventDigests := t.eventDigests,
                     occurrences := t.occurrences, controlAcks := t.controlAcks)
    ensures RunTells(t, run + [env])
  {
    hide Latest;
    RunReadsNext(run, env);
  }

  lemma RunReadsNext(run: seq<Envelope>, env: Envelope)
    ensures Latest(run + [env], StatusIn) == if StatusIn(env).Some? then StatusIn(env) else Latest(run, StatusIn)
    ensures Latest(run + [env], WorkflowIn)
            == if WorkflowIn(env).Some? then WorkflowIn(env) else Latest(run, WorkflowIn)
    ensures Latest(run + [env], RunTargetIn)
            == if RunTargetIn(env).Some? then RunTargetIn(env) else Latest(run, RunTargetIn)
    ensures Latest(run + [env], AnsweringIn)
            == if AnsweringIn(env).Some? then AnsweringIn(env) else Latest(run, AnsweringIn)
    ensures Latest(run + [env], BillFreshIn)
            == if BillFreshIn(env).Some? then BillFreshIn(env) else Latest(run, BillFreshIn)
    ensures Latest(run + [env], BillMemoIn)
            == if BillMemoIn(env).Some? then BillMemoIn(env) else Latest(run, BillMemoIn)
    ensures Latest(run + [env], ResultIn) == if ResultIn(env).Some? then ResultIn(env) else Latest(run, ResultIn)
    ensures Latest(run + [env], RunMessageIn)
            == if RunMessageIn(env).Some? then RunMessageIn(env) else Latest(run, RunMessageIn)
    ensures Latest(run + [env], RunClassIn)
            == if RunClassIn(env).Some? then RunClassIn(env) else Latest(run, RunClassIn)
    ensures Latest(run + [env], TraceIn) == if TraceIn(env).Some? then TraceIn(env) else Latest(run, TraceIn)
  {
    hide Latest;
    LatestNext(run, env, StatusIn);
    LatestNext(run, env, WorkflowIn);
    LatestNext(run, env, RunTargetIn);
    LatestNext(run, env, AnsweringIn);
    LatestNext(run, env, BillFreshIn);
    LatestNext(run, env, BillMemoIn);
    LatestNext(run, env, ResultIn);
    LatestNext(run, env, RunMessageIn);
    LatestNext(run, env, RunClassIn);
    LatestNext(run, env, TraceIn);
  }

  lemma RunFieldsStep(s: Snapshot, run: seq<Envelope>, env: Envelope)
    requires RunTells(s, run) && !s.status.Cancelling? && Apply(s, env.event, env.protocolVersion).Ok?
    requires env.event.RunStarted? || env.event.TraceOrdered? || env.event.RunCompleted? || env.event.RunFailed?
             || env.event.RunCancelled?
    ensures var t := Apply(s, env.event, env.protocolVersion).value;
            && RunTells(t, run + [env]) && t.occurrences == s.occurrences && t.controlAcks == s.controlAcks
  {
    hide RunTells, StartRun, OrderTrace, CompleteRun, FailRun, CancelRun, Acknowledge, OnOccurrence, StartOccurrence;
    match env.event
    case RunStarted(_, _, _) => RunStartStep(s, run, env);
    case TraceOrdered(_) => TraceStep(s, run, env);
    case RunCompleted(_, _, _) => CompletionStep(s, run, env);
    case _ => FailureStep(s, run, env);
  }

  lemma RunStartStep(s: Snapshot, run: seq<Envelope>, env: Envelope)
    requires RunTells(s, run) && !s.status.Cancelling? && env.event.RunStarted?
    requires StartRun(s, env.event, env.protocolVersion).Ok?
    ensures var t := StartRun(s, env.event, env.protocolVersion).value;
            && RunTells(t, run + [env]) && t.occurrences == s.occurrences && t.controlAcks == s.controlAcks
  {
    hide Latest, FailureName;
    RunReadsNext(run, env);
  }

  lemma TraceStep(s: Snapshot, run: seq<Envelope>, env: Envelope)
    requires RunTells(s, run) && env.event.TraceOrdered? && OrderTrace(s, env.event.occurrenceIds).Ok?
    ensures var t := OrderTrace(s, env.event.occurrenceIds).value;
            && RunTells(t, run + [env]) && t.occurrences == s.occurrences && t.controlAcks == s.controlAcks
  {
    hide Latest, DistinctTexts, AllSettled, TextsGiven, FailureName, AnsweringName;
    RunReadsNext(run, env);
    DistinctTextsAre(env.event.occurrenceIds);
  }

  lemma CompletionStep(s: Snapshot, run: seq<Envelope>, env: Envelope)
    requires RunTells(s, run) && env.event.RunCompleted? && CompleteRun(s, env.event, env.protocolVersion).Ok?
    ensures var t := CompleteRun(s, env.event, env.protocolVersion).value;
            && RunTells(t, run + [env]) && t.occurrences == s.occurrences && t.controlAcks == s.controlAcks
  {
    hide Latest, NaturalText, AllSettled, TextsGiven, FailureName, AnsweringName;
    RunReadsNext(run, env);
    NaturalIs(env.event.billFresh);
    NaturalIs(env.event.billMemo);
  }

  lemma FailureStep(s: Snapshot, run: seq<Envelope>, env: Envelope)
    requires RunTells(s, run) && (env.event.RunFailed? || env.event.RunCancelled?)
    requires Apply(s, env.event, env.protocolVersion).Ok?
    ensures var t := Apply(s, env.event, env.protocolVersion).value;
            && RunTells(t, run + [env]) && t.occurrences == s.occurrences && t.controlAcks == s.controlAcks
  {
    hide Latest, FailureClassOf, TextsGiven, AnsweringName, StartRun, OrderTrace, CompleteRun, Acknowledge,
         OnOccurrence, StartOccurrence;
    RunReadsNext(run, env);
    if env.event.RunFailed? { FailureIs(env.event.failure); }
  }

  lemma NaturalIs(field: Text)
    requires NaturalText(field).Ok?
    ensures field == Some(NaturalText(field).value)
  {
    hide IsDecimal;
  }

  // ---- Whole runs ----

  lemma TellsParts(s: Snapshot, run: seq<Envelope>)
    ensures Tells(s, run) <==> RunTells(s, run) && AcksTell(s.controlAcks, run) && OccurrencesTell(s.occurrences, run)
  {
    hide RunTells, AcksTell, OccurrencesTell;
  }

  /** The bookkeeping of an envelope is not told by these fields. */
  lemma AdvanceTells(s: Snapshot, run: seq<Envelope>, env: Envelope)
    requires Tells(s, run) && Lifecycle.RunOk(s)
    ensures Tells(Advance(s, env), run) && Lifecycle.RunOk(Advance(s, env))
  {
    hide Latest, AcksTell, OccurrencesTell, Lifecycle.OccurrenceOk, Lifecycle.LedgerOk, TotalOver;
  }

  lemma ApplyTells(s: Snapshot, run: seq<Envelope>, env: Envelope)
    requires Tells(s, run) && Lifecycle.RunOk(s) && Apply(s, env.event, env.protocolVersion).Ok?
    ensures Tells(Apply(s, env.event, env.protocolVersion).value, run + [env])
  {
    hide RunTells, AcksTell, OccurrencesTell, Tells, OnOccurrence, StartOccurrence, RecordAck, AckOf, IsAbout,
         Lifecycle.OccurrenceOk, Lifecycle.LedgerOk, Lifecycle.BoundsOk, Lifecycle.TraceOk;
    var e, t := env.event, Apply(s, env.event, env.protocolVersion).value;
    TellsParts(s, run);
    TellsParts(t, run + [env]);
    if IsOccurrenceEvent(e) {
      OccurrenceEventStep(s, run, env);
      RunKept(s, run, env, t);
      AcksKept(s.controlAcks, run, env);
    } else if e.OccurrenceStarted? {
      OccurrenceStartStep(s, run, env);
      RunKept(s, run, env, t);
      AcksKept(s.controlAcks, run, env);
    } else if e.ControlAcknowledged? {
      AckEventStep(s, run, env);
      RunKept(s, run, env, t);
    } else {
      RunFieldsStep(s, run, env);
      RunEventIsAboutNone(env);
      OccurrencesKept(s.occurrences, run, env);
      AcksKept(s.controlAcks, run, env);
    }
  }

  lemma RunEventIsAboutNone(env: Envelope)
    requires !IsOccurrenceEvent(env.event) && !env.event.OccurrenceStarted? && !env.event.ControlAcknowledged?
    ensures NewOccurrenceIn(env).None? && forall k: string :: !IsAbout(env, k)
  {
  }

  lemma NothingTells(runId: string)
    ensures Tells(InitialSnapshot(runId), [])
  {
    forall id: string
      ensures MemberTells(EmptyTable(), id, [])
    {
      NothingSelected(About(id));
    }
  }

  /**
   In every accepted run, every field of the snapshot is what the envelopes gave for it: the latest value for a field
   that is written, all values in order for one that grows, the last of them for one that is bounded, and nothing else.
   */
  lemma {:induction false} SnapshotTellsRun(runId: string, run: seq<Envelope>)
    requires Replay(InitialSnapshot(runId), run).Ok?
    ensures Tells(Replay(InitialSnapshot(runId), run).value, run)
  {
    hide Tells, ReduceEvent, Lifecycle.RunOk;
    if run == [] {
      NothingTells(runId);
    } else {
      var init, last := run[..|run| - 1], run[|run| - 1];
      var before := Replay(InitialSnapshot(runId), init).value;
      SnapshotTellsRun(runId, init);
      Lifecycle.ReachableIsOk(before);
      ReduceTells(before, init, last);
      assert init + [last] == run;
    }
  }

  lemma ReduceTells(s: Snapshot, run: seq<Envelope>, env: Envelope)
    requires Tells(s, run) && Lifecycle.RunOk(s) && ReduceEvent(s, env).Ok?
    ensures Tells(ReduceEvent(s, env).value, run + [env])
  {
    hide Tells, Apply, Advance, Lifecycle.RunOk, Admit;
    AdvanceTells(s, run, env);
    ApplyTells(Advance(s, env), run, env);
  }
}
