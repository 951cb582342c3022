/** The reducer accepts exactly the envelopes that the history of the run admits. */
module RunAdmission {
  import opened Prelude
  import opened Snapshots
  import opened Fields
  import opened Reducer
  import opened History
  import opened RunHistory
  import opened Admission
  import Lifecycle
  import RunTheorems

  // ---- Fields ----

  lemma FailureExactly(field: Text)
    ensures FailureClassOf(field).Ok? <==> IsFailure(field)
  {
  }

  lemma WordExactly(field: Text, maximum: nat)
    ensures DecimalText(field, maximum).Ok? <==> IsWord(field, maximum)
    ensures IsWord(field, maximum) ==> DecimalText(field, maximum).value == field.value
  {
    hide IsDecimal, DigitsValue;
  }

  lemma KeyExactly(id: string, field: Text)
    ensures AttemptId(id, field).Ok? <==> IsWord(field, MAX_WORD32)
    ensures IsWord(field, MAX_WORD32) ==> AttemptId(id, field).value == id + ":" + field.value
  {
    hide IsDecimal, DigitsValue;
  }

  lemma {:induction false} OffersExactly(raw: seq<Option<RawOffer>>)
    ensures OffersOf(raw).Ok? <==> forall i :: 0 <= i < |raw| ==> IsOffer(raw[i])
  {
    if raw != [] {
      OffersExactly(raw[1..]);
      OfferExactly(raw[0]);
      assert forall i :: 0 < i < |raw| ==> raw[i] == raw[1..][i - 1];
    }
  }

  lemma OfferExactly(raw: Option<RawOffer>)
    ensures OfferOf(raw).Ok? <==> IsOffer(raw)
  {
  }

  lemma CheckedOffersExactly(field: Option<seq<Option<RawOffer>>>)
    ensures CheckedOffers(field).Ok? <==> AreOffers(field)
  {
    hide OffersOf, OfferOf;
    if field.Some? {
      OffersExactly(field.value);
      if OffersOf(field.value).Ok? { OffersAre(field.value); ChoicesDiffer(field.value, OffersOf(field.value).value); }
    }
  }

  lemma ChoicesDiffer(raw: seq<Option<RawOffer>>, offers: seq<Offer>)
    requires raw == OffersGiven(offers)
    ensures DistinctChoices(offers) <==> forall i, j :: 0 <= i < j < |raw| ==>
              raw[i].value.choice != raw[j].value.choice
  {
    forall i, j | 0 <= i < j < |offers|
      ensures offers[i].choice == offers[j].choice <==> raw[i].value.choice == raw[j].value.choice
    {
    }
  }

  lemma {:induction false} TextsExactly(raw: seq<Text>)
    ensures TextsOf(raw).Ok? <==> forall i :: 0 <= i < |raw| ==> raw[i].Some?
  {
    if raw != [] {
      TextsExactly(raw[1..]);
      assert forall i :: 0 < i < |raw| ==> raw[i] == raw[1..][i - 1];
    }
  }

  lemma DistinctTextsExactly(field: Option<seq<Text>>)
    ensures DistinctTexts(field).Ok? <==> AreTexts(field)
  {
    hide TextsOf;
    if field.Some? {
      TextsExactly(field.value);
      if TextsOf(field.value).Ok? {
        TextsAre(field.value);
        RepeatsShow(TextsOf(field.value).value, field.value);
      }
    }
  }

  lemma RepeatsShow(texts: seq<string>, raw: seq<Text>)
    requires raw == TextsGiven(texts)
    ensures NoRepeats(texts) <==> forall i, j :: 0 <= i < j < |raw| ==> raw[i] != raw[j]
  {
    forall i, j | 0 <= i < j < |texts|
      ensures texts[i] == texts[j] <==> raw[i] == raw[j]
    {
    }
  }

  lemma TargetsExactly(field: Option<seq<Text>>)
    ensures DispatchTargets(field).Ok? <==> AreTexts(field) && 1 <= |field.value| <= 64
  {
    hide DistinctTexts, AreTexts;
    DistinctTextsExactly(field);
    if DistinctTexts(field).Ok? { DistinctTextsAre(field); }
  }

  lemma ShortExactly(field: Text, maximum: nat)
    ensures BoundedText(field, maximum).Ok? <==> IsShort(field, maximum)
  {
  }

  lemma GivenExactly(field: Optional<Text>, maximum: nat)
    ensures OptionalText(field, maximum).Ok? <==> IsGivenShort(field, maximum)
  {
  }

  lemma StatusExactly(field: Optional<Text>)
    ensures OptionalStatus(field).Ok? <==> IsToolStatus(field)
  {
  }

  lemma ToolExactly(tools: Table<Tool>, update: ToolUpdate, story: seq<Envelope>)
    requires ToolsTell(tools, story)
    ensures UpdatedTool(tools, update).Ok? <==> IsProgress(ToolProgress(Some(update)), story)
  {
    hide OptionalText, OptionalStatus, FirstMentions, ToolTells, IsGivenShort, IsToolStatus;
    GivenExactly(update.title, 1024);
    GivenExactly(update.toolKind, 128);
    StatusExactly(update.status);
    GivenExactly(update.summary, 4096);
  }

  lemma TodoExactly(raw: Option<RawTodo>)
    ensures TodoOf(raw).Ok? <==> IsTodo(raw)
  {
  }

  lemma {:induction false} TodosExactly(items: seq<Option<RawTodo>>)
    ensures TodosOf(items).Ok? <==> forall i :: 0 <= i < |items| ==> IsTodo(items[i])
  {
    hide TodoOf, IsTodo;
    if items != [] {
      TodosExactly(items[1..]);
      TodoExactly(items[0]);
      assert forall i :: 0 < i < |items| ==> items[i] == items[1..][i - 1];
    }
  }

  lemma UsageExactly(raw: RawUsage)
    ensures UsageOf(raw).Ok? <==> IsUsage(raw)
  {
    hide IsDecimal, DigitsValue;
  }

  lemma ProgressExactly(a: Attempt, progress: Progress, story: seq<Envelope>)
    requires ToolsTell(a.tools, story)
    ensures ApplyProgress(a, progress).Ok? <==> IsProgress(progress, story)
  {
    hide BoundedText, UpdatedTool, TodosOf, UsageOf, ToolsTell, IsShort, IsTodo, IsUsage;
    match progress
    case MessageProgress(text) => ShortExactly(text, 4096);
    case ReasoningProgress(text) => ShortExactly(text, 4096);
    case ToolProgress(Some(update)) => ToolExactly(a.tools, update, story);
    case TodosProgress(Some(items)) => TodosExactly(items);
    case UsageProgress(Some(usage)) => UsageExactly(usage);
    case _ =>
  }

  // ---- Attempts ----

  lemma AttemptExactly(a: Attempt, key: string, told: seq<Envelope>, env: Envelope, steers: nat)
    requires AttemptTells(a, key, told) && IsAttemptEvent(env.event)
    requires env.event.AttemptProgress? ==> env.protocolVersion == 2
    ensures ApplyAttempt(a, env.event, steers).Ok? <==> a.state.AttRunning? && AttemptMay(told, env, steers)
  {
    hide ApplyProgress, IsProgress, OutcomeTells, ToolsTell, IsLastOf, Latest, Collected, FailureClassOf, IsFailure;
    if env.event.AttemptProgress? { ProgressExactly(a, env.event.progress, told); }
    if env.event.AttemptFailed? { FailureExactly(env.event.failure); }
  }

  lemma RunningExactly(attempts: Table<Attempt>, story: seq<Envelope>, id: string)
    requires AttemptsTell(attempts, story, id)
    ensures HasRunningAttempt(attempts) <==> SomeRuns(story, id)
    ensures attempts.order == [] <==> Collected(story, StartedIn(id)) == []
    ensures FirstRunning(attempts.order, attempts.at).Some? <==> HasRunningAttempt(attempts)
  {
    hide AttemptsTell, RunsAfter, Collected, FirstRunning;
    OrderTells(attempts, story, id);
    forall key | key in attempts.order
      ensures attempts.at[key].state.AttRunning? <==> RunsAfter(story, id, key)
    {
      RunsExactly(attempts, story, id, key);
    }
  }

  lemma UnstartedRunsNot(attempts: Table<Attempt>, story: seq<Envelope>, id: string, key: string)
    requires AttemptsTell(attempts, story, id) && key !in attempts.at
    ensures !RunsAfter(story, id, key)
  {
    hide AttemptTells, Collected;
    assert EntryTells(attempts, key, story, id);
  }

  lemma AttemptEventExactly(o: Occurrence, id: string, story: seq<Envelope>, env: Envelope, attempts: nat, steers: nat)
    requires AttemptsTell(o.attempts, story, id) && IsAttemptEvent(env.event)
    requires env.event.AttemptProgress? ==> env.protocolVersion == 2
    ensures OnAttempt(id, o, env.event, steers).Ok? <==> OccurrenceMay(story, id, env, attempts, steers)
  {
    hide ApplyAttempt, AttemptsTell, RunsAfter, AttemptMay, AttemptId, IsDecimal, DigitsValue, Collected, Selected,
         Latest, Since, SomeRuns;
    KeyExactly(id, env.event.attempt);
    NumberIs(env.event);
    if env.event.attempt.Some? && IsWord(env.event.attempt, MAX_WORD32) {
      var key := id + ":" + env.event.attempt.value;
      if key in o.attempts.at {
        EntryOf(o.attempts, story, id, key);
        RunsExactly(o.attempts, story, id, key);
        AttemptExactly(o.attempts.at[key], key, Selected(story, AboutAttempt(id, key)), env, steers);
      } else {
        UnstartedRunsNot(o.attempts, story, id, key);
      }
    }
  }

  lemma NumberIs(e: Event)
    requires IsAttemptEvent(e)
    ensures IsOnAttempt(e) && NumberOf(e) == e.attempt
  {
  }

  lemma EntryOf(attempts: Table<Attempt>, story: seq<Envelope>, id: string, key: string)
    requires AttemptsTell(attempts, story, id) && key in attempts.at
    ensures AttemptTells(attempts.at[key], key, Selected(story, AboutAttempt(id, key)))
  {
    hide AttemptTells, Collected;
    assert EntryTells(attempts, key, story, id);
  }

  // ---- Occurrences ----

  /** What the other events look at. */
  predicate Shows(o: Occurrence, id: string, story: seq<Envelope>) {
    && Some(o.state) == StateAfter(story)
    && (o.personPending == Latest(story, PendingIn)) && (o.personQuestion == Latest(story, QuestionIn))
    && Some(o.addressee) == Latest(story, AddresseeIn)
    && (HasRunningAttempt(o.attempts) <==> SomeRuns(story, id))
    && (o.attempts.order == [] <==> Collected(story, StartedIn(id)) == [])
    && o.attempts.order == Collected(story, StartedIn(id))
  }

  lemma OccurrenceShows(o: Occurrence, id: string, story: seq<Envelope>)
    requires OccurrenceTells(o, id, story)
    ensures Shows(o, id, story)
  {
    hide AttemptsTell, RecoveryTells, DispatchTells, SomeRuns, HasRunningAttempt, Latest, Collected, StateAfter,
         FirstRunning;
    RunningExactly(o.attempts, story, id);
    OrderTells(o.attempts, story, id);
  }

  lemma EndExactly(o: Occurrence, id: string, story: seq<Envelope>, env: Envelope, attempts: nat, steers: nat)
    requires Shows(o, id, story) && Lifecycle.OccurrenceOk(id, o)
    requires env.event.OccurrenceReused? || env.event.OccurrenceCompleted? || env.event.OccurrenceFailed?
             || env.event.PersonAnswerPending?
    requires env.event.PersonAnswerPending? ==> env.protocolVersion == 2
    ensures ApplyOccurrence(id, o, env.event, attempts, steers).Ok? <==> OccurrenceMay(story, id, env, attempts, steers)
  {
    hide SomeRuns, HasRunningAttempt, Latest, Collected, StateAfter, FailureClassOf, IsFailure, Since,
         Lifecycle.AttemptOk,
         Lifecycle.RecoveryOk, Lifecycle.DispatchOk;
    if env.event.OccurrenceFailed? { FailureExactly(env.event.failure); }
  }

  lemma StartExactly(o: Occurrence, id: string, story: seq<Envelope>, env: Envelope, attempts: nat, steers: nat)
    requires Shows(o, id, story) && env.event.AttemptStarted?
    ensures ApplyOccurrence(id, o, env.event, attempts, steers).Ok? <==> OccurrenceMay(story, id, env, attempts, steers)
  {
    hide SomeRuns, HasRunningAttempt, Latest, Collected, StateAfter, Since, AttemptId, IsDecimal, DigitsValue;
    KeyExactly(id, env.event.attempt);
  }

  lemma OfferedExactly(offers: seq<Offer>, choice: Text, target: Option<string>)
    ensures Some(RawOffer(choice, target)) in OffersGiven(offers)
            <==> && choice.Some? && ChoiceNamed(choice.value).Some?
                 && Offer(ChoiceNamed(choice.value).value, target) in offers
  {
    var given := OffersGiven(offers);
    if Some(RawOffer(choice, target)) in given {
      var i :| 0 <= i < |given| && given[i] == Some(RawOffer(choice, target));
      assert choice == Some(ChoiceName(offers[i].choice)) && ChoiceNamed(choice.value) == Some(offers[i].choice);
      assert offers[i] == Offer(offers[i].choice, target);
    }
    if choice.Some? && ChoiceNamed(choice.value).Some? && Offer(ChoiceNamed(choice.value).value, target) in offers {
      ChoiceIs(choice.value);
      var i :| 0 <= i < |offers| && offers[i] == Offer(ChoiceNamed(choice.value).value, target);
      assert given[i] == Some(RawOffer(choice, target));
    }
  }

  lemma RecoveryExactly(o: Occurrence, id: string, story: seq<Envelope>, env: Envelope, attempts: nat, steers: nat)
    requires Shows(o, id, story) && RecoveryTells(o.recovery, story) && Lifecycle.OccurrenceOk(id, o)
    requires env.event.RecoveryChosen? || env.event.RecoveryPending? || env.event.OccurrenceRetried?
    ensures ApplyOccurrence(id, o, env.event, attempts, steers).Ok? <==> OccurrenceMay(story, id, env, attempts, steers)
  {
    hide SomeRuns, HasRunningAttempt, Latest, Collected, StateAfter, Since, CheckedOffers, AreOffers, OffersGiven,
         ChoiceNamed,
         Lifecycle.AttemptOk, Lifecycle.DispatchOk, DistinctChoices;
    if env.event.RecoveryPending? {
      CheckedOffersExactly(env.event.choices);
    } else if env.event.RecoveryChosen? && o.recovery.Some? {
      OfferedExactly(o.recovery.value.choices, env.event.choice, env.event.target);
    } else if env.event.OccurrenceRetried? && o.recovery.Some? && o.recovery.value.chosen.Some? {
      AbandonIs(o.recovery.value.chosen.value.offer.choice);
    }
  }

  lemma AbandonIs(choice: Choice)
    ensures ChoiceName(choice) == "abandon" <==> choice.Abandon?
  {
  }

  lemma DispatchExactly(o: Occurrence, id: string, story: seq<Envelope>, env: Envelope, attempts: nat, steers: nat)
    requires Shows(o, id, story) && DispatchTells(o.dispatch, story, id) && env.event.DispatchPending?
    ensures ApplyOccurrence(id, o, env.event, attempts, steers).Ok? <==> OccurrenceMay(story, id, env, attempts, steers)
  {
    hide SomeRuns, HasRunningAttempt, Latest, Collected, StateAfter, Since, DispatchTargets, AreTexts, TargetsAfter,
         TextsGiven;
    TargetsExactly(env.event.targets);
  }

  lemma RedirectExactly(o: Occurrence, id: string, story: seq<Envelope>, env: Envelope, attempts: nat, steers: nat)
    requires Shows(o, id, story) && DispatchTells(o.dispatch, story, id) && env.event.OccurrenceRedirected?
    requires FirstRunning(o.attempts.order, o.attempts.at).Some? <==> HasRunningAttempt(o.attempts)
    ensures ApplyOccurrence(id, o, env.event, attempts, steers).Ok? <==> OccurrenceMay(story, id, env, attempts, steers)
  {
    hide SomeRuns, HasRunningAttempt, Latest, Collected, StateAfter, Since, TargetsAfter, TextsGiven, FirstRunning;
    if o.dispatch.Some? && env.event.target.Some? { GivenHas(o.dispatch.value.targets, env.event.target.value); }
  }

  /** Events on a known occurrence: accepted exactly when its story admits them. */
  lemma OccurrenceExactly(o: Occurrence, id: string, story: seq<Envelope>, env: Envelope, attempts: nat, steers: nat)
    requires OccurrenceTells(o, id, story) && Lifecycle.OccurrenceOk(id, o) && IsOccurrenceEvent(env.event)
    requires env.event.AttemptProgress? || env.event.PersonAnswerPending? ==> env.protocolVersion == 2
    ensures ApplyOccurrence(id, o, env.event, attempts, steers).Ok? <==> OccurrenceMay(story, id, env, attempts, steers)
  {
    hide OccurrenceMay, Shows, RecoveryTells, DispatchTells, AttemptsTell, Lifecycle.OccurrenceOk, OnAttempt,
         FirstRunning;
    OccurrenceShows(o, id, story);
    PartsOf(o, id, story);
    var e := env.event;
    if IsAttemptEvent(e) {
      AttemptEventExactly(o, id, story, env, attempts, steers);
    } else {
      hide ApplyOccurrence;
      if e.AttemptStarted? {
        StartExactly(o, id, story, env, attempts, steers);
      } else if e.RecoveryChosen? || e.RecoveryPending? || e.OccurrenceRetried? {
        RecoveryExactly(o, id, story, env, attempts, steers);
      } else if e.DispatchPending? {
        DispatchExactly(o, id, story, env, attempts, steers);
      } else if e.OccurrenceRedirected? {
        RunningExactly(o.attempts, story, id);
        RedirectExactly(o, id, story, env, attempts, steers);
      } else {
        EndExactly(o, id, story, env, attempts, steers);
      }
    }
  }

  // ---- Counts ----

  ghost predicate CountsTell(s: Snapshot, run: seq<Envelope>) {
    AttemptCount(s) == AttemptsIn(run) && SteerCount(s) == SteersIn(run)
  }

  /** The attempts and steers that one accepted event adds. */
  lemma CountsMove(s: Snapshot, env: Envelope)
    requires Lifecycle.RunOk(s) && !IsTerminal(s.status) && Apply(s, env.event, env.protocolVersion).Ok?
    ensures var t := Apply(s, env.event, env.protocolVersion).value;
            && AttemptCount(t) == AttemptCount(s) + (if AnyStartIn(env).Some? then 1 else 0)
            && SteerCount(t) == SteerCount(s) + if SteerIn(env).Some? then 1 else 0
  {
    hide TotalOver, OnOccurrence, StartOccurrence, RecordAck, Lifecycle.OccurrenceOk, Lifecycle.LedgerOk,
         FailureClassOf,
         DistinctTexts, NaturalText, AllSettled, Fields.AckOf, PersonAnsweringOf;
    var e := env.event;
    if IsOccurrenceEvent(e) {
      OccurrenceCounts(s, env);
    } else if e.OccurrenceStarted? {
      StartCounts(s, e);
    } else if e.ControlAcknowledged? {
      AckCounts(s, Fields.AckOf(e, env.protocolVersion).value);
    }
  }

  lemma OccurrenceCounts(s: Snapshot, env: Envelope)
    requires Lifecycle.RunOk(s) && IsOccurrenceEvent(env.event) && OnOccurrence(s, env.event).Ok?
    ensures var t := OnOccurrence(s, env.event).value;
            && AttemptCount(t) == AttemptCount(s) + (if AnyStartIn(env).Some? then 1 else 0)
            && SteerCount(t) == SteerCount(s) + if SteerIn(env).Some? then 1 else 0
  {
    hide ApplyOccurrence, Lifecycle.OccurrenceOk, Lifecycle.LedgerOk, TotalOver, OccurrenceId;
    var id := OccurrenceId(env.event.occurrenceId).value;
    var o := s.occurrences.at[id];
    var p := ApplyOccurrence(id, o, env.event, AttemptCount(s), SteerCount(s)).value;
    Lifecycle.OccurrenceKeeps(id, o, env.event, AttemptCount(s), SteerCount(s));
    TotalPut(s.occurrences, AttemptsOf, id, p);
    TotalPut(s.occurrences, SteersOf, id, p);
  }

  lemma StartCounts(s: Snapshot, e: Event)
    requires e.OccurrenceStarted? && StartOccurrence(s, e).Ok?
    ensures var t := StartOccurrence(s, e).value; AttemptCount(t) == AttemptCount(s) && SteerCount(t) == SteerCount(s)
  {
    hide OccurrenceId;
    var id := OccurrenceId(e.occurrenceId).value;
    var o := StartOccurrence(s, e).value.occurrences.at[id];
    TotalPut(s.occurrences, AttemptsOf, id, o);
    TotalPut(s.occurrences, SteersOf, id, o);
  }

  lemma AckCounts(s: Snapshot, ack: ControlAck)
    requires RecordAck(s, ack).Ok?
    ensures var t := RecordAck(s, ack).value; AttemptCount(t) == AttemptCount(s) && SteerCount(t) == SteerCount(s)
  {
    hide AckTransition, TotalOver;
    if PriorAck(s, ack.controlId) != Some(ack) && ack.command == Some(AnswerPerson) {
      var id := ack.occurrenceId.value;
      TotalPut(s.occurrences, AttemptsOf, id, s.occurrences.at[id].(personPending := Some(false)));
      TotalPut(s.occurrences, SteersOf, id, s.occurrences.at[id].(personPending := Some(false)));
    }
  }

  // ---- The bookkeeping of a run ----

  /** What the checks of the next envelope look at. */
  ghost predicate BooksTell(runId: string, s: Snapshot, run: seq<Envelope>) {
    && s.runId == runId
    && s.lastSequence == RunTheorems.LastSequenceOf(|run|)
    && (forall e :: e in run ==> s.protocolVersion == Some(e.protocolVersion))
    && (run == [] ==> s.protocolVersion.None? && s.eventDigests == map[])
    && (run != [] ==> s.eventDigests.Keys == {run[|run| - 1].sequence})
    && (run != [] ==> IsDecimal(run[|run| - 1].sequence) && DigitsValue(run[|run| - 1].sequence) == |run| - 1)
  }

  /** Everything that the next acceptance depends on. */
  ghost predicate IsTold(runId: string, s: Snapshot, run: seq<Envelope>) {
    Tells(s, run) && Lifecycle.RunOk(s) && CountsTell(s, run) && BooksTell(runId, s, run)
  }

  lemma BooksStep(runId: string, s: Snapshot, run: seq<Envelope>, env: Envelope)
    requires BooksTell(runId, s, run) && ReduceEvent(s, env).Ok?
    ensures BooksTell(runId, ReduceEvent(s, env).value, run + [env])
  {
    RunTheorems.ReduceBookkeeping(s, env);
    AdmittedVersion(s, env);
    AdmittedSequence(s, env);
    hide ReduceEvent, IsDecimal, DigitsValue;
    forall e | e in run + [env]
      ensures ReduceEvent(s, env).value.protocolVersion == Some(e.protocolVersion)
    {
      if e in run { assert s.protocolVersion == Some(e.protocolVersion); }
    }
  }

  lemma AdmittedVersion(s: Snapshot, env: Envelope)
    requires ReduceEvent(s, env).Ok?
    ensures s.protocolVersion.None? || s.protocolVersion == Some(env.protocolVersion)
    ensures Admit(s, env).Ok?
  {
    hide Apply, IsDecimal, DigitsValue;
  }

  lemma AdmittedSequence(s: Snapshot, env: Envelope)
    requires ReduceEvent(s, env).Ok?
    ensures IsDecimal(env.sequence) && DigitsValue(env.sequence) == ExpectedSequence(s)
  {
    hide Apply, DigitsValue;
  }

  lemma CountsStep(s: Snapshot, run: seq<Envelope>, env: Envelope)
    requires CountsTell(s, run) && Lifecycle.RunOk(s) && ReduceEvent(s, env).Ok?
    ensures CountsTell(ReduceEvent(s, env).value, run + [env])
  {
    AdmittedOpen(s, env);
    AdvanceIsOk(s, env);
    hide Apply, TotalOver, Collected, Lifecycle.RunOk, Admit;
    CountsMove(Advance(s, env), env);
    CollectedNext(run, env, AnyStartIn);
    CollectedNext(run, env, SteerIn);
    assert AttemptCount(Advance(s, env)) == AttemptCount(s) && SteerCount(Advance(s, env)) == SteerCount(s);
  }

  lemma AdmittedOpen(s: Snapshot, env: Envelope)
    requires ReduceEvent(s, env).Ok?
    ensures !IsTerminal(s.status)
  {
    hide Apply, IsDecimal, DigitsValue;
  }

  lemma AdvanceIsOk(s: Snapshot, env: Envelope)
    requires Lifecycle.RunOk(s)
    ensures Lifecycle.RunOk(Advance(s, env))
  {
    hide Lifecycle.OccurrenceOk, Lifecycle.LedgerOk, TotalOver;
  }

  lemma {:induction false} RunHasHistory(runId: string, run: seq<Envelope>)
    requires Replay(InitialSnapshot(runId), run).Ok?
    ensures IsTold(runId, Replay(InitialSnapshot(runId), run).value, run)
  {
    hide ReduceEvent, Tells, Lifecycle.RunOk, CountsTell, BooksTell;
    SnapshotTellsRun(runId, run);
    Lifecycle.ReachableIsOk(Replay(InitialSnapshot(runId), run).value);
    if run == [] {
      NothingCounted(runId);
    } else {
      var init, last := run[..|run| - 1], run[|run| - 1];
      RunHasHistory(runId, init);
      var before := Replay(InitialSnapshot(runId), init).value;
      CountsStep(before, init, last);
      BooksStep(runId, before, init, last);
      assert init + [last] == run;
    }
  }

  lemma NothingCounted(runId: string)
    ensures CountsTell(InitialSnapshot(runId), []) && BooksTell(runId, InitialSnapshot(runId), [])
  {
  }

  /** The checks of the envelope itself. */
  lemma EnvelopeExactly(runId: string, s: Snapshot, run: seq<Envelope>, env: Envelope)
    requires BooksTell(runId, s, run) && RunTells(s, run) && !s.status.Cancelling? && !s.status.Orphaned?
    ensures Admit(s, env).Ok? <==> EnvelopeFits(runId, run, env)
  {
    hide IsDecimal, DigitsValue, Latest;
    if run != [] {
      var last := run[|run| - 1];
      assert last in run;
      assert env.sequence in s.eventDigests ==> env.sequence == last.sequence;
    }
  }

  // ---- Acknowledgements ----

  lemma AckFieldsExactly(env: Envelope)
    requires env.event.ControlAcknowledged?
    ensures RecordOf(env).Ok? <==> AckFields(env)
    ensures AckFields(env) ==> IsOpening(RecordOf(env).value.state) == IsOpeningState(env.event.state)
    ensures AckFields(env) ==>
              (RecordOf(env).value.state in {AckDelivered, AckFailed})
              == (env.event.state in {Some("delivered"), Some("failed")})
  {
    hide IsDecimal, DigitsValue;
  }

  lemma {:induction false} UnmentionedControl(run: seq<Envelope>, c: string)
    ensures Latest(run, RecordIn(c)).Some? <==> c in FirstMentions(run, ControlIn)
  {
    if run != [] { UnmentionedControl(run[..|run| - 1], c); }
  }

  lemma {:induction false} LatestIsIn<T>(run: seq<Envelope>, read: Read<T>) returns (i: nat)
    requires Latest(run, read).Some?
    ensures i < |run| && read(run[i]) == Latest(run, read)
  {
    i := |run| - 1;
    if read(run[i]).None? { i := LatestIsIn(run[..i], read); }
  }

  /** The last record of a control and the envelope that it came from. */
  lemma PriorTells(s: Snapshot, run: seq<Envelope>, c: string)
    requires AcksTell(s.controlAcks, run)
    ensures PriorAck(s, c).Some? <==> Latest(run, RecordIn(c)).Some?
    ensures PriorAck(s, c).Some? ==> AckTells(PriorAck(s, c).value, Latest(run, RecordIn(c)).value)
    ensures Latest(run, RecordIn(c)).Some? ==>
              Latest(run, RecordIn(c)).value in run && ControlIn(Latest(run, RecordIn(c)).value) == Some(c)
  {
    hide AckTells, FirstMentions, Latest;
    UnmentionedControl(run, c);
    if Latest(run, RecordIn(c)).Some? {
      var i := LatestIsIn(run, RecordIn(c));
      assert RecordIn(c)(run[i]) == Some(run[i]);
    }
  }

  /** Two records that tell the same fields are the same. */
  lemma SameRecords(a: ControlAck, env: Envelope, b: ControlAck, prior: Envelope)
    requires AckTells(a, env) && AckTells(b, prior) && env.protocolVersion == prior.protocolVersion
    requires env.event.controlId == prior.event.controlId
    ensures (a.command == b.command && a.occurrenceId == b.occurrenceId && a.attemptId == b.attemptId)
            <==> SameTarget(env, prior)
    ensures a == b <==> Repeats(env, prior)
    ensures IsOpening(b.state) <==> IsOpeningState(prior.event.state)
    ensures b.state.AckAccepted? <==> prior.event.state == Some("accepted")
  {
    CommandNames(a, b);
    StateNames(a, b);
    hide CommandName, ReferenceText;
  }

  lemma CommandNames(a: ControlAck, b: ControlAck)
    ensures a.command.Some? && b.command.Some? ==>
              (CommandName(a.command.value) == CommandName(b.command.value) <==> a.command == b.command)
  {
  }

  lemma StateNames(a: ControlAck, b: ControlAck)
    ensures AckStateName(a.state) == AckStateName(b.state) <==> a.state == b.state
  {
  }

  lemma AnswersAre(ack: ControlAck, env: Envelope)
    requires AckTells(ack, env)
    ensures ack.command == Some(AnswerPerson) <==> env.protocolVersion == 2 && env.event.command == Some("answerPerson")
    ensures env.protocolVersion == 2 ==>
              && (ack.occurrenceId.Some? <==> env.event.occurrenceRef.Given? && env.event.occurrenceRef.field.Some?)
              && (ack.occurrenceId.Some? ==> env.event.occurrenceRef == Optional.Given(ack.occurrenceId))
              && (ack.attemptId.None? <==> env.event.attemptRef.Undefined?)
  {
  }

  lemma PendingExactly(s: Snapshot, run: seq<Envelope>, id: string)
    requires OccurrencesTell(s.occurrences, run)
    ensures (id in s.occurrences.at && s.occurrences.at[id].personPending == Some(true))
            <==> Latest(StoryOf(run, id), PendingIn) == Some(true)
  {
    hide OccurrencesTell, StartTells, EndTells, RecoveryTells, DispatchTells, AttemptsTell, Selected;
    MemberOf(s.occurrences, run, id);
  }

  lemma AnswerExactly(s: Snapshot, run: seq<Envelope>, env: Envelope, ack: ControlAck, prior: Option<ControlAck>,
                      last: Option<Envelope>)
    requires OccurrencesTell(s.occurrences, run) && AckTells(ack, env) && env.protocolVersion == 2
    requires ack.state in {AckDelivered, AckFailed} <==> env.event.state in {Some("delivered"), Some("failed")}
    requires prior.Some? <==> last.Some?
    requires last.Some? ==> last.value.event.ControlAcknowledged?
    requires prior.Some? ==> (prior.value.state.AckAccepted? <==> last.value.event.state == Some("accepted"))
    ensures AnswerPersonAck(s.occurrences, prior, ack).Ok? <==> AnswerMay(run, env, last)
  {
    hide OccurrencesTell, AckTells, StoryOf, Latest;
    AnswersAre(ack, env);
    if ack.occurrenceId.Some? { PendingExactly(s, run, ack.occurrenceId.value); }
  }

  lemma RecordExactly(s: Snapshot, run: seq<Envelope>, env: Envelope)
    requires AcksTell(s.controlAcks, run) && OccurrencesTell(s.occurrences, run)
    requires env.event.ControlAcknowledged? && AckFields(env) && RecordOf(env).Ok?
    requires forall e :: e in run ==> e.protocolVersion == env.protocolVersion
    ensures var last := Latest(run, RecordIn(env.event.controlId.value));
            && (last.Some? ==> last.value.event.ControlAcknowledged?)
            && (RecordAck(s, RecordOf(env).value).Ok?
                <==> (last.Some? && Repeats(env, last.value))
                     || (&& (if last.None? then |FirstMentions(run, ControlIn)| < 256
                             else && SameTarget(env, last.value)
                                  && IsOpeningState(last.value.event.state) && IsClosing(env.event.state))
                         && (env.protocolVersion == 2 && env.event.command == Some("answerPerson") ==>
                               AnswerMay(run, env, last))))
  {
    hide OccurrencesTell, AckTells, Latest, FirstMentions, AnswerPersonAck, AnswerMay, RecordOf, Repeats, SameTarget,
         AcksTell;
    var ack, c := RecordOf(env).value, env.event.controlId.value;
    AckSpelled(env);
    AckFieldsExactly(env);
    RecordNames(env, ack);
    PriorTells(s, run, c);
    OrderOfAcks(s, run);
    var prior, last := PriorAck(s, c), Latest(run, RecordIn(c));
    if prior.Some? { SameRecords(ack, env, prior.value, last.value); AcknowledgesControl(last.value, prior.value); }
    AnswersAre(ack, env);
    if env.protocolVersion == 2 { AnswerExactly(s, run, env, ack, prior, last); }
  }

  lemma OrderOfAcks(s: Snapshot, run: seq<Envelope>)
    requires AcksTell(s.controlAcks, run)
    ensures |s.controlAcks.order| == |FirstMentions(run, ControlIn)|
  {
    hide AckTells;
  }

  lemma AcknowledgesControl(env: Envelope, ack: ControlAck)
    requires AckTells(ack, env)
    ensures env.event.ControlAcknowledged? && env.event.controlId == Some(ack.controlId)
  {
  }

  lemma RecordNames(env: Envelope, ack: ControlAck)
    requires AckTells(ack, env)
    ensures env.event.ControlAcknowledged? && env.event.controlId == Some(ack.controlId)
  {
  }

  lemma AckExactly(s: Snapshot, run: seq<Envelope>, env: Envelope)
    requires Tells(s, run) && !s.status.Cancelling? && env.event.ControlAcknowledged?
    requires forall e :: e in run ==> e.protocolVersion == env.protocolVersion
    ensures Acknowledge(s, env.event, env.protocolVersion).Ok? <==> AckMay(run, env)
  {
    hide RecordAck, AckFields, Latest, FirstMentions, AnswerMay, Repeats, SameTarget, AcksTell, OccurrencesTell;
    AckFieldsExactly(env);
    if RecordOf(env).Ok? { RecordExactly(s, run, env); }
  }

  // ---- Events of the run ----

  lemma SettledExactly(s: Snapshot, run: seq<Envelope>)
    requires OccurrencesTell(s.occurrences, run)
    ensures AllSettled(s) <==> AllSettledIn(run)
    ensures s.occurrences.order == StartedOccurrences(run)
  {
    hide OccurrenceTells, Selected, Collected, StateAfter;
    forall id | id in s.occurrences.order
      ensures Settled(s.occurrences.at[id]) <==> IsSettled(StoryOf(run, id))
    {
      SettledOne(s, run, id);
    }
  }

  lemma SettledOne(s: Snapshot, run: seq<Envelope>, id: string)
    requires OccurrencesTell(s.occurrences, run) && id in s.occurrences.at
    ensures Settled(s.occurrences.at[id]) <==> IsSettled(StoryOf(run, id))
  {
    hide OccurrencesTell, StartTells, PersonTells, RecoveryTells, DispatchTells, AttemptsTell, Selected, Latest;
    MemberOf(s.occurrences, run, id);
  }

  lemma AnsweringExactly(field: Text)
    ensures PersonAnsweringOf(field).Ok? <==> field in {Some("engine"), Some("local-control")}
  {
  }

  lemma TraceExactly(s: Snapshot, run: seq<Envelope>, env: Envelope)
    requires RunTells(s, run) && OccurrencesTell(s.occurrences, run) && env.event.TraceOrdered?
    ensures OrderTrace(s, env.event.occurrenceIds).Ok? <==> RunMay(run, env)
  {
    hide OccurrencesTell, DistinctTexts, AllSettled, AllSettledIn, Latest, AreTexts, StartedOccurrences, TextsGiven;
    SettledExactly(s, run);
    DistinctTextsExactly(env.event.occurrenceIds);
    if DistinctTexts(env.event.occurrenceIds).Ok? {
      DistinctTextsAre(env.event.occurrenceIds);
      GivenAt(DistinctTexts(env.event.occurrenceIds).value);
    }
  }

  lemma GivenAt(texts: seq<string>)
    ensures |TextsGiven(texts)| == |texts| && forall i :: 0 <= i < |texts| ==> TextsGiven(texts)[i] == Some(texts[i])
  {
  }

  lemma CompletionExactly(s: Snapshot, run: seq<Envelope>, env: Envelope)
    requires RunTells(s, run) && OccurrencesTell(s.occurrences, run) && env.event.RunCompleted?
    ensures CompleteRun(s, env.event, env.protocolVersion).Ok? <==> RunMay(run, env)
  {
    hide OccurrencesTell, AllSettled, AllSettledIn, Latest, StartedOccurrences, IsDecimal, TextsGiven;
    SettledExactly(s, run);
    GivenAt(s.authoredOrder);
  }

  lemma PlainExactly(s: Snapshot, run: seq<Envelope>, env: Envelope)
    requires RunTells(s, run) && OccurrencesTell(s.occurrences, run) && !s.status.Cancelling?
    requires env.event.RunStarted? || env.event.OccurrenceStarted? || env.event.RunFailed? || env.event.RunCancelled?
    ensures Apply(s, env.event, env.protocolVersion).Ok? <==> RunMay(run, env)
  {
    hide Latest, IsDecimal, DigitsValue, FailureClassOf, IsFailure, OnOccurrence, OrderTrace, Acknowledge, CompleteRun,
         StartOccurrence, StartedOccurrences, AllSettledIn, PersonAnsweringOf;
    StatusIsTold(run);
    match env.event
    case RunStarted(_, _, answering) =>
      hide OccurrencesTell;
      AnsweringExactly(answering);
    case OccurrenceStarted(_, _, _, _, _) => OccurrenceStartExactly(s, run, env);
    case RunFailed(_, failure) =>
      hide OccurrencesTell;
      FailureExactly(failure);
    case _ =>
      hide OccurrencesTell;
  }

  lemma OccurrenceStartExactly(s: Snapshot, run: seq<Envelope>, env: Envelope)
    requires RunTells(s, run) && OccurrencesTell(s.occurrences, run) && !s.status.Cancelling?
    requires env.event.OccurrenceStarted?
    ensures StartOccurrence(s, env.event).Ok? <==> RunMay(run, env)
  {
    hide OccurrencesTell, Latest, StartedOccurrences, IsDecimal, DigitsValue, AllSettledIn;
    SettledExactly(s, run);
    StatusIsTold(run);
    WordExactly(env.event.occurrenceId, MAX_WORD64);
  }

  lemma StatusIsTold(run: seq<Envelope>)
    ensures Latest(run, StatusIn) != Some(Starting)
  {
    hide Latest;
    if Latest(run, StatusIn).Some? { var i := LatestIsIn(run, StatusIn); }
  }

  lemma OnOccurrenceExactly(s: Snapshot, run: seq<Envelope>, env: Envelope)
    requires Tells(s, run) && Lifecycle.RunOk(s) && CountsTell(s, run) && IsOccurrenceEvent(env.event)
    requires env.event.AttemptProgress? || env.event.PersonAnswerPending? ==> env.protocolVersion == 2
    ensures OnOccurrence(s, env.event).Ok? <==> RunMay(run, env)
  {
    hide OccurrencesTell, RunTells, AcksTell, OccurrenceTells, OccurrenceMay, ApplyOccurrence, StartedOccurrences,
         IsDecimal, DigitsValue, Latest,
         Collected, AllSettledIn, Lifecycle.OccurrenceOk, Lifecycle.LedgerOk, TotalOver, Selected;
    var e := env.event;
    SettledExactly(s, run);
    NamesOccurrence(e);
    WordExactly(e.occurrenceId, MAX_WORD64);
    if OccurrenceId(e.occurrenceId).Ok? && OccurrenceId(e.occurrenceId).value in s.occurrences.at {
      var id := OccurrenceId(e.occurrenceId).value;
      MemberOf(s.occurrences, run, id);
      OccurrenceExactly(s.occurrences.at[id], id, StoryOf(run, id), env, AttemptCount(s), SteerCount(s));
    }
  }

  /** Progress and questions need protocol 2. */
  lemma VersionNeeded(run: seq<Envelope>, env: Envelope)
    requires (env.event.AttemptProgress? || env.event.PersonAnswerPending?) && env.protocolVersion != 2
    ensures !RunMay(run, env)
  {
    hide RunsAfter, IsProgress, Latest, Collected, Selected, Since, SomeRuns, StateAfter;
  }

  lemma ApplyExactly(s: Snapshot, run: seq<Envelope>, env: Envelope)
    requires Tells(s, run) && Lifecycle.RunOk(s) && CountsTell(s, run)
    requires forall e :: e in run ==> e.protocolVersion == env.protocolVersion
    ensures Apply(s, env.event, env.protocolVersion).Ok? <==> RunMay(run, env)
  {
    hide RunMay, Lifecycle.OccurrenceOk, Lifecycle.LedgerOk, Lifecycle.BoundsOk, Lifecycle.TraceOk, Tells, CountsTell,
         OnOccurrence, OrderTrace,
         Acknowledge, CompleteRun, StartRun, StartOccurrence, FailRun, CancelRun;
    TellsParts(s, run);
    var e := env.event;
    if (e.AttemptProgress? || e.PersonAnswerPending?) && env.protocolVersion != 2 {
      VersionNeeded(run, env);
    } else if IsOccurrenceEvent(e) {
      OnOccurrenceExactly(s, run, env);
    } else if e.TraceOrdered? {
      TraceExactly(s, run, env);
    } else if e.ControlAcknowledged? {
      AckExactly(s, run, env);
      AckIsRunEvent(run, env);
    } else if e.RunCompleted? {
      CompletionExactly(s, run, env);
    } else if e.UnknownEventType? {
      UnknownRefused(run, env);
    } else {
      PlainExactly(s, run, env);
    }
  }

  lemma AckIsRunEvent(run: seq<Envelope>, env: Envelope)
    requires env.event.ControlAcknowledged?
    ensures RunMay(run, env) <==> AckMay(run, env)
  {
    hide AckMay;
  }

  lemma UnknownRefused(run: seq<Envelope>, env: Envelope)
    requires env.event.UnknownEventType?
    ensures !RunMay(run, env)
  {
  }

  /**
   What the next envelope must be is decided by the envelopes before it: it is accepted exactly when they admit it.
   */
  lemma AcceptedExactly(runId: string, run: seq<Envelope>, env: Envelope)
    requires Replay(InitialSnapshot(runId), run).Ok?
    ensures Replay(InitialSnapshot(runId), run + [env]).Ok? <==> MayFollow(runId, run, env)
  {
    hide ReduceEvent, Replay, Tells, Lifecycle.RunOk, CountsTell, EnvelopeFits, RunMay, MayFollow;
    RunHasHistory(runId, run);
    ReplayAppend(InitialSnapshot(runId), run, [env]);
    var s := Replay(InitialSnapshot(runId), run).value;
    OneReplayed(s, env);
    ReduceExactly(runId, s, run, env);
  }

  lemma OneReplayed(s: Snapshot, env: Envelope)
    ensures Replay(s, [env]) == ReduceEvent(s, env)
  {
    hide ReduceEvent;
    assert [env][..0] == [];
  }

  lemma ReduceExactly(runId: string, s: Snapshot, run: seq<Envelope>, env: Envelope)
    requires IsTold(runId, s, run)
    ensures ReduceEvent(s, env).Ok? <==> MayFollow(runId, run, env)
  {
    StatusKnown(s, run);
    hide Tells, Lifecycle.RunOk, Apply, Admit, EnvelopeFits, RunMay, RunTells;
    EnvelopeExactly(runId, s, run, env);
    if EnvelopeFits(runId, run, env) {
      SameVersions(runId, s, run, env);
      AdvanceTells(s, run, env);
      AdvanceCounts(s, run, env);
      ApplyExactly(Advance(s, env), run, env);
    }
  }

  lemma StatusKnown(s: Snapshot, run: seq<Envelope>)
    requires Tells(s, run) && Lifecycle.RunOk(s)
    ensures RunTells(s, run) && !s.status.Cancelling? && !s.status.Orphaned?
  {
    hide RunTells, AcksTell, OccurrencesTell, Lifecycle.OccurrenceOk, Lifecycle.LedgerOk, TotalOver;
  }

  lemma SameVersions(runId: string, s: Snapshot, run: seq<Envelope>, env: Envelope)
    requires BooksTell(runId, s, run) && EnvelopeFits(runId, run, env)
    ensures forall e :: e in run ==> e.protocolVersion == env.protocolVersion
  {
    hide IsDecimal, DigitsValue, Latest;
    if run != [] { assert run[|run| - 1] in run; }
  }

  lemma AdvanceCounts(s: Snapshot, run: seq<Envelope>, env: Envelope)
    requires CountsTell(s, run)
    ensures CountsTell(Advance(s, env), run)
  {
    hide TotalOver, Collected;
  }
}
