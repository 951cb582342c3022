/**
 The reducer as it runs: snapshots are graphs of mutable objects, an event mutates a deep copy of them while it
 is still being checked, and a refusal abandons the copy half-way (ext-pi/src/reducer.ts).
 */
module ReducerState {
  import opened Prelude
  import opened Snapshots
  import opened Fields
  import opened Reducer
  import opened Containers
  import OutputTail

  /** A step that mutates an object ends as its specification says: refused for the same reason, or with that value. */
  ghost predicate Agrees<V>(r: Result<()>, spec: Result<V>, value: V) {
    match spec
    case Refused(reason) => r == Refused(reason)
    case Ok(v) => r.Ok? && value == v
  }

  class AttemptObject {
    const id: string
    var target: string
    var state: AttemptState
    var output: string
    const steers: ListCell<Steer>
    const messages: ListCell<string>
    const tools: TableCell<Tool>
    var todos: seq<Todo>
    var usage: Option<Usage>
    const reasoning: ListCell<string>
    var failure: Option<string>
    var failureClass: Option<FailureClass>

    /** The attempt and the containers that it mutates. */
    ghost function Parts(): set<object> { {this, steers, messages, tools, reasoning} }

    /** Messages and reasoning summaries are two arrays. */
    ghost predicate Apart() { messages != reasoning }

    ghost function Value(): Attempt
      reads Parts()
    {
      Attempt(id, target, state, output, steers.items, messages.items, tools.table, todos, usage, reasoning.items,
              failure, failureClass)
    }

    constructor (id: string, target: string)
      ensures Apart() && fresh(Parts())
      ensures this.id == id && Value() == NewAttempt(id, target)
    {
      this.id, this.target, state, output := id, target, AttRunning, "";
      steers := new ListCell([]);
      messages := new ListCell([]);
      tools := new TableCell(EmptyTable());
      todos, usage := [], None;
      reasoning := new ListCell([]);
      failure, failureClass := None, None;
    }

    constructor Copy(other: AttemptObject)
      ensures Apart() && fresh(Parts())
      ensures id == other.id && Value() == other.Value()
    {
      id, target, state, output := other.id, other.target, other.state, other.output;
      steers := new ListCell(other.steers.items);
      messages := new ListCell(other.messages.items);
      tools := new TableCell(other.tools.table);
      todos, usage := other.todos, other.usage;
      reasoning := new ListCell(other.reasoning.items);
      failure, failureClass := other.failure, other.failureClass;
    }

    method ShowProgress(progress: Progress) returns (r: Result<()>)
      requires Apart()
      modifies Parts()
      ensures Agrees(r, ApplyProgress(old(Value()), progress), Value())
    {
      match progress
      case MessageProgress(text) =>
        var content :- BoundedText(text, 4096);
        messages.Push(content);
        messages.KeepLast(MAX_MESSAGES);
        return Ok(());
      case ReasoningProgress(text) =>
        var content :- BoundedText(text, 4096);
        reasoning.Push(content);
        reasoning.KeepLast(MAX_SUMMARIES);
        return Ok(());
      case ToolProgress(None) => return Refused(BadField);
      case ToolProgress(Some(update)) =>
        var tool :- UpdatedTool(tools.table, update);
        tools.Set(tool.id, tool);
        return Ok(());
      case TodosProgress(None) => return Refused(BadField);
      case TodosProgress(Some(items)) =>
        if |items| > MAX_TODOS { return Refused(BadField); }
        var next :- TodosOf(items);
        todos := next;
        return Ok(());
      case UsageProgress(None) => return Refused(BadField);
      case UsageProgress(Some(raw)) =>
        var window :- UsageOf(raw);
        usage := Some(window);
        return Ok(());
      case NotProgress => return Refused(BadField);
    }

    method Accept(e: Event, steerCount: nat) returns (r: Result<()>)
      requires Apart() && IsAttemptEvent(e)
      modifies Parts()
      ensures Agrees(r, ApplyAttempt(old(Value()), e, steerCount), Value())
    {
      hide ApplyProgress;
      if !state.AttRunning? { return Refused(WrongState); }
      match e
      case AttemptOutput(_, _, chunk) =>
        var text :- TextOf(chunk);
        output := OutputTail.Tail(output + text);
        return Ok(());
      case AttemptProgress(_, _, progress) =>
        r := ShowProgress(progress);
      case AttemptSteered(_, _, rawTiming, rawControl, rawText) =>
        if steerCount >= MAX_STEERS { return Refused(LimitExceeded); }
        var timing :- TimingOf(rawTiming);
        var controlId :- TextOf(rawControl);
        var text :- TextOf(rawText);
        steers.Push(Steer(controlId, timing, text));
        return Ok(());
      case AttemptCompleted(_, _) =>
        state := AttCompleted;
        return Ok(());
      case AttemptFailed(_, _, rawMessage, rawFailure) =>
        state := AttFailed;
        var message :- TextOf(rawMessage);
        failure := Some(message);
        var kind :- FailureClassOf(rawFailure);
        failureClass := Some(kind);
        return Ok(());
    }
  }

  class DispatchObject {
    var targets: seq<string>
    var open: bool
    var redirect: Option<Redirect>

    ghost function Value(): Dispatch
      reads this
    {
      Dispatch(targets, open, redirect)
    }

    constructor (v: Dispatch)
      ensures Value() == v
    {
      targets, open, redirect := v.targets, v.open, v.redirect;
    }

    constructor Copy(other: DispatchObject)
      ensures Value() == other.Value()
    {
      targets, open, redirect := other.targets, other.open, other.redirect;
    }
  }

  class RecoveryObject {
    var gap: string
    var message: string
    const retries: ListCell<string>
    var choices: seq<Offer>
    var chosen: Option<Chosen>

    ghost function Value(): Recovery
      reads this, retries
    {
      Recovery(gap, message, retries.items, choices, chosen)
    }

    constructor (gap: string, message: string, choices: seq<Offer>)
      ensures fresh(retries) && Value() == Recovery(gap, message, [], choices, None)
    {
      this.gap, this.message, this.choices, chosen := gap, message, choices, None;
      retries := new ListCell([]);
    }

    constructor Copy(other: RecoveryObject)
      ensures fresh(retries) && Value() == other.Value()
    {
      gap, message, choices, chosen := other.gap, other.message, other.choices, other.chosen;
      retries := new ListCell(other.retries.items);
    }
  }

  /** A table of attempts whose parts lie in `cells`, each attempt owning its parts alone. */
  ghost predicate OwnedAttempts(attempts: Table<AttemptObject>, cells: set<object>) {
    && (forall k :: k in attempts.at ==>
          attempts.at[k].Parts() <= cells && attempts.at[k].Apart() && attempts.at[k].id == k)
    && (forall j, k :: j in attempts.at && k in attempts.at && j != k ==>
          attempts.at[j].Parts() !! attempts.at[k].Parts())
  }

  /** The values of a table of attempts. */
  ghost function ValuesOf(attempts: Table<AttemptObject>, cells: set<object>): (r: Table<Attempt>)
    requires OwnedAttempts(attempts, cells)
    reads cells
    ensures r.order == attempts.order && r.at.Keys == attempts.at.Keys
  {
    Entries(attempts.order, map k | k in attempts.at :: attempts.at[k].Value())
  }

  lemma AttemptAt(attempts: Table<AttemptObject>, cells: set<object>, key: string)
    requires OwnedAttempts(attempts, cells) && key in attempts.at
    ensures attempts.at[key].Parts() <= cells && attempts.at[key].Apart() && attempts.at[key].id == key
    ensures ValuesOf(attempts, cells).at[key] == attempts.at[key].Value()
  {
    hide AttemptObject.Value, AttemptObject.Parts, AttemptObject.Apart;
  }

  /** Entering an attempt whose parts are all new keeps the attempts apart. */
  lemma EnterAttempt(attempts: Table<AttemptObject>, cells: set<object>, key: string, attempt: AttemptObject)
    requires OwnedAttempts(attempts, cells) && key !in attempts.at
    requires attempt.Apart() && attempt.id == key && attempt.Parts() !! cells
    ensures OwnedAttempts(Put(attempts, key, attempt), cells + attempt.Parts())
    ensures ValuesOf(Put(attempts, key, attempt), cells + attempt.Parts())
            == Put(ValuesOf(attempts, cells), key, attempt.Value())
  {
    hide AttemptObject.Value, AttemptObject.Parts, AttemptObject.Apart;
    assert ValuesOf(Put(attempts, key, attempt), cells + attempt.Parts()).at
           == ValuesOf(attempts, cells).at[key := attempt.Value()];
  }

  class OccurrenceObject {
    const id: string
    var state: OccurrenceState
    var code: string
    var intent: string
    var addressee: string
    var prompt: string
    var answer: Option<string>
    var dispatch: DispatchObject?
    var recovery: RecoveryObject?
    var reuseKind: Option<string>
    var source: Option<string>
    var failureClass: Option<FailureClass>
    var replayable: bool
    var personQuestion: Option<QuestionRef>
    var personPending: Option<bool>
    const attempts: TableCell<AttemptObject>

    /** The objects that belong to the occurrence, itself included, and those of them that belong to its attempts. */
    ghost var Repr: set<object>
    ghost var AttemptCells: set<object>

    ghost predicate Valid()
      reads this, attempts
      ensures Valid() ==> {this, attempts} <= Repr
    {
      && {this, attempts} <= Repr && AttemptCells <= Repr && {this, attempts} !! AttemptCells
      && (dispatch != null ==> dispatch in Repr && dispatch !in AttemptCells)
      && (recovery != null ==> {recovery, recovery.retries} <= Repr && {recovery, recovery.retries} !! AttemptCells)
      && OwnedAttempts(attempts.table, AttemptCells)
    }

    ghost function Attempts(): Table<Attempt>
      requires Valid()
      reads this, Repr
    {
      ValuesOf(attempts.table, AttemptCells)
    }

    ghost function Value(): Occurrence
      requires Valid()
      reads this, Repr
    {
      Occurrence(id, state, code, intent, addressee, prompt, answer,
                 if dispatch == null then None else Some(dispatch.Value()),
                 if recovery == null then None else Some(recovery.Value()),
                 reuseKind, source, failureClass, replayable, personQuestion, personPending, Attempts())
    }

    constructor (id: string, code: string, intent: string, addressee: string, prompt: string)
      ensures Valid() && fresh(Repr) && this.id == id
      ensures Value() == Occurrence(id, OccRunning, code, intent, addressee, prompt, None, None, None, None, None, None,
                                    true, None, None, EmptyTable())
    {
      this.id, state, this.code, this.intent, this.addressee, this.prompt := id, OccRunning, code, intent, addressee,
        prompt;
      answer, dispatch, recovery, reuseKind, source, failureClass := None, null, null, None, None, None;
      var none := new TableCell<AttemptObject>(EmptyTable());
      replayable, personQuestion, personPending, attempts := true, None, None, none;
      Repr, AttemptCells := {this, none}, {};
      new;
      assert ValuesOf(attempts.table, AttemptCells) == EmptyTable();
    }

    /** A copy around parts that are copies themselves. */
    constructor Assemble(other: OccurrenceObject, copiedDispatch: DispatchObject?, copiedRecovery: RecoveryObject?,
                         copiedAttempts: TableCell<AttemptObject>, ghost cells: set<object>,
                         ghost attemptCells: set<object>)
      requires other.Valid()
      requires copiedDispatch != null ==> copiedDispatch in cells
      requires copiedRecovery != null ==> copiedRecovery in cells && copiedRecovery.retries in cells
      requires copiedAttempts in cells && OwnedAttempts(copiedAttempts.table, attemptCells) && cells !! attemptCells
      ensures Valid() && Repr == {this} + cells + attemptCells && AttemptCells == attemptCells && id == other.id
      ensures dispatch == copiedDispatch && recovery == copiedRecovery && attempts == copiedAttempts
      ensures state == other.state && code == other.code && intent == other.intent && addressee == other.addressee
      ensures prompt == other.prompt && answer == other.answer && reuseKind == other.reuseKind && source == other.source
      ensures failureClass == other.failureClass && replayable == other.replayable
      ensures personQuestion == other.personQuestion && personPending == other.personPending
    {
      hide OwnedAttempts;
      id, state, code, intent, addressee, prompt := other.id, other.state, other.code, other.intent, other.addressee,
        other.prompt;
      answer, reuseKind, source, failureClass := other.answer, other.reuseKind, other.source, other.failureClass;
      replayable, personQuestion, personPending := other.replayable, other.personQuestion, other.personPending;
      dispatch, recovery, attempts := copiedDispatch, copiedRecovery, copiedAttempts;
      Repr, AttemptCells := {this} + cells + attemptCells, attemptCells;
    }

    /**
     The deep copy that shields the previous snapshot: attempts, dispatch, recovery and their containers are copied.
     */
    static method CopyOf(other: OccurrenceObject) returns (copy: OccurrenceObject)
      requires other.Valid()
      ensures copy.Valid() && fresh(copy.Repr) && copy.id == other.id
      ensures copy.Value() == other.Value()
    {
      hide ValuesOf, OwnedAttempts, DispatchObject.Value, RecoveryObject.Value, AttemptObject.Value;
      var copiedDispatch, dispatchCells := CopyDispatch(other.dispatch);
      var copiedRecovery, recoveryCells := CopyRecovery(other.recovery);
      var copiedAttempts, attemptCells := CopyAttempts(other.attempts.table, other.AttemptCells);
      var table := new TableCell(copiedAttempts);
      copy := new OccurrenceObject.Assemble(other, copiedDispatch, copiedRecovery, table,
                                            dispatchCells + recoveryCells + {table}, attemptCells);
    }

    static method CopyDispatch(d: DispatchObject?) returns (copy: DispatchObject?, ghost cells: set<object>)
      ensures fresh(cells)
      ensures if d == null then copy == null else copy != null && copy in cells && copy.Value() == d.Value()
    {
      copy, cells := null, {};
      if d != null {
        copy := new DispatchObject.Copy(d);
        cells := {copy};
      }
    }

    static method CopyRecovery(r: RecoveryObject?) returns (copy: RecoveryObject?, ghost cells: set<object>)
      ensures fresh(cells)
      ensures if r == null then copy == null
              else copy != null && {copy, copy.retries} <= cells && copy.Value() == r.Value()
    {
      copy, cells := null, {};
      if r != null {
        copy := new RecoveryObject.Copy(r);
        cells := {copy, copy.retries};
      }
    }

    static method CopyAttempts(source: Table<AttemptObject>,
                               ghost owner: set<object>) returns (copy: Table<AttemptObject>, ghost cells: set<object>)
      requires OwnedAttempts(source, owner)
      ensures fresh(cells) && OwnedAttempts(copy, cells)
      ensures ValuesOf(copy, cells) == ValuesOf(source, owner)
    {
      ghost var values := ValuesOf(source, owner);
      copy, cells := EmptyTable(), {};
      assert ValuesOf(copy, cells) == FirstOf(values, 0);
      hide OwnedAttempts, ValuesOf, FirstOf;
      for i := 0 to |source.order|
        invariant fresh(cells) && OwnedAttempts(copy, cells)
        invariant ValuesOf(copy, cells) == FirstOf(values, i)
      {
        copy, cells := CopyAttempt(source, owner, copy, cells, i);
      }
      FirstOfAll(values);
    }

    static method CopyAttempt(source: Table<AttemptObject>, ghost owner: set<object>, copied: Table<AttemptObject>,
                              ghost before: set<object>, i: nat)
      returns (copy: Table<AttemptObject>, ghost cells: set<object>)
      requires OwnedAttempts(source, owner) && i < |source.order| && OwnedAttempts(copied, before)
      requires ValuesOf(copied, before) == FirstOf(ValuesOf(source, owner), i)
      ensures fresh(cells - before) && OwnedAttempts(copy, cells)
      ensures ValuesOf(copy, cells) == FirstOf(ValuesOf(source, owner), i + 1)
    {
      hide OwnedAttempts, ValuesOf, AttemptObject.Value, AttemptObject.Parts, AttemptObject.Apart, FirstOf;
      var key := source.order[i];
      FirstOfNext(ValuesOf(source, owner), i);
      AttemptAt(source, owner, key);
      var attempt := new AttemptObject.Copy(source.at[key]);
      assert key !in copied.at by { assert key !in ValuesOf(copied, before).at; }
      EnterAttempt(copied, before, key, attempt);
      copy, cells := Put(copied, key, attempt), before + attempt.Parts();
    }

    method StartAttempt(occurrenceId: string, attempt: Text, rawTarget: Text, attemptCount: nat) returns (r: Result<()>)
      requires Valid()
      modifies this, attempts, dispatch
      ensures Valid() && fresh(Repr - old(Repr))
      ensures Agrees(r, Reducer.StartAttempt(occurrenceId, old(Value()), attempt, rawTarget, attemptCount), Value())
    {
      hide ValuesOf, OwnedAttempts, NewAttempt, AttemptId, CloseDispatch, DispatchObject.Value, RecoveryObject.Value;
      var key :- AttemptId(occurrenceId, attempt);
      if !state.OccRunning? { return Refused(WrongState); }
      if key in attempts.table.at { return Refused(Duplicate); }
      if attemptCount >= MAX_ATTEMPTS { return Refused(LimitExceeded); }
      StopDispatch();
      var target :- TextOf(rawTarget);
      AddAttempt(key, target);
      return Ok(());
    }

    method StopDispatch()
      requires Valid()
      modifies dispatch
      ensures Valid()
      ensures Value() == old(Value()).(dispatch := CloseDispatch(old(Value()).dispatch))
    {
      hide ValuesOf, OwnedAttempts, RecoveryObject.Value;
      if dispatch != null { dispatch.open := false; }
    }

    method AddAttempt(key: string, target: string)
      requires Valid() && key !in attempts.table.at
      modifies attempts, this`Repr, this`AttemptCells
      ensures Valid() && fresh(Repr - old(Repr))
      ensures Attempts() == Put(old(Attempts()), key, NewAttempt(key, target))
    {
      hide AttemptObject.Value, AttemptObject.Parts, AttemptObject.Apart, NewAttempt, OwnedAttempts, ValuesOf;
      ghost var before, cells := ValuesOf(attempts.table, AttemptCells), AttemptCells;
      var started := new AttemptObject(key, target);
      assert ValuesOf(attempts.table, cells) == before;
      EnterAttempt(attempts.table, cells, key, started);
      ghost var entered := Put(attempts.table, key, started);
      assert ValuesOf(entered, cells + started.Parts()) == Put(before, key, NewAttempt(key, target));
      attempts.Set(key, started);
      Repr, AttemptCells := Repr + started.Parts(), cells + started.Parts();
      assert attempts.table == entered;
    }

    method OnAttempt(occurrenceId: string, e: Event, steerCount: nat) returns (r: Result<()>)
      requires Valid() && IsAttemptEvent(e)
      modifies Repr
      ensures Valid() && Repr == old(Repr)
      ensures Agrees(r, Reducer.OnAttempt(occurrenceId, old(Value()), e, steerCount), Value())
    {
      hide AttemptObject.Value, ApplyAttempt, AttemptId, DispatchObject.Value, RecoveryObject.Value, ValuesOf,
           OwnedAttempts;
      var key :- AttemptId(occurrenceId, e.attempt);
      if key !in attempts.table.at { return Refused(Unknown); }
      r := ChangeAttempt(key, e, steerCount);
      if r.Ok? && e.AttemptSteered? { replayable := false; }
    }

    /** The event on one attempt; the others are left alone. */
    method ChangeAttempt(key: string, e: Event, steerCount: nat) returns (r: Result<()>)
      requires Valid() && IsAttemptEvent(e) && key in attempts.table.at
      modifies AttemptCells
      ensures Valid()
      ensures Agrees(r, ApplyAttempt(old(Attempts()).at[key], e, steerCount), Attempts().at[key])
      ensures Attempts() == Put(old(Attempts()), key, Attempts().at[key])
    {
      hide AttemptObject.Value, AttemptObject.Apart, ApplyAttempt;
      ghost var before := Attempts();
      r := attempts.table.at[key].Accept(e, steerCount);
      assert Attempts().at == before.at[key := attempts.table.at[key].Value()];
    }

    method ChooseRecovery(rawChoice: Text, target: Option<string>, rawControl: Text) returns (r: Result<()>)
      requires Valid()
      modifies recovery
      ensures Valid()
      ensures Agrees(r, Reducer.ChooseRecovery(old(Value()), rawChoice, target, rawControl), Value())
    {
      hide ValuesOf, OwnedAttempts;
      if recovery == null || !state.OccRecovering? { return Refused(WrongState); }
      if recovery.chosen.Some? { return Refused(Duplicate); }
      var name :- TextOf(rawChoice);
      if ChoiceNamed(name).None? || Offer(ChoiceNamed(name).value, target) !in recovery.choices {
        return Refused(NotOffered);
      }
      var controlId :- TextOf(rawControl);
      recovery.chosen := Some(Chosen(controlId, Offer(ChoiceNamed(name).value, target)));
      return Ok(());
    }

    method Reuse(rawGroup: Text) returns (r: Result<()>)
      requires Valid()
      modifies this`state, this`reuseKind, dispatch
      ensures Valid()
      ensures Agrees(r, Reducer.Reuse(old(Value()), rawGroup), Value())
    {
      hide ValuesOf, OwnedAttempts;
      if !state.OccRunning? || attempts.table.order != [] || personPending == Some(true) { return Refused(WrongState); }
      state := OccReused;
      var group :- TextOf(rawGroup);
      reuseKind := Some(group);
      if dispatch != null { dispatch.open := false; }
      return Ok(());
    }

    /** The state changes before the offers are looked at, so a refusal leaves this copy half-changed. */
    method AwaitRecovery(rawChoices: Option<seq<Option<RawOffer>>>, rawGap: Text,
                         rawMessage: Text) returns (r: Result<()>)
      requires Valid()
      modifies this`state, this`recovery, this`Repr
      ensures Valid() && fresh(Repr - old(Repr))
      ensures Agrees(r, Reducer.AwaitRecovery(old(Value()), rawChoices, rawGap, rawMessage), Value())
    {
      hide ValuesOf, OwnedAttempts, DispatchObject.Value, AttemptObject.Value, CheckedOffers;
      if !state.OccRunning? { return Refused(WrongState); }
      state := OccRecovering;
      var choices :- CheckedOffers(rawChoices);
      var gap :- TextOf(rawGap);
      var message :- TextOf(rawMessage);
      ReplaceRecovery(gap, message, choices);
      return Ok(());
    }

    method ReplaceRecovery(gap: string, message: string, choices: seq<Offer>)
      requires Valid()
      modifies this`recovery, this`Repr
      ensures Valid() && fresh(Repr - old(Repr))
      ensures Value() == old(Value()).(recovery := Some(Recovery(gap, message, [], choices, None)))
    {
      hide ValuesOf, OwnedAttempts, DispatchObject.Value;
      recovery := new RecoveryObject(gap, message, choices);
      Repr := Repr + {recovery, recovery.retries};
    }

    method Retry(rawControl: Text) returns (r: Result<()>)
      requires Valid()
      modifies this`state, if recovery != null then {recovery.retries} else {}
      ensures Valid()
      ensures Agrees(r, RetryOccurrence(old(Value()), rawControl), Value())
    {
      hide ValuesOf, OwnedAttempts;
      if recovery == null || !state.OccRecovering? { return Refused(WrongState); }
      if recovery.chosen.None? || recovery.chosen.value.offer.choice.Abandon? { return Refused(WrongState); }
      if |recovery.retries.items| >= MAX_HISTORY { return Refused(LimitExceeded); }
      var controlId :- TextOf(rawControl);
      recovery.retries.Push(controlId);
      state := OccRunning;
      return Ok(());
    }

    method OpenDispatch(rawTargets: Option<seq<Text>>) returns (r: Result<()>)
      requires Valid()
      modifies this`dispatch, this`Repr
      ensures Valid() && fresh(Repr - old(Repr))
      ensures Agrees(r, Reducer.OpenDispatch(old(Value()), rawTargets), Value())
    {
      hide ValuesOf, OwnedAttempts;
      if !state.OccRunning? || dispatch != null { return Refused(WrongState); }
      var targets :- DispatchTargets(rawTargets);
      ReplaceDispatch(Dispatch(targets, true, None));
      return Ok(());
    }

    /** The fields that guards look at. */
    lemma ValueShows()
      requires Valid()
      ensures Value().state == state && Value().personPending == personPending && Value().attempts == Attempts()
    {
      hide ValuesOf, OwnedAttempts;
    }

    method FindRunning() returns (running: Option<string>)
      requires Valid()
      ensures running == FirstRunning(Attempts().order, Attempts().at)
      ensures running.Some? <==> HasRunningAttempt(Attempts())
    {
      ghost var values := Attempts();
      running := None;
      for i := 0 to |attempts.table.order|
        invariant FirstRunning(attempts.table.order[i..], values.at) == FirstRunning(attempts.table.order, values.at)
      {
        var key := attempts.table.order[i];
        assert attempts.table.order[i..][0] == key && attempts.table.order[i..][1..] == attempts.table.order[i + 1..];
        if attempts.table.at[key].state.AttRunning? {
          assert values.at[key].state.AttRunning? && key in values.order;
          return Some(key);
        }
      }
    }

    method CountSteers() returns (n: nat)
      requires Valid()
      ensures n == SteersOf(Value())
    {
      hide TotalOver;
      ghost var values := Attempts();
      n := 0;
      NothingTotals(values.at, SteersOfAttempt);
      for i := 0 to |attempts.table.order|
        invariant n == TotalOver(attempts.table.order[..i], values.at, SteersOfAttempt)
      {
        var key := attempts.table.order[i];
        assert attempts.table.order[..i] + [key] == attempts.table.order[..i + 1];
        TotalAppended(attempts.table.order[..i], values.at, SteersOfAttempt, key);
        n := n + |attempts.table.at[key].steers.items|;
      }
      assert attempts.table.order[..|attempts.table.order|] == attempts.table.order;
    }

    method Redirect(rawTarget: Text, rawControl: Text) returns (r: Result<()>)
      requires Valid()
      modifies this`dispatch, this`Repr, dispatch
      ensures Valid() && fresh(Repr - old(Repr))
      ensures Agrees(r, RedirectTo(old(Value()), rawTarget, rawControl), Value())
    {
      hide ValuesOf, OwnedAttempts, FirstRunning, RecoveryObject.Value;
      var target :- TextOf(rawTarget);
      var controlId :- TextOf(rawControl);
      var running := FindRunning();
      if dispatch != null && dispatch.open && target in dispatch.targets {
        dispatch.open := false;
        dispatch.redirect := Some(Snapshots.Redirect(controlId, target, None));
        return Ok(());
      }
      if running.Some? && (dispatch == null || target in dispatch.targets) {
        ReplaceDispatch(Dispatch(if dispatch != null then dispatch.targets else [target], false,
                                 Some(Snapshots.Redirect(controlId, target, running))));
        return Ok(());
      }
      return Refused(NotOffered);
    }

    method ReplaceDispatch(d: Dispatch)
      requires Valid()
      modifies this`dispatch, this`Repr
      ensures Valid() && fresh(Repr - old(Repr))
      ensures Value() == old(Value()).(dispatch := Some(d))
    {
      hide ValuesOf, OwnedAttempts;
      dispatch := new DispatchObject(d);
      Repr := Repr + {dispatch};
    }

    method AwaitPerson(question: Option<QuestionRef>) returns (r: Result<()>)
      requires Valid()
      modifies this`personQuestion, this`personPending
      ensures Valid()
      ensures Agrees(r, Reducer.AwaitPerson(old(Value()), question), Value())
    {
      hide ValuesOf, OwnedAttempts;
      if !state.OccRunning? || !IsPersonAddressee(addressee) || attempts.table.order != []
         || personPending == Some(true) || personQuestion.Some? {
        return Refused(WrongState);
      }
      if question.None? { return Refused(BadField); }
      personQuestion := question;
      personPending := Some(true);
      return Ok(());
    }

    method StopWaiting()
      requires Valid()
      modifies this`personPending
      ensures Valid()
      ensures Value() == old(Value()).(personPending := Some(false))
    {
      hide ValuesOf, OwnedAttempts, DispatchObject.Value, RecoveryObject.Value;
      personPending := Some(false);
    }

    method Complete(rawSource: Text, rawAnswer: Text) returns (r: Result<()>)
      requires Valid()
      modifies this`state, this`source, this`answer
      ensures Valid()
      ensures Agrees(r, CompleteOccurrence(old(Value()), rawSource, rawAnswer), Value())
    {
      hide ValuesOf, OwnedAttempts, HasRunningAttempt, FirstRunning, Value, AttemptObject.Value;
      ValueShows();
      var running := FindRunning();
      if (!state.OccRunning? && !state.OccReused?) || personPending == Some(true) || running.Some? {
        return Refused(WrongState);
      }
      r := TakeAnswer(rawSource, rawAnswer);
    }

    /** The state is set first, then the fields are read. */
    method TakeAnswer(rawSource: Text, rawAnswer: Text) returns (r: Result<()>)
      requires Valid()
      modifies this`state, this`source, this`answer
      ensures Valid()
      ensures r == if rawSource.Some? && rawAnswer.Some? then Ok(()) else Refused(BadField)
      ensures r.Ok? ==> Value() == old(Value()).(state := if old(state).OccReused? then OccReused else OccCompleted,
                                                 source := rawSource, answer := rawAnswer)
    {
      hide ValuesOf, OwnedAttempts, DispatchObject.Value, RecoveryObject.Value, AttemptObject.Value;
      state := if state.OccReused? then OccReused else OccCompleted;
      var givenSource :- TextOf(rawSource);
      source := Some(givenSource);
      var givenAnswer :- TextOf(rawAnswer);
      answer := Some(givenAnswer);
      return Ok(());
    }

    method Fail(rawMessage: Text, rawFailure: Text) returns (r: Result<()>)
      requires Valid()
      modifies this`state, this`answer, this`failureClass
      ensures Valid()
      ensures Agrees(r, FailOccurrence(old(Value()), rawMessage, rawFailure), Value())
    {
      hide ValuesOf, OwnedAttempts, FailureClassOf, HasRunningAttempt, FirstRunning, Value, AttemptObject.Value;
      ValueShows();
      var running := FindRunning();
      if state.OccCompleted? || state.OccReused? || state.OccFailed? || state.OccCancelled? || running.Some? {
        return Refused(WrongState);
      }
      r := TakeFailure(rawMessage, rawFailure);
    }

    method TakeFailure(rawMessage: Text, rawFailure: Text) returns (r: Result<()>)
      requires Valid()
      modifies this`state, this`answer, this`failureClass
      ensures Valid()
      ensures if rawMessage.None? then r == Refused(BadField)
              else match FailureClassOf(rawFailure)
                   case Refused(reason) => r == Refused(reason)
                   case Ok(kind) =>
                     r.Ok?
                     && Value() == old(Value()).(state := OccFailed, answer := rawMessage, failureClass := Some(kind))
    {
      hide ValuesOf, OwnedAttempts, FailureClassOf, DispatchObject.Value, RecoveryObject.Value, AttemptObject.Value;
      state := OccFailed;
      var message :- TextOf(rawMessage);
      answer := Some(message);
      var kind :- FailureClassOf(rawFailure);
      failureClass := Some(kind);
      return Ok(());
    }

    method Accept(occurrenceId: string, e: Event, attemptCount: nat, steerCount: nat) returns (r: Result<()>)
      requires Valid() && IsOccurrenceEvent(e)
      modifies Repr
      ensures Valid() && fresh(Repr - old(Repr))
      ensures Agrees(r, ApplyOccurrence(occurrenceId, old(Value()), e, attemptCount, steerCount), Value())
    {
      hide Value;
      if IsAttemptEvent(e) {
        r := OnAttempt(occurrenceId, e, steerCount);
        return;
      }
      match e
      case AttemptStarted(_, attempt, target) => r := StartAttempt(occurrenceId, attempt, target, attemptCount);
      case RecoveryChosen(_, choice, target, controlId) => r := ChooseRecovery(choice, target, controlId);
      case OccurrenceReused(_, group) => r := Reuse(group);
      case RecoveryPending(_, choices, gap, message) => r := AwaitRecovery(choices, gap, message);
      case OccurrenceRetried(_, controlId) => r := Retry(controlId);
      case DispatchPending(_, targets) => r := OpenDispatch(targets);
      case OccurrenceRedirected(_, target, controlId) => r := Redirect(target, controlId);
      case PersonAnswerPending(_, question) => r := AwaitPerson(question);
      case OccurrenceCompleted(_, givenSource, givenAnswer) => r := Complete(givenSource, givenAnswer);
      case OccurrenceFailed(_, message, failure) => r := Fail(message, failure);
    }
  }

  /** A table of occurrences whose objects lie in `cells`, each occurrence owning its objects alone. */
  ghost predicate Owned(occurrences: Table<OccurrenceObject>, cells: set<object>)
    reads cells
  {
    && (forall k :: k in occurrences.at ==>
          && occurrences.at[k] in cells && occurrences.at[k].attempts in cells && occurrences.at[k].Repr <= cells
          && occurrences.at[k].Valid() && occurrences.at[k].id == k)
    && (forall j, k :: j in occurrences.at && k in occurrences.at && j != k ==>
          occurrences.at[j].Repr !! occurrences.at[k].Repr)
  }

  ghost function OccurrencesOf(occurrences: Table<OccurrenceObject>, cells: set<object>): (r: Table<Occurrence>)
    requires Owned(occurrences, cells)
    reads cells
    ensures r.order == occurrences.order && r.at.Keys == occurrences.at.Keys
  {
    Entries(occurrences.order, map k | k in occurrences.at :: occurrences.at[k].Value())
  }

  /** Entering an occurrence whose objects are all new keeps the occurrences apart. */
  lemma EnterOccurrence(occurrences: Table<OccurrenceObject>, cells: set<object>, key: string,
                        occurrence: OccurrenceObject)
    requires Owned(occurrences, cells) && key !in occurrences.at
    requires occurrence.Valid() && occurrence.id == key && occurrence.Repr !! cells
    ensures Owned(Put(occurrences, key, occurrence), cells + occurrence.Repr)
    ensures OccurrencesOf(Put(occurrences, key, occurrence), cells + occurrence.Repr)
            == Put(OccurrencesOf(occurrences, cells), key, occurrence.Value())
  {
    hide OccurrenceObject.Value, OccurrenceObject.Valid;
    EnterOwned(occurrences, cells, key, occurrence);
    hide Owned, OccurrenceObject.Valid;
    assert OccurrencesOf(Put(occurrences, key, occurrence), cells + occurrence.Repr).at
           == OccurrencesOf(occurrences, cells).at[key := occurrence.Value()];
  }

  lemma EnterOwned(occurrences: Table<OccurrenceObject>, cells: set<object>, key: string, occurrence: OccurrenceObject)
    requires Owned(occurrences, cells) && key !in occurrences.at
    requires occurrence.Valid() && occurrence.id == key && occurrence.Repr !! cells
    ensures Owned(Put(occurrences, key, occurrence), cells + occurrence.Repr)
  {
    hide OccurrenceObject.Value, OccurrenceObject.Valid;
  }

  lemma ValueAt(occurrences: Table<OccurrenceObject>, cells: set<object>, key: string)
    requires Owned(occurrences, cells) && key in occurrences.at
    ensures occurrences.at[key] in cells && occurrences.at[key].Repr <= cells && occurrences.at[key].Valid()
            && occurrences.at[key].id == key
    ensures OccurrencesOf(occurrences, cells).at[key] == occurrences.at[key].Value()
  {
    hide OccurrenceObject.Value, OccurrenceObject.Valid;
  }

  lemma RestIsOwned(occurrences: Table<OccurrenceObject>, cells: set<object>, id: string)
    requires Owned(occurrences, cells) && id in occurrences.at
    ensures Owned(Without(occurrences, id), cells - occurrences.at[id].Repr)
  {
    hide OccurrenceObject.Value, OccurrenceObject.Valid, Dropping;
    var rest := Without(occurrences, id);
    assert forall k :: k in rest.at ==> rest.at[k] in rest.at[k].Repr && rest.at[k].Repr !! occurrences.at[id].Repr;
  }

  /** The other occurrences, and the objects that are left to them, do not depend on one occurrence. */
  lemma SetAside(occurrences: Table<OccurrenceObject>, cells: set<object>, id: string)
    requires Owned(occurrences, cells) && id in occurrences.at
    ensures occurrences.at[id] in cells && occurrences.at[id].Repr <= cells && occurrences.at[id].Valid()
            && occurrences.at[id].id == id
    ensures occurrences.at[id].Value() == OccurrencesOf(occurrences, cells).at[id]
    ensures Owned(Without(occurrences, id), cells - occurrences.at[id].Repr)
    ensures OccurrencesOf(Without(occurrences, id), cells - occurrences.at[id].Repr).at
            == Without(OccurrencesOf(occurrences, cells), id).at
  {
    hide Owned, OccurrenceObject.Value, OccurrenceObject.Valid, Dropping;
    ValueAt(occurrences, cells, id);
    RestIsOwned(occurrences, cells, id);
  }

  /** An occurrence that has changed within its own objects rejoins the others, which are as they were. */
  lemma Rejoin(occurrences: Table<OccurrenceObject>, rest: set<object>, values: Table<Occurrence>, id: string)
    requires id in occurrences.at && occurrences.at[id].Valid() && occurrences.at[id].id == id
             && occurrences.at[id].Repr !! rest
    requires Owned(Without(occurrences, id), rest)
    requires values.order == occurrences.order && values.at.Keys == occurrences.at.Keys
    requires OccurrencesOf(Without(occurrences, id), rest).at == Without(values, id).at
    ensures Owned(occurrences, rest + occurrences.at[id].Repr)
    ensures OccurrencesOf(occurrences, rest + occurrences.at[id].Repr) == Put(values, id, occurrences.at[id].Value())
  {
    hide OccurrenceObject.Value, OccurrenceObject.Valid, Dropping;
    var others := Without(occurrences, id);
    RejoinOwned(occurrences, rest, id);
    forall k | k in occurrences.at && k != id
      ensures occurrences.at[k].Value() == values.at[k]
    {
      assert k in others.at && OccurrencesOf(others, rest).at[k] == Without(values, id).at[k];
    }
    hide Owned, OccurrenceObject.Valid;
    assert OccurrencesOf(occurrences, rest + occurrences.at[id].Repr).at == values.at[id := occurrences.at[id].Value()];
  }

  lemma RejoinOwned(occurrences: Table<OccurrenceObject>, rest: set<object>, id: string)
    requires id in occurrences.at && occurrences.at[id].Valid() && occurrences.at[id].id == id
             && occurrences.at[id].Repr !! rest
    requires Owned(Without(occurrences, id), rest)
    ensures Owned(occurrences, rest + occurrences.at[id].Repr)
  {
    hide OccurrenceObject.Value, OccurrenceObject.Valid, Dropping;
    var others := Without(occurrences, id);
    assert occurrences.at[id] in occurrences.at[id].Repr;
    assert forall k :: k in occurrences.at && k != id ==> k in others.at && others.at[k] == occurrences.at[k];
  }

  class RunObject {
    const runId: string
    var status: RunStatus
    var protocolVersion: Option<int>
    var lastSequence: Option<nat>
    var workflow: Option<string>
    var target: Option<string>
    var personAnswering: Option<PersonAnswering>
    const occurrences: TableCell<OccurrenceObject>
    var authoredOrder: seq<string>
    var traceRecorded: bool
    var eventDigests: map<string, Envelope>
    const controlAcks: TableCell<ControlAck>
    var billFresh: Option<string>
    var billMemo: Option<string>
    var result: Option<ResultRef>
    var failure: Option<string>
    var failureClass: Option<FailureClass>

    /** The objects of the occurrences. */
    ghost var Cells: set<object>

    /** The run and all that can be reached from it. */
    ghost function Reach(): set<object>
      reads this
    {
      {this, occurrences, controlAcks} + Cells
    }

    ghost predicate Valid()
      reads this, occurrences, controlAcks, Cells
    {
      {this, occurrences, controlAcks} !! Cells && Owned(occurrences.table, Cells)
    }

    ghost function Value(): Snapshot
      requires Valid()
      reads this, occurrences, controlAcks, Cells
    {
      Snapshot(runId, status, protocolVersion, lastSequence, workflow, target, personAnswering,
               OccurrencesOf(occurrences.table, Cells),
               authoredOrder, traceRecorded, eventDigests, controlAcks.table, billFresh, billMemo, result, failure,
               failureClass)
    }

    constructor Initial(runId: string)
      ensures Valid() && fresh(Reach())
      ensures Value() == InitialSnapshot(runId)
    {
      this.runId, status, protocolVersion, lastSequence, workflow, target, personAnswering := runId, Starting, None,
        None, None, None, None;
      occurrences := new TableCell(EmptyTable());
      controlAcks := new TableCell(EmptyTable());
      authoredOrder, traceRecorded, eventDigests := [], false, map[];
      billFresh, billMemo, result, failure, failureClass := None, None, None, None, None;
      Cells := {};
      new;
      assert OccurrencesOf(occurrences.table, Cells) == EmptyTable();
    }

    /** A copy around tables that are copies themselves. */
    constructor Assemble(other: RunObject, occurrenceTable: TableCell<OccurrenceObject>,
                         ackTable: TableCell<ControlAck>, ghost cells: set<object>)
      requires other.Valid() && Owned(occurrenceTable.table, cells) && {occurrenceTable, ackTable} !! cells
      ensures Valid() && Reach() == {this, occurrenceTable, ackTable} + cells
      ensures occurrences == occurrenceTable && controlAcks == ackTable && Cells == cells
      ensures Value() == other.Value().(occurrences := OccurrencesOf(occurrenceTable.table, cells),
                                        controlAcks := ackTable.table)
    {
      hide OccurrencesOf, Owned;
      occurrences, controlAcks, Cells := occurrenceTable, ackTable, cells;
      runId, status, protocolVersion, lastSequence := other.runId, other.status, other.protocolVersion,
        other.lastSequence;
      workflow, target, personAnswering := other.workflow, other.target, other.personAnswering;
      authoredOrder, traceRecorded, eventDigests := other.authoredOrder, other.traceRecorded, other.eventDigests;
      billFresh, billMemo, result, failure, failureClass := other.billFresh, other.billMemo, other.result,
        other.failure, other.failureClass;
    }

    static method CopyOf(other: RunObject) returns (copy: RunObject)
      requires other.Valid()
      ensures copy.Valid() && fresh(copy.Reach())
      ensures copy.Value() == other.Value()
    {
      hide OccurrencesOf, Owned;
      var copiedOccurrences, cells := CopyOccurrences(other.occurrences.table, other.Cells);
      var occurrenceTable := new TableCell(copiedOccurrences);
      var ackTable := new TableCell(other.controlAcks.table);
      copy := new RunObject.Assemble(other, occurrenceTable, ackTable, cells);
    }

    /** The bookkeeping of an envelope. */
    method Stamp(env: Envelope, sequence: nat)
      requires Valid() && sequence == ExpectedSequence(Value())
      modifies this`protocolVersion, this`lastSequence, this`eventDigests
      ensures Valid() && Value() == Advance(old(Value()), env)
    {
      hide Owned, OccurrencesOf;
      protocolVersion, lastSequence := Some(env.protocolVersion), Some(sequence);
      eventDigests := map[env.sequence := Digest(env)];
    }

    static method CopyOccurrences(source: Table<OccurrenceObject>, ghost owner: set<object>)
      returns (copy: Table<OccurrenceObject>, ghost cells: set<object>)
      requires Owned(source, owner)
      ensures fresh(cells) && Owned(copy, cells)
      ensures OccurrencesOf(copy, cells) == OccurrencesOf(source, owner)
    {
      ghost var values := OccurrencesOf(source, owner);
      copy, cells := EmptyTable(), {};
      assert OccurrencesOf(copy, cells) == FirstOf(values, 0);
      hide Owned, OccurrencesOf, FirstOf;
      for i := 0 to |source.order|
        invariant fresh(cells) && Owned(copy, cells)
        invariant OccurrencesOf(copy, cells) == FirstOf(values, i)
      {
        copy, cells := CopyOne(source, owner, copy, cells, i);
      }
      FirstOfAll(values);
    }

    static method CopyOne(source: Table<OccurrenceObject>, ghost owner: set<object>, copied: Table<OccurrenceObject>,
                          ghost before: set<object>, i: nat)
      returns (copy: Table<OccurrenceObject>, ghost cells: set<object>)
      requires Owned(source, owner) && i < |source.order| && Owned(copied, before)
      requires OccurrencesOf(copied, before) == FirstOf(OccurrencesOf(source, owner), i)
      ensures fresh(cells - before) && Owned(copy, cells)
      ensures OccurrencesOf(copy, cells) == FirstOf(OccurrencesOf(source, owner), i + 1)
    {
      hide Owned, OccurrencesOf, OccurrenceObject.Value, OccurrenceObject.Valid, FirstOf;
      var key := source.order[i];
      FirstOfNext(OccurrencesOf(source, owner), i);
      ValueAt(source, owner, key);
      var occurrence := OccurrenceObject.CopyOf(source.at[key]);
      assert key !in copied.at by { assert key !in OccurrencesOf(copied, before).at; }
      EnterOccurrence(copied, before, key, occurrence);
      copy, cells := Put(copied, key, occurrence), before + occurrence.Repr;
    }

    method CountAttempts() returns (n: nat)
      requires Valid()
      ensures n == AttemptCount(Value())
    {
      hide Owned, OccurrencesOf, ValuesOf, TotalOver;
      ghost var values := OccurrencesOf(occurrences.table, Cells);
      n := 0;
      NothingTotals(values.at, AttemptsOf);
      for i := 0 to |occurrences.table.order|
        invariant n == TotalOver(occurrences.table.order[..i], values.at, AttemptsOf)
      {
        var key := occurrences.table.order[i];
        ValueAt(occurrences.table, Cells, key);
        assert occurrences.table.order[..i] + [key] == occurrences.table.order[..i + 1];
        TotalAppended(occurrences.table.order[..i], values.at, AttemptsOf, key);
        n := n + |occurrences.table.at[key].attempts.table.order|;
      }
      assert occurrences.table.order[..|occurrences.table.order|] == occurrences.table.order;
    }

    method CountSteers() returns (n: nat)
      requires Valid()
      ensures n == SteerCount(Value())
    {
      hide Owned, OccurrencesOf, ValuesOf, TotalOver, OccurrenceObject.Value, SteersOf;
      ghost var values := OccurrencesOf(occurrences.table, Cells);
      n := 0;
      NothingTotals(values.at, SteersOf);
      for i := 0 to |occurrences.table.order|
        invariant n == TotalOver(occurrences.table.order[..i], values.at, SteersOf)
      {
        var key := occurrences.table.order[i];
        ValueAt(occurrences.table, Cells, key);
        assert occurrences.table.order[..i] + [key] == occurrences.table.order[..i + 1];
        TotalAppended(occurrences.table.order[..i], values.at, SteersOf, key);
        var steers := occurrences.table.at[key].CountSteers();
        n := n + steers;
      }
      assert occurrences.table.order[..|occurrences.table.order|] == occurrences.table.order;
    }

    method OnOccurrence(e: Event) returns (r: Result<()>)
      requires Valid() && IsOccurrenceEvent(e)
      modifies this`Cells, Cells
      ensures Valid() && fresh(Cells - old(Cells))
      ensures Agrees(r, Reducer.OnOccurrence(old(Value()), e), Value())
    {
      hide Owned, OccurrencesOf, ApplyOccurrence, AttemptCount, SteerCount, IsDecimal;
      var id :- OccurrenceId(e.occurrenceId);
      if id !in occurrences.table.at { return Refused(Unknown); }
      var attemptCount := CountAttempts();
      var steerCount := CountSteers();
      r := ChangeOccurrence(id, e, attemptCount, steerCount);
    }

    method ChangeOccurrence(id: string, e: Event, attemptCount: nat, steerCount: nat) returns (r: Result<()>)
      requires Valid() && IsOccurrenceEvent(e) && id in occurrences.table.at
      modifies this`Cells, Cells
      ensures Valid() && fresh(Cells - old(Cells))
      ensures match ApplyOccurrence(id, old(Value()).occurrences.at[id], e, attemptCount, steerCount)
              case Refused(reason) => r == Refused(reason)
              case Ok(o) => r.Ok? && Value() == old(Value()).(occurrences := Put(old(Value()).occurrences, id, o))
    {
      hide Owned, OccurrencesOf, OccurrenceObject.Value, OccurrenceObject.Valid, ApplyOccurrence;
      ghost var values, before := OccurrencesOf(occurrences.table, Cells), Cells;
      var occurrence := occurrences.table.at[id];
      SetAside(occurrences.table, Cells, id);
      r := occurrence.Accept(id, e, attemptCount, steerCount);
      Rejoin(occurrences.table, before - old(occurrence.Repr), values, id);
      Cells := before - old(occurrence.Repr) + occurrence.Repr;
    }

    method StartRun(e: Event, version: int) returns (r: Result<()>)
      requires Valid() && e.RunStarted?
      modifies this`status, this`workflow, this`target, this`personAnswering
      ensures Valid()
      ensures Agrees(r, Reducer.StartRun(old(Value()), e, version), Value())
    {
      hide Owned, OccurrencesOf, PersonAnsweringOf, OccurrenceObject.Value, OccurrenceObject.Valid;
      if !status.Starting? && !status.Cancelling? { return Refused(WrongState); }
      if !status.Cancelling? { status := Running; }
      var _ :- TakeNames(e.workflow, e.target);
      if version == 2 {
        var answering :- PersonAnsweringOf(e.personAnswering);
        personAnswering := Some(answering);
      }
      return Ok(());
    }

    method TakeNames(rawWorkflow: Text, rawTarget: Text) returns (r: Result<()>)
      requires Valid()
      modifies this`workflow, this`target
      ensures Valid()
      ensures r == if rawWorkflow.Some? && rawTarget.Some? then Ok(()) else Refused(BadField)
      ensures r.Ok? ==> Value() == old(Value()).(workflow := rawWorkflow, target := rawTarget)
    {
      hide Owned, OccurrencesOf;
      var givenWorkflow :- TextOf(rawWorkflow);
      workflow := Some(givenWorkflow);
      var givenTarget :- TextOf(rawTarget);
      target := Some(givenTarget);
      return Ok(());
    }

    method StartOccurrence(e: Event) returns (r: Result<()>)
      requires Valid() && e.OccurrenceStarted?
      modifies occurrences, this`Cells
      ensures Valid() && fresh(Cells - old(Cells))
      ensures Agrees(r, Reducer.StartOccurrence(old(Value()), e), Value())
    {
      hide Owned, OccurrencesOf, OccurrenceObject.Value, OccurrenceObject.Valid, IsDecimal;
      var id :- OccurrenceId(e.occurrenceId);
      if !status.Running? { return Refused(WrongState); }
      if id in occurrences.table.at { return Refused(Duplicate); }
      if |occurrences.table.order| >= MAX_OCCURRENCES { return Refused(LimitExceeded); }
      var code :- TextOf(e.code);
      var intent :- TextOf(e.intent);
      var addressee :- TextOf(e.addressee);
      var prompt :- TextOf(e.prompt);
      var occurrence := new OccurrenceObject(id, code, intent, addressee, prompt);
      EnterOccurrence(occurrences.table, Cells, id, occurrence);
      occurrences.Set(id, occurrence);
      Cells := Cells + occurrence.Repr;
      return Ok(());
    }

    /** Whether every occurrence has completed or was reused. */
    method AreSettled() returns (settled: bool)
      requires Valid()
      ensures settled <==> AllSettled(Value())
    {
      hide Owned, OccurrencesOf, ValuesOf;
      ghost var values := OccurrencesOf(occurrences.table, Cells);
      for i := 0 to |occurrences.table.order|
        invariant forall j :: 0 <= j < i ==> Settled(values.at[occurrences.table.order[j]])
      {
        var key := occurrences.table.order[i];
        ValueAt(occurrences.table, Cells, key);
        if !occurrences.table.at[key].state.OccCompleted? && !occurrences.table.at[key].state.OccReused? {
          assert !Settled(values.at[key]) && key in values.order;
          return false;
        }
      }
      return true;
    }

    method OrderTrace(field: Option<seq<Text>>) returns (r: Result<()>)
      requires Valid()
      modifies this`authoredOrder, this`traceRecorded
      ensures Valid()
      ensures Agrees(r, Reducer.OrderTrace(old(Value()), field), Value())
    {
      hide Owned, OccurrencesOf, AllSettled, DistinctTexts;
      if traceRecorded { return Refused(Duplicate); }
      var ids :- DistinctTexts(field);
      if !forall i :: 0 <= i < |ids| ==> ids[i] in occurrences.table.at { return Refused(BadField); }
      var settled := AreSettled();
      if |ids| != |occurrences.table.order| || !settled { return Refused(WrongState); }
      authoredOrder := ids;
      traceRecorded := true;
      return Ok(());
    }

    /** The answered occurrence is changed in place before the acknowledgement itself is entered. */
    method RecordAck(ack: ControlAck) returns (r: Result<()>)
      requires Valid()
      modifies controlAcks, this`Cells, Cells
      ensures Valid() && Cells == old(Cells)
      ensures Agrees(r, Reducer.RecordAck(old(Value()), ack), Value())
    {
      hide Owned, OccurrencesOf;
      var prior := if ack.controlId in controlAcks.table.at then Some(controlAcks.table.at[ack.controlId]) else None;
      if prior == Some(ack) { return Ok(()); }
      var _ :- AckTransition(prior, ack, |controlAcks.table.order|);
      if ack.command == Some(AnswerPerson) {
        var _ :- SettleAnswer(prior, ack);
      }
      controlAcks.Set(ack.controlId, ack);
      return Ok(());
    }

    method SettleAnswer(prior: Option<ControlAck>, ack: ControlAck) returns (r: Result<()>)
      requires Valid()
      modifies Cells
      ensures Valid()
      ensures Agrees(r, AnswerPersonAck(old(Value()).occurrences, prior, ack), Value().occurrences)
    {
      hide Owned, OccurrencesOf, ValuesOf;
      if (ack.state.AckDelivered? || ack.state.AckFailed?) && (prior.None? || !prior.value.state.AckAccepted?) {
        return Refused(BadTransition);
      }
      if ack.occurrenceId.None? || ack.attemptId.Some? { return Refused(BadField); }
      var id := ack.occurrenceId.value;
      if id !in occurrences.table.at { return Refused(WrongState); }
      ValueAt(occurrences.table, Cells, id);
      if occurrences.table.at[id].personPending != Some(true) { return Refused(WrongState); }
      if ack.state.AckDelivered? { StopWaiting(id); }
      return Ok(());
    }

    method StopWaiting(id: string)
      requires Valid() && id in occurrences.table.at
      modifies Cells
      ensures Valid()
      ensures Value().occurrences == Put(old(Value()).occurrences, id,
                                         old(Value()).occurrences.at[id].(personPending := Some(false)))
    {
      hide Owned, OccurrencesOf, ValuesOf;
      hide OccurrenceObject.Valid, OccurrenceObject.Value;
      ghost var values, rest := OccurrencesOf(occurrences.table, Cells), Cells - occurrences.table.at[id].Repr;
      SetAside(occurrences.table, Cells, id);
      occurrences.table.at[id].StopWaiting();
      Rejoin(occurrences.table, rest, values, id);
      assert rest + occurrences.table.at[id].Repr == Cells;
    }

    method CompleteRun(e: Event, version: int) returns (r: Result<()>)
      requires Valid() && e.RunCompleted?
      modifies this`status, this`billFresh, this`billMemo, this`result
      ensures Valid()
      ensures Agrees(r, Reducer.CompleteRun(old(Value()), e, version), Value())
    {
      hide Owned, OccurrencesOf, AllSettled, NaturalText;
      var settled := AreSettled();
      if !status.Running? || !traceRecorded || |authoredOrder| != |occurrences.table.order| || !settled {
        return Refused(WrongState);
      }
      status := Succeeded;
      var _ :- TakeBills(e.billFresh, e.billMemo);
      if version == 2 {
        if e.result.None? { return Refused(BadField); }
        result := e.result;
      }
      return Ok(());
    }

    method TakeBills(rawFresh: Text, rawMemo: Text) returns (r: Result<()>)
      requires Valid()
      modifies this`billFresh, this`billMemo
      ensures Valid()
      ensures r == match NaturalText(rawFresh)
                   case Refused(reason) => Refused(reason)
                   case Ok(_) => match NaturalText(rawMemo) case Refused(reason) => Refused(reason) case Ok(_) => Ok(())
      ensures r.Ok? ==> Value() == old(Value()).(billFresh := Some(NaturalText(rawFresh).value),
                                                 billMemo := Some(NaturalText(rawMemo).value))
    {
      hide Owned, OccurrencesOf, NaturalText;
      var billed :- NaturalText(rawFresh);
      billFresh := Some(billed);
      var memo :- NaturalText(rawMemo);
      billMemo := Some(memo);
      return Ok(());
    }

    method FailRun(rawMessage: Text, rawFailure: Text) returns (r: Result<()>)
      requires Valid()
      modifies this`status, this`failure, this`failureClass
      ensures Valid()
      ensures Agrees(r, Reducer.FailRun(old(Value()), rawMessage, rawFailure), Value())
    {
      hide Owned, OccurrencesOf, FailureClassOf;
      if !status.Running? && !status.Cancelling? { return Refused(WrongState); }
      status := Failed;
      var message :- TextOf(rawMessage);
      failure := Some(message);
      var kind :- FailureClassOf(rawFailure);
      failureClass := Some(kind);
      return Ok(());
    }

    method CancelRun(rawMessage: Text) returns (r: Result<()>)
      requires Valid()
      modifies this`status, this`failure, this`failureClass
      ensures Valid()
      ensures Agrees(r, Reducer.CancelRun(old(Value()), rawMessage), Value())
    {
      hide Owned, OccurrencesOf;
      if !status.Running? && !status.Cancelling? { return Refused(WrongState); }
      status := Cancelled;
      failureClass := Some(CancelledFailure);
      var message :- TextOf(rawMessage);
      failure := Some(message);
      return Ok(());
    }

    method Accept(e: Event, version: int) returns (r: Result<()>)
      requires Valid()
      modifies Reach()
      ensures Valid() && fresh(Cells - old(Cells))
      ensures Agrees(r, Apply(old(Value()), e, version), Value())
    {
      hide Value, Valid, AckOf;
      if (e.AttemptProgress? || e.PersonAnswerPending?) && version != 2 { return Refused(UnsupportedVersion); }
      if IsOccurrenceEvent(e) {
        r := OnOccurrence(e);
        return;
      }
      match e
      case RunStarted(_, _, _) => r := StartRun(e, version);
      case OccurrenceStarted(_, _, _, _, _) => r := StartOccurrence(e);
      case TraceOrdered(ids) => r := OrderTrace(ids);
      case ControlAcknowledged(_, _, _, _, _, _) => r := Acknowledge(e, version);
      case RunCompleted(_, _, _) => r := CompleteRun(e, version);
      case RunFailed(message, kind) => r := FailRun(message, kind);
      case RunCancelled(message) => r := CancelRun(message);
      case _ => r := Refused(UnknownEvent);
    }

    method Acknowledge(e: Event, version: int) returns (r: Result<()>)
      requires Valid() && e.ControlAcknowledged?
      modifies controlAcks, this`Cells, Cells
      ensures Valid() && Cells == old(Cells)
      ensures Agrees(r, Reducer.Acknowledge(old(Value()), e, version), Value())
    {
      hide Owned, OccurrencesOf, AckOf, Reducer.RecordAck;
      if !status.Running? && !status.Cancelling? { return Refused(WrongState); }
      var ack :- AckOf(e, version);
      r := RecordAck(ack);
    }
  }

  /**
   Copy the snapshot, then apply the event to the copy or refuse it. Nothing reachable from the previous snapshot
   is in the frame, so a refusal and an acceptance alike leave it as it was.
   */
  method ReduceEvent(current: RunObject, env: Envelope) returns (r: Result<RunObject>)
    requires current.Valid()
    ensures current.Valid() && current.Value() == old(current.Value())
    ensures match Reducer.ReduceEvent(current.Value(), env)
            case Refused(reason) => r == Refused(reason)
            case Ok(value) => r.Ok? && fresh(r.value.Reach()) && r.value.Valid() && r.value.Value() == value
  {
    hide Apply, Owned, OccurrencesOf, Admit, RunObject.Valid, RunObject.Value;
    var admitted := AdmitEnvelope(current, env);
    if admitted.Refused? { return Refused(admitted.reason); }
    var next := NextOf(current, env, admitted.value);
    var applied := next.Accept(env.event, env.protocolVersion);
    if applied.Refused? { return Refused(applied.reason); }
    return Ok(next);
  }

  /** The checks of an envelope, before anything is copied; the sequence number that it is accepted with. */
  method AdmitEnvelope(current: RunObject, env: Envelope) returns (r: Result<nat>)
    requires current.Valid()
    ensures match Admit(current.Value(), env)
            case Refused(reason) => r == Refused(reason)
            case Ok(_) => r == Ok(ExpectedSequence(current.Value()))
  {
    hide Owned, OccurrencesOf, DigitsValue, IsTerminal;
    if env.protocolVersion != 1 && env.protocolVersion != 2 { return Refused(UnsupportedVersion); }
    if current.protocolVersion.Some? && current.protocolVersion.value != env.protocolVersion {
      return Refused(VersionChanged);
    }
    if env.runId != current.runId { return Refused(RunChanged); }
    if !env.timestampCanonical { return Refused(BadTimestamp); }
    if !IsDecimal(env.sequence) { return Refused(BadSequence); }
    if env.sequence in current.eventDigests {
      return Refused(if current.eventDigests[env.sequence] == Digest(env) then DuplicateSequence
                     else ConflictingSequence);
    }
    var sequence := DigitsValue(env.sequence);
    if sequence > MAX_WORD64 { return Refused(SequenceRange); }
    var expected := if current.lastSequence.None? then 0 else current.lastSequence.value + 1;
    if sequence != expected { return Refused(SequenceGap); }
    if IsTerminal(current.status) { return Refused(PostTerminal); }
    return Ok(sequence);
  }

  /** A deep copy of a snapshot with the bookkeeping of the envelope. */
  method NextOf(current: RunObject, env: Envelope, sequence: nat) returns (next: RunObject)
    requires current.Valid() && sequence == ExpectedSequence(current.Value())
    ensures fresh(next.Reach()) && next.Valid() && next.Value() == Advance(current.Value(), env)
  {
    hide Owned, OccurrencesOf, RunObject.Value, RunObject.Valid;
    next := RunObject.CopyOf(current);
    next.Stamp(env, sequence);
  }

  lemma NothingTotals<V(!new)>(at: map<string, V>, weight: V -> nat)
    ensures TotalOver([], at, weight) == 0
  {
  }
}
