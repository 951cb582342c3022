/** A run that succeeds: it asks one question, one attempt answers it, and the trace names it. */
module SomeRun {
  import opened Prelude
  import opened Snapshots
  import opened Fields
  import opened Reducer
  import Decimals
  import OutputTail

  lemma DigitIs(n: nat)
    ensures IsDecimal(Decimals.DigitText(n)) && DigitsValue(Decimals.DigitText(n)) == n
  {
    Decimals.DigitTextIsDecimal(n);
  }

  function Numbered(n: nat, event: Event): Envelope { Envelope(1, "run", Decimals.DigitText(n), true, event) }

  /** The snapshot after n envelopes, as far as the checks of the next one look at it. */
  predicate Awaits(s: Snapshot, n: nat) {
    && s.runId == "run" && !IsTerminal(s.status)
    && (s.protocolVersion.None? || s.protocolVersion == Some(1))
    && s.lastSequence == (if n == 0 then None else Some(n - 1))
    && (forall key :: key in s.eventDigests ==> n > 0 && key == Decimals.DigitText(n - 1))
  }

  lemma StepIs(s: Snapshot, n: nat, e: Event)
    requires n <= MAX_WORD64 && Awaits(s, n)
    ensures ReduceEvent(s, Numbered(n, e)) == Apply(Advance(s, Numbered(n, e)), e, 1)
  {
    hide Apply, IsDecimal, DigitsValue, Decimals.DigitText;
    DigitIs(n);
    if n > 0 { DigitIs(n - 1); }
  }

  lemma AwaitsNext(s: Snapshot, n: nat, e: Event, t: Snapshot)
    requires Awaits(s, n) && !IsTerminal(t.status)
    requires t == Advance(s, Numbered(n, e)).(status := t.status, workflow := t.workflow, target := t.target,
                                             occurrences := t.occurrences, authoredOrder := t.authoredOrder,
                                               traceRecorded := t.traceRecorded)
    ensures Awaits(t, n + 1)
  {
    hide Decimals.DigitText;
  }

  // ---- The events and the snapshots between them ----

  function Event(n: nat): Event
    requires n < 8
  {
    if n == 0 then RunStarted(Some("workflow"), Some("target"), None)
    else if n == 1 then OccurrenceStarted(Some("0"), Some("code"), Some("intent"), Some("addressee"), Some("prompt"))
    else if n == 2 then AttemptStarted(Some("0"), Some("0"), Some("target"))
    else if n == 3 then AttemptOutput(Some("0"), Some("0"), Some("text"))
    else if n == 4 then AttemptCompleted(Some("0"), Some("0"))
    else if n == 5 then OccurrenceCompleted(Some("0"), Some("source"), Some("answer"))
    else if n == 6 then TraceOrdered(Some([Some("0")]))
    else RunCompleted(Some("0"), Some("0"), None)
  }

  function Run(n: nat): seq<Envelope>
    requires n <= 8
  {
    seq(n, i requires 0 <= i < n => Numbered(i, Event(i)))
  }

  function Asked(): Occurrence {
    Occurrence("0", OccRunning, "code", "intent", "addressee", "prompt", None, None, None, None, None, None, true, None,
               None, EmptyTable())
  }

  function WithAttempt(o: Occurrence, a: Attempt): Occurrence { o.(attempts := Put(o.attempts, "0:0", a)) }

  function Spoken(): Attempt { NewAttempt("0:0", "target").(output := OutputTail.TailOf("" + "text")) }

  /** The occurrence after n envelopes. */
  function Question(n: nat): Occurrence {
    if n <= 2 then Asked()
    else if n == 3 then WithAttempt(Asked(), NewAttempt("0:0", "target"))
    else if n == 4 then WithAttempt(Question(3), Spoken())
    else if n == 5 then WithAttempt(Question(4), Spoken().(state := AttCompleted))
    else Question(5).(state := OccCompleted, source := Some("source"), answer := Some("answer"))
  }

  function Reached(n: nat): Snapshot
    requires n <= 8
  {
    if n == 0 then InitialSnapshot("run")
    else
      var s := Advance(Reached(n - 1), Numbered(n - 1, Event(n - 1)));
      if n == 1 then s.(status := Running, workflow := Some("workflow"), target := Some("target"))
      else if n <= 6 then s.(occurrences := Put(s.occurrences, "0", Question(n)))
      else if n == 7 then s.(authoredOrder := ["0"], traceRecorded := true)
      else s.(status := Succeeded, billFresh := Some("0"), billMemo := Some("0"))
  }

  lemma ReachedNext(n: nat)
    requires n < 8
    ensures var s := Advance(Reached(n), Numbered(n, Event(n)));
            Reached(n + 1)
            == if n == 0 then s.(status := Running, workflow := Some("workflow"), target := Some("target"))
               else if n <= 5 then s.(occurrences := Put(s.occurrences, "0", Question(n + 1)))
               else if n == 6 then s.(authoredOrder := ["0"], traceRecorded := true)
               else s.(status := Succeeded, billFresh := Some("0"), billMemo := Some("0"))
  {
    hide Question, Event, Advance;
  }

  lemma {:induction false} ReachedAwaits(n: nat)
    requires n <= 7
    ensures Awaits(Reached(n), n) && (n == 0 <==> Reached(n).status.Starting?)
            && (n > 0 <==> Reached(n).status.Running?)
    ensures Reached(n).occurrences.order == (if n < 2 then [] else ["0"])
    ensures n >= 2 ==>
              "0" in Reached(n).occurrences.at && Reached(n).occurrences.at["0"] == Question(if n <= 6 then n else 6)
    ensures Reached(n).traceRecorded == (n == 7) && Reached(n).authoredOrder == if n == 7 then ["0"] else []
  {
    hide Question, Event, Awaits, Reached, Numbered;
    if n == 0 {
      StartAwaits(n);
    } else {
      ReachedAwaits(n - 1);
      ReachedNext(n - 1);
      AwaitsNext(Reached(n - 1), n - 1, Event(n - 1), Reached(n));
    }
  }

  lemma StartAwaits(n: nat)
    requires n == 0
    ensures Reached(n) == InitialSnapshot("run") && Awaits(Reached(n), n)
  {
  }

  lemma QuestionIs(n: nat)
    ensures (n <= 2 ==> Question(n) == Asked())
            && (n == 2 ==> Question(n + 1) == WithAttempt(Question(n), NewAttempt("0:0", "target")))
            && (n == 3 ==> Question(n + 1) == WithAttempt(Question(n), Spoken()))
            && (n == 4 ==> Question(n + 1) == WithAttempt(Question(n), Spoken().(state := AttCompleted)))
            && (n == 5 ==> Question(n + 1) == Question(n).(state := OccCompleted, source := Some("source"),
                                                           answer := Some("answer")))
  {
    hide WithAttempt, NewAttempt, Spoken;
  }

  /** The attempts of the occurrence after n envelopes. */
  lemma AttemptsAre(n: nat)
    requires n <= 6
    ensures (n <= 2 ==> Question(n).attempts == EmptyTable())
            && (2 < n ==> "0:0" in Question(n).attempts.at && Question(n).attempts.order == ["0:0"])
            && (n == 3 ==> Question(n).attempts.at["0:0"] == NewAttempt("0:0", "target"))
            && (n == 4 ==> Question(n).attempts.at["0:0"] == Spoken())
            && (5 <= n ==> Question(n).attempts.at["0:0"] == Spoken().(state := AttCompleted))
            && Question(n).state == (if n <= 5 then OccRunning else OccCompleted)
            && Question(n).dispatch.None? && Question(n).personPending.None? && Question(n).replayable
  {
    if n <= 2 {
      QuestionIs(n);
      hide Question;
    } else {
      hide Question, Spoken, NewAttempt;
      AttemptsAre(n - 1);
      QuestionIs(n - 1);
    }
  }

  // ---- Every envelope is accepted ----

  lemma ZeroIs()
    ensures OccurrenceId(Some("0")) == Ok("0") && AttemptId("0", Some("0")) == Ok("0:0")
            && NaturalText(Some("0")) == Ok("0")
  {
    DigitIs(0);
    assert Decimals.DigitText(0) == "0" && "0" + ":" + "0" == "0:0";
  }

  lemma FewAttempts(n: nat)
    requires 2 <= n <= 6
    ensures AttemptCount(Reached(n)) <= 1
  {
    hide Reached, Question;
    ReachedAwaits(n);
    AttemptsAre(n);
    var s := Reached(n);
    assert s.occurrences.order[1..] == [];
    assert AttemptCount(s) == AttemptsOf(s.occurrences.at["0"]) + TotalOver([], s.occurrences.at, AttemptsOf);
  }

  lemma AttemptStarts(attempts: nat)
    requires attempts < MAX_ATTEMPTS
    ensures StartAttempt("0", Asked(), Some("0"), Some("target"), attempts)
            == Ok(WithAttempt(Asked(), NewAttempt("0:0", "target")))
  {
    hide AttemptId, NewAttempt;
    ZeroIs();
  }

  lemma AttemptMoves(o: Occurrence, e: Event, steers: nat, b: Attempt)
    requires IsAttemptEvent(e) && !e.AttemptSteered? && e.attempt == Some("0") && "0:0" in o.attempts.at
    requires ApplyAttempt(o.attempts.at["0:0"], e, steers) == Ok(b)
    ensures OnAttempt("0", o, e, steers) == Ok(WithAttempt(o, b))
  {
    hide AttemptId, ApplyAttempt;
    ZeroIs();
  }

  lemma AttemptSpeaks(steers: nat)
    ensures ApplyAttempt(NewAttempt("0:0", "target"), Event(3), steers) == Ok(Spoken())
    ensures ApplyAttempt(Spoken(), Event(4), steers) == Ok(Spoken().(state := AttCompleted))
  {
    hide OutputTail.TailOf, OutputTail.Utf8.Encode, IsDecimal, DigitsValue, AttemptId, OccurrenceId;
  }

  lemma OccurrenceCompletes(o: Occurrence)
    requires o.state.OccRunning? && o.personPending.None? && "0:0" in o.attempts.at && o.attempts.order == ["0:0"]
             && o.attempts.at["0:0"].state.AttCompleted?
    ensures CompleteOccurrence(o, Some("source"), Some("answer"))
            == Ok(o.(state := OccCompleted, source := Some("source"), answer := Some("answer")))
  {
    assert !HasRunningAttempt(o.attempts);
  }

  /** The event on the occurrence, from the third envelope to the sixth. */
  lemma QuestionMoves(n: nat, attempts: nat, steers: nat)
    requires 2 <= n <= 5 && attempts < MAX_ATTEMPTS
    ensures IsOccurrenceEvent(Event(n)) && ApplyOccurrence("0", Question(n), Event(n), attempts, steers)
            == Ok(Question(n + 1))
  {
    hide Question, WithAttempt, NewAttempt, Spoken, Asked, StartAttempt, OnAttempt, CompleteOccurrence, ApplyAttempt;
    QuestionIs(n);
    AttemptsAre(n);
    AttemptSpeaks(steers);
    if n == 2 {
      AttemptStarts(attempts);
    } else if n == 3 {
      AttemptMoves(Question(n), Event(n), steers, Spoken());
    } else if n == 4 {
      AttemptMoves(Question(n), Event(n), steers, Spoken().(state := AttCompleted));
    } else {
      SpokenIsDone();
      OccurrenceCompletes(Question(n));
    }
  }

  lemma SpokenIsDone()
    ensures Spoken().(state := AttCompleted).state.AttCompleted?
  {
  }

  lemma OccurrenceSteps(n: nat)
    requires 2 <= n <= 5
    ensures ReduceEvent(Reached(n), Numbered(n, Event(n))) == Ok(Reached(n + 1))
  {
    hide ApplyOccurrence, Question, Event, ReduceEvent, Awaits, TotalOver, OccurrenceId, Reached;
    ReachedAwaits(n);
    ReachedNext(n);
    StepIs(Reached(n), n, Event(n));
    FewAttempts(n);
    ZeroIs();
    var s := Advance(Reached(n), Numbered(n, Event(n)));
    assert AttemptCount(s) == AttemptCount(Reached(n));
    QuestionMoves(n, AttemptCount(s), SteerCount(s));
    EventIsAboutZero(n);
  }

  lemma EventIsAboutZero(n: nat)
    requires 2 <= n <= 5
    ensures IsOccurrenceEvent(Event(n)) && Event(n).occurrenceId == Some("0") && !Event(n).AttemptProgress?
            && !Event(n).PersonAnswerPending?
  {
  }

  lemma RunStarts(n: nat)
    requires n == 0
    ensures ReduceEvent(Reached(n), Numbered(n, Event(n))) == Ok(Reached(n + 1))
  {
    hide ReduceEvent, Reached, Apply, Event, Awaits;
    ReachedAwaits(n);
    ReachedNext(n);
    StepIs(Reached(n), n, Event(n));
    StartIsAccepted(Advance(Reached(n), Numbered(n, Event(n))));
  }

  lemma StartIsAccepted(s: Snapshot)
    requires s.status.Starting?
    ensures Apply(s, Event(0), 1) == Ok(s.(status := Running, workflow := Some("workflow"), target := Some("target")))
  {
    hide OnOccurrence, Acknowledge, StartOccurrence, OrderTrace, CompleteRun;
  }

  lemma QuestionStarts(n: nat)
    requires n == 1
    ensures ReduceEvent(Reached(n), Numbered(n, Event(n))) == Ok(Reached(n + 1))
  {
    hide ReduceEvent, Reached, Awaits, Question, OccurrenceId, OnOccurrence, StartRun, Acknowledge;
    ReachedAwaits(n);
    ReachedNext(n);
    QuestionIs(n + 1);
    ZeroIs();
    StepIs(Reached(n), n, Event(n));
  }

  lemma TraceIsOrdered(n: nat)
    requires n == 6
    ensures ReduceEvent(Reached(n), Numbered(n, Event(n))) == Ok(Reached(n + 1))
  {
    hide ReduceEvent, Reached, Question, Apply, Event, Awaits;
    ReachedAwaits(n);
    ReachedNext(n);
    AttemptsAre(n);
    StepIs(Reached(n), n, Event(n));
    OrderIsAccepted(Advance(Reached(n), Numbered(n, Event(n))));
  }

  lemma OrderIsAccepted(s: Snapshot)
    requires s.occurrences.order == ["0"] && "0" in s.occurrences.at && Settled(s.occurrences.at["0"])
             && !s.traceRecorded
    ensures Apply(s, Event(6), 1) == Ok(s.(authoredOrder := ["0"], traceRecorded := true))
  {
    hide DistinctTexts, OnOccurrence, StartRun, Acknowledge, StartOccurrence, CompleteRun;
    OneText("0");
  }

  lemma OneText(text: string)
    ensures DistinctTexts(Some([Some(text)])) == Ok([text])
  {
    var raw: seq<Text> := [Some(text)];
    assert raw[1..] == [];
    var rest := TextsOf(raw[1..]).value;
    assert rest == [] && [text] + rest == [text];
  }

  lemma RunCompletes(n: nat)
    requires n == 7
    ensures ReduceEvent(Reached(n), Numbered(n, Event(n))) == Ok(Reached(n + 1))
  {
    hide ReduceEvent, Reached, Question, Apply, Event, Awaits;
    ReachedAwaits(n);
    ReachedNext(n);
    AttemptsAre(n - 1);
    StepIs(Reached(n), n, Event(n));
    CompletionIsAccepted(Advance(Reached(n), Numbered(n, Event(n))));
  }

  lemma CompletionIsAccepted(s: Snapshot)
    requires s.occurrences.order == ["0"] && "0" in s.occurrences.at && Settled(s.occurrences.at["0"])
    requires s.status.Running? && s.traceRecorded && s.authoredOrder == ["0"]
    ensures Apply(s, Event(7), 1) == Ok(s.(status := Succeeded, billFresh := Some("0"), billMemo := Some("0")))
  {
    hide NaturalText, OnOccurrence, StartRun, Acknowledge, StartOccurrence, OrderTrace;
    ZeroIs();
  }

  lemma NextStep(n: nat)
    requires n < 8
    ensures ReduceEvent(Reached(n), Numbered(n, Event(n))) == Ok(Reached(n + 1))
  {
    hide ReduceEvent, Reached, Event;
    if n == 0 { RunStarts(n); }
    else if n == 1 { QuestionStarts(n); }
    else if n <= 5 { OccurrenceSteps(n); }
    else if n == 6 { TraceIsOrdered(n); }
    else { RunCompletes(n); }
  }

  lemma {:induction false} RunReaches(n: nat)
    requires n <= 8
    ensures Replay(InitialSnapshot("run"), Run(n)) == Ok(Reached(n))
  {
    hide ReduceEvent, Event;
    if n == 0 {
    } else {
      RunReaches(n - 1);
      NextStep(n - 1);
      hide Reached;
      assert Run(n)[..n - 1] == Run(n - 1) && Run(n)[n - 1] == Numbered(n - 1, Event(n - 1));
    }
  }

  lemma ReachedEnds(n: nat)
    requires n == 8
    ensures Reached(n).status.Succeeded? && Reached(n).authoredOrder == ["0"] && "0" in Reached(n).occurrences.at
    ensures var o := Reached(n).occurrences.at["0"];
            o.state.OccCompleted? && "0:0" in o.attempts.at && o.attempts.at["0:0"] == Spoken().(state := AttCompleted)
  {
    hide Reached, Question, Event, Awaits;
    ReachedAwaits(n - 1);
    ReachedNext(n - 1);
    AttemptsAre(n - 2);
  }

  /** Some run succeeds, with an occurrence that one attempt answered. */
  lemma SomeRunSucceeds()
    ensures var s := Reached(8);
            && Replay(InitialSnapshot("run"), Run(8)) == Ok(s) && Reachable(s) && s.status.Succeeded?
            && s.authoredOrder == ["0"] && "0" in s.occurrences.at && "0:0" in s.occurrences.at["0"].attempts.at
            && s.occurrences.at["0"].attempts.at["0:0"].output == OutputTail.TailOf("text")
  {
    hide ReduceEvent, Event, Question, Replay, Run, Reached, OutputTail.TailOf;
    RunReaches(8);
    ReachedEnds(8);
    assert "" + "text" == "text";
  }
}
