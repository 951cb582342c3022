/**
 A run whose stored snapshot is too large to be read again: it is delivered without a fault, and every restore refuses
 it.
 */
module LargeRun {
  import opened Prelude
  import opened Snapshots
  import opened Reducer
  import opened Controls
  import opened RestoredRuns
  import opened SomeRun
  import Decimals
  import Journal
  import Restore
  import Utf8

  // ---- Every accepted run can be delivered, line by line ----

  /** A line that the live reader takes as one envelope. */
  predicate Reads(parse: Parser, line: string, envelope: Envelope) {
    && line != "" && Journal.LineEnd(line) == |line| && |Utf8.Encode(line)| <= Journal.MAX_FRAME
    && parse(line) == Some(envelope)
  }

  function Delivery(lines: seq<string>): seq<Step> {
    if lines == [] then [] else Delivery(lines[..|lines| - 1]) + [Output(lines[|lines| - 1] + "\n")]
  }

  function TextOfLines(lines: seq<string>): string {
    if lines == [] then "" else TextOfLines(lines[..|lines| - 1]) + lines[|lines| - 1] + "\n"
  }

  function Delivered(runId: string, lines: seq<string>, run: seq<Envelope>): Live
    requires Replay(InitialSnapshot(runId), run).Ok?
  {
    NewLive(runId).(snapshot := Replay(InitialSnapshot(runId), run).value, mirror := TextOfLines(lines),
                    accepted := run)
  }

  lemma {:induction false} Utf16IsShorter(s: string)
    ensures Utf16Length(s) <= |Utf8.Encode(s)|
  {
    if s != "" { Utf16IsShorter(s[1..]); }
  }

  lemma NothingAwaited(r: Live, event: Event)
    requires r.waiters == EmptyTable()
    ensures Acknowledged(r, event) == r
  {
    hide PriorAck;
  }

  lemma LineIsTaken(parse: Parser, r: Live, line: string, envelope: Envelope)
    requires r.waiters == EmptyTable() && Reads(parse, line, envelope) && ReduceEvent(r.snapshot, envelope).Ok?
    ensures TakeLine(parse, r, line) == r.(snapshot := ReduceEvent(r.snapshot, envelope).value,
                                           accepted := r.accepted + [envelope])
  {
    hide ReduceEvent, Acknowledged, TakeLine, Journal.LineEnd, Utf8.Encode;
    LineIsAccepted(parse, r, line, envelope);
    NothingAwaited(r.(snapshot := ReduceEvent(r.snapshot, envelope).value, accepted := r.accepted + [envelope]),
                   envelope.event);
  }

  lemma OneLineEnds(line: string)
    requires Journal.LineEnd(line) == |line|
    ensures Journal.LineEnd(line + "\n") == |line| && (line + "\n")[..|line|] == line
            && (line + "\n")[|line| + 1..] == ""
  {
    Journal.LineEndAppend(line, "\n");
  }

  lemma NothingConsumed(parse: Parser, r: Live)
    requires r.buffer == ""
    ensures ConsumeLines(parse, r) == r
  {
  }

  lemma LineIsDelivered(parse: Parser, r: Live, line: string, envelope: Envelope)
    requires !r.terminal && r.buffer == "" && r.waiters == EmptyTable()
    requires Reads(parse, line, envelope) && ReduceEvent(r.snapshot, envelope).Ok?
    ensures Next(parse, r, Output(line + "\n"))
            == r.(snapshot := ReduceEvent(r.snapshot, envelope).value, mirror := r.mirror + line + "\n",
                  accepted := r.accepted + [envelope])
  {
    Utf16IsShorter(line + "\n");
    Utf8.EncodeAppend(line, "\n");
    Utf8.EncodeOne('\n');
    OneLineEnds(line);
    var grown := r.(buffer := line + "\n");
    assert "" + (line + "\n") == line + "\n";
    ConsumeUnfolds(parse, grown);
    hide Journal.LineEnd, ConsumeLines, TakeLine, ReduceEvent, Utf8.Encode, Utf16Length;
    LineIsTaken(parse, LineTaken(grown), line, envelope);
    NothingConsumed(parse, TakeLine(parse, LineTaken(grown), line));
  }

  /**
   Whatever the envelopes of an accepted run are, their lines leave the run unfaulted, at the replay of the envelopes.
   */
  lemma {:induction false} RunIsDelivered(parse: Parser, runId: string, lines: seq<string>, run: seq<Envelope>)
    requires |lines| == |run| && forall k :: 0 <= k < |run| ==> Reads(parse, lines[k], run[k])
    requires Replay(InitialSnapshot(runId), run).Ok?
    ensures After(parse, runId, Delivery(lines)) == Delivered(runId, lines, run)
  {
    hide ReduceEvent, Reads, Next;
    if run != [] {
      var n := |run| - 1;
      RunIsDelivered(parse, runId, lines[..n], run[..n]);
      var before := Delivered(runId, lines[..n], run[..n]);
      LineIsDelivered(parse, before, lines[n], run[n]);
      assert run[..n] + [run[n]] == run;
      assert Delivery(lines)[..|Delivery(lines)| - 1] == Delivery(lines[..n]);
    }
  }

  /** When the last envelope ends the run, the exit of the process changes nothing more. */
  lemma DeliveredEnds(parse: Parser, runId: string, lines: seq<string>, run: seq<Envelope>)
    requires |lines| == |run| && forall k :: 0 <= k < |run| ==> Reads(parse, lines[k], run[k])
    requires Replay(InitialSnapshot(runId), run).Ok? && IsTerminal(Replay(InitialSnapshot(runId), run).value.status)
    ensures After(parse, runId, Delivery(lines) + [Close]) == Delivered(runId, lines, run).(terminal := true)
  {
    hide Replay, Delivery, TextOfLines, Reads;
    RunIsDelivered(parse, runId, lines, run);
    ClosingStep(parse, runId, Delivery(lines));
  }

  // ---- A run of seventy questions with a million bytes of prompt each ----

  const QUESTIONS: nat := 70
  const LETTERS: nat := 1_000_000

  /** The run is started, asks its questions, and fails. */
  function LargeEvent(n: nat): Event {
    if n == 0 then RunStarted(Some("workflow"), Some("target"), None)
    else if n <= QUESTIONS then
      OccurrenceStarted(Some(Decimals.DigitText(n)), Some("code"), Some("intent"), Some("addressee"),
                        Some(Utf8.Letters(LETTERS)))
    else RunFailed(Some("message"), Some("runtime"))
  }

  function LargeEnvelope(n: nat): Envelope { Numbered(n, LargeEvent(n)) }

  function Envelopes(n: nat): seq<Envelope> {
    if n == 0 then [] else Envelopes(n - 1) + [LargeEnvelope(n - 1)]
  }

  lemma {:induction false} EnvelopeAt(n: nat, k: nat)
    requires k < n
    ensures |Envelopes(n)| == n && Envelopes(n)[k] == LargeEnvelope(k)
  {
    hide LargeEnvelope;
    if k < n - 1 {
      EnvelopeAt(n - 1, k);
    } else if n > 1 {
      EnvelopeAt(n - 1, 0);
    }
  }

  function LargeQuestion(n: nat): Occurrence {
    Occurrence(Decimals.DigitText(n), OccRunning, "code", "intent", "addressee", Utf8.Letters(LETTERS),
               None, None, None, None, None, None, true, None, None, EmptyTable())
  }

  /** The snapshot after n questions. */
  predicate Asks(s: Snapshot, n: nat) {
    && Awaits(s, n + 1) && s.status.Running?
    && s.occurrences.order == seq(n, i requires 0 <= i < n => Decimals.DigitText(i + 1))
    && PromptBytes(s) == n * LETTERS
  }

  lemma RunBegins()
    ensures var r := Replay(InitialSnapshot("run"), Envelopes(1)); r.Ok? && Asks(r.value, 0)
  {
    hide Decimals.DigitText, LargeEvent, ReduceEvent, Apply, Awaits;
    var s, e := InitialSnapshot("run"), LargeEvent(0);
    assert Envelopes(0) == [];
    ReplayNext(1);
    NothingAsked(s);
    StepIs(s, 0, e);
    LargeRunStarts(Advance(s, Numbered(0, e)));
    AwaitsNext(s, 0, e, Advance(s, Numbered(0, e)).(status := Running, workflow := Some("workflow"),
                                                    target := Some("target")));
  }

  lemma NothingAsked(s: Snapshot)
    requires s == InitialSnapshot("run")
    ensures Awaits(s, 0) && s.status.Starting? && PromptBytes(s) == 0
  {
  }

  lemma LargeRunStarts(s: Snapshot)
    requires s.status.Starting?
    ensures Apply(s, LargeEvent(0), 1)
            == Ok(s.(status := Running, workflow := Some("workflow"), target := Some("target")))
  {
    hide OnOccurrence, Acknowledge, StartOccurrence, OrderTrace, CompleteRun;
  }

  lemma ReplayNext(n: nat)
    requires n > 0
    ensures Replay(InitialSnapshot("run"), Envelopes(n))
            == match Replay(InitialSnapshot("run"), Envelopes(n - 1))
               case Refused(e) => Refused(e)
               case Ok(s) => ReduceEvent(s, LargeEnvelope(n - 1))
  {
    hide ReduceEvent, LargeEnvelope;
    assert Envelopes(n)[..|Envelopes(n)| - 1] == Envelopes(n - 1);
  }

  lemma QuestionIsNew(s: Snapshot, n: nat)
    requires Asks(s, n)
    ensures Decimals.DigitText(n + 1) !in s.occurrences.at
  {
    hide Awaits, PromptBytes, Decimals.DigitText;
    DigitIs(n + 1);
    forall i | 0 <= i < n
      ensures s.occurrences.order[i] != Decimals.DigitText(n + 1)
    {
      DigitIs(i + 1);
    }
    assert Decimals.DigitText(n + 1) !in s.occurrences.order;
  }

  lemma LargeQuestionStarts(s: Snapshot, n: nat)
    requires n < QUESTIONS && s.status.Running? && |s.occurrences.order| == n
             && Decimals.DigitText(n + 1) !in s.occurrences.at
    ensures Apply(s, LargeEvent(n + 1), 1) == Ok(s.(occurrences := Put(s.occurrences, Decimals.DigitText(n + 1),
                                                                       LargeQuestion(n + 1))))
  {
    hide IsDecimal, DigitsValue, Decimals.DigitText, Utf8.Letters, OnOccurrence, StartRun, Acknowledge, OrderTrace,
         CompleteRun;
    DigitIs(n + 1);
  }

  lemma PromptIsAdded(s: Snapshot, t: Snapshot, n: nat)
    requires Decimals.DigitText(n) !in s.occurrences.at
             && t.occurrences == Put(s.occurrences, Decimals.DigitText(n), LargeQuestion(n))
    ensures PromptBytes(t) == PromptBytes(s) + LETTERS
  {
    hide Decimals.DigitText, Utf8.Encode, Utf8.Letters, TotalOver;
    TotalPut(s.occurrences, PromptOf, Decimals.DigitText(n), LargeQuestion(n));
    Utf8.LettersEncoded(LETTERS);
  }

  lemma QuestionIsAsked(s: Snapshot, n: nat)
    requires n < QUESTIONS && Asks(s, n)
    ensures ReduceEvent(s, LargeEnvelope(n + 1)).Ok? && Asks(ReduceEvent(s, LargeEnvelope(n + 1)).value, n + 1)
  {
    hide Awaits, ReduceEvent, Apply, PromptBytes, LargeEvent, Asked, Decimals.DigitText;
    var e := LargeEvent(n + 1);
    var advanced := Advance(s, Numbered(n + 1, e));
    var t := advanced.(occurrences := Put(s.occurrences, Decimals.DigitText(n + 1), LargeQuestion(n + 1)));
    StepIs(s, n + 1, e);
    QuestionIsNew(s, n);
    LargeQuestionStarts(advanced, n);
    AwaitsNext(s, n + 1, e, t);
    PromptIsAdded(s, t, n + 1);
    assert t.occurrences.order == s.occurrences.order + [Decimals.DigitText(n + 1)];
  }

  lemma {:induction false} QuestionsAreAsked(n: nat)
    requires n <= QUESTIONS
    ensures var r := Replay(InitialSnapshot("run"), Envelopes(n + 1)); r.Ok? && Asks(r.value, n)
  {
    hide Asks, ReduceEvent, Replay, LargeEnvelope;
    if n == 0 {
      RunBegins();
    } else {
      QuestionsAreAsked(n - 1);
      ReplayNext(n + 1);
      QuestionIsAsked(Replay(InitialSnapshot("run"), Envelopes(n)).value, n - 1);
    }
  }

  lemma RunFails(s: Snapshot)
    requires s.status.Running?
    ensures Apply(s, LargeEvent(QUESTIONS + 1), 1)
            == Ok(s.(status := Failed, failure := Some("message"), failureClass := Some(RuntimeFailure)))
  {
    hide OnOccurrence, StartRun, StartOccurrence, Acknowledge, OrderTrace, CompleteRun;
  }

  /** The run has failed, with seventy million bytes of prompts. */
  lemma LargeRunReplays()
    ensures var r := Replay(InitialSnapshot("run"), Envelopes(QUESTIONS + 2));
            r.Ok? && r.value.status.Failed? && IsTerminal(r.value.status) && PromptBytes(r.value) == QUESTIONS * LETTERS
  {
    hide ReduceEvent, Replay, LargeEvent, Decimals.DigitText, Apply, TotalOver, PromptOf;
    var n := QUESTIONS + 1;
    QuestionsAreAsked(QUESTIONS);
    ReplayNext(n + 1);
    var s := Replay(InitialSnapshot("run"), Envelopes(n)).value;
    StepIs(s, n, LargeEvent(n));
    RunFails(Advance(s, Numbered(n, LargeEvent(n))));
  }

  // ---- The lines: letters stand for the JSON text, as many as its prompt at least, and tell the envelopes apart by
  // their number ----

  function LargeLine(k: nat): string { Utf8.Letters(LETTERS + k) }

  function LargeLines(n: nat): seq<string> {
    if n == 0 then [] else LargeLines(n - 1) + [LargeLine(n - 1)]
  }

  /** It reads the lines of the run and refuses every other. */
  function LargeParser(): Parser {
    (line: string) =>
      if LETTERS <= |line| < LETTERS + QUESTIONS + 2 && line == LargeLine(|line| - LETTERS) then
        Some(LargeEnvelope(|line| - LETTERS))
      else None
  }

  lemma LargeParserRefusesBom()
    ensures RefusesBom(LargeParser())
  {
  }

  lemma LineIsLong(k: nat)
    ensures |Utf8.Encode(LargeLine(k))| == LETTERS + k
  {
    Utf8.LettersEncoded(LETTERS + k);
  }

  lemma LineIsRead(k: nat)
    requires k < QUESTIONS + 2
    ensures Reads(LargeParser(), LargeLine(k), LargeEnvelope(k))
  {
    hide Utf8.Encode, LargeEnvelope;
    LineIsLong(k);
  }

  lemma {:induction false} LineAt(n: nat, k: nat)
    requires k < n
    ensures |LargeLines(n)| == n && LargeLines(n)[k] == LargeLine(k)
  {
    hide LargeLine;
    if k < n - 1 {
      LineAt(n - 1, k);
    } else if n > 1 {
      LineAt(n - 1, 0);
    }
  }

  lemma {:induction false} LinesFit(n: nat)
    requires n <= QUESTIONS + 2
    ensures |Utf8.Encode(TextOfLines(LargeLines(n)))| <= n * (LETTERS + QUESTIONS + 2)
  {
    hide Utf8.Encode, LargeLine;
    if n == 0 {
      Utf8.AsciiEncoded("");
    } else {
      LinesFit(n - 1);
      var lines, line := LargeLines(n), LargeLine(n - 1);
      assert lines[..|lines| - 1] == LargeLines(n - 1);
      LineIsLong(n - 1);
      Utf8.EncodeAppend(TextOfLines(LargeLines(n - 1)) + line, "\n");
      Utf8.EncodeAppend(TextOfLines(LargeLines(n - 1)), line);
      Utf8.EncodeOne('\n');
    }
  }

  function LargeSteps(): seq<Step> { Delivery(LargeLines(QUESTIONS + 2)) + [Close] }

  /**
   The run ends without a fault and without an artifact due, and its mirror can be read. As snapshot.json has more bytes
   than are read, every restore refuses it all the same.
   */
  lemma LargeRunIsRefused(files: seq<Option<Journal.Bytes>>, artifactAccepted: ResultRef -> bool, size: Snapshot -> nat,
                          ownerLive: bool)
    requires var s := After(LargeParser(), "run", LargeSteps()).snapshot; size(s) >= PromptBytes(s)
    ensures var r := After(LargeParser(), "run", LargeSteps());
            && r.terminal && !r.finished && !r.faulted && Fits(r) && Verifies(r.snapshot, artifactAccepted)
            && Restore.RestoreOutcome(LargeParser(), "run", files, StoreOf(r, artifactAccepted, size), artifactAccepted,
                                      ownerLive).None?
  {
    hide *;
    var n := QUESTIONS + 2;
    LargeRunReplays();
    LinesAreRead(n);
    DeliveredEnds(LargeParser(), "run", LargeLines(n), Envelopes(n));
    LargeStepsAre(n);
    LinesFit(n);
    LargeRunEnds(After(LargeParser(), "run", LargeSteps()), artifactAccepted, n);
    LargeSnapshotIsRefused(LargeParser(), "run", After(LargeParser(), "run", LargeSteps()), files, artifactAccepted,
                           size, ownerLive);
  }

  lemma LargeStepsAre(n: nat)
    requires n == QUESTIONS + 2
    ensures LargeSteps() == Delivery(LargeLines(n)) + [Close]
  {
    hide Delivery, LargeLines;
  }

  lemma LinesAreRead(n: nat)
    requires n == QUESTIONS + 2
    ensures |LargeLines(n)| == |Envelopes(n)| == n
    ensures forall k :: 0 <= k < n ==> Reads(LargeParser(), LargeLines(n)[k], Envelopes(n)[k])
  {
    hide LargeLines, Envelopes, LargeEnvelope, LargeLine, LargeParser, Reads;
    LineAt(n, 0);
    EnvelopeAt(n, 0);
    forall k | 0 <= k < n
      ensures Reads(LargeParser(), LargeLines(n)[k], Envelopes(n)[k])
    {
      LineAt(n, k);
      EnvelopeAt(n, k);
      LineIsRead(k);
    }
  }

  lemma LargeRunEnds(r: Live, artifactAccepted: ResultRef -> bool, n: nat)
    requires n == QUESTIONS + 2 && Replay(InitialSnapshot("run"), Envelopes(n)).Ok?
    requires r == Delivered("run", LargeLines(n), Envelopes(n)).(terminal := true)
    requires |Utf8.Encode(TextOfLines(LargeLines(n)))| <= n * (LETTERS + n)
    requires Replay(InitialSnapshot("run"), Envelopes(n)).value.status.Failed?
    ensures r.terminal && !r.finished && !r.faulted && Fits(r) && Verifies(r.snapshot, artifactAccepted)
            && IsTerminal(r.snapshot.status)
    ensures QUESTIONS * LETTERS > MAX_SNAPSHOT_FILE
    ensures r.snapshot == Replay(InitialSnapshot("run"), Envelopes(n)).value
  {
    hide Replay, Envelopes, LargeLines, TextOfLines, Utf8.Encode;
  }
}
