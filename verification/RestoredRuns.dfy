/**
 What a restore makes of the store that a finished run leaves behind: when it gives back the snapshot that the run
 finished with.
 */
module RestoredRuns {
  import opened Prelude
  import opened Snapshots
  import opened Reducer
  import opened Controls
  import opened ControlTheorems
  import Journal
  import Restore
  import RunTheorems
  import Utf8

  // ---- The mirrored text begins with the lines of the accepted envelopes ----

  /** A beginning of the mirror: the lines of the accepted envelopes, which fold to their snapshot. */
  ghost predicate Begins(parse: Parser, runId: string, r: Live, kept: string) {
    && kept <= r.mirror && Replayed(runId, r).Ok? && Journal.EventsOf(parse, kept) == r.accepted
    && Journal.FoldLines(parse, InitialSnapshot(runId), kept) == Some((Replayed(runId, r).value, ""))
  }

  ghost predicate Mirrored(parse: Parser, runId: string, r: Live) {
    exists kept: string :: Begins(parse, runId, r, kept)
  }

  lemma MirrorExtends(parse: Parser, runId: string, r: Live, t: Live)
    requires Mirrored(parse, runId, r) && r.mirror <= t.mirror && t.accepted == r.accepted
    ensures Mirrored(parse, runId, t)
  {
    hide Journal.FoldLines, Replay;
    var kept: string :| Begins(parse, runId, r, kept);
    assert Begins(parse, runId, t, kept);
  }

  lemma WholeMirror(parse: Parser, runId: string, r: Live)
    requires Replayed(runId, r).Ok? && Journal.FoldLines(parse, InitialSnapshot(runId), r.mirror)
             == Some((Replayed(runId, r).value, ""))
    requires Journal.EventsOf(parse, r.mirror) == r.accepted
    ensures Mirrored(parse, runId, r)
  {
    hide Journal.FoldLines, Journal.EventsOf, Replay;
    assert Begins(parse, runId, r, r.mirror);
  }

  /** When the whole mirror folds to the snapshot of the accepted envelopes, they are the envelopes of its lines. */
  lemma MirrorSays(parse: Parser, runId: string, r: Live)
    requires Mirrored(parse, runId, r)
    requires Journal.FoldLines(parse, InitialSnapshot(runId), r.mirror) == Some((Replayed(runId, r).value, ""))
    ensures Journal.EventsOf(parse, r.mirror) == r.accepted
  {
    hide Journal.FoldLines, Journal.EventsOf, Replay;
    var s := InitialSnapshot(runId);
    var kept: string :| Begins(parse, runId, r, kept);
    assert r.mirror == kept + r.mirror[|kept|..];
    Journal.EventsGrow(parse, kept, r.mirror[|kept|..]);
    Journal.FoldIsReplay(parse, s, r.mirror);
    ReplayCounts(s, r.accepted);
    ReplayCounts(s, Journal.EventsOf(parse, r.mirror));
  }

  lemma LineSays(parse: Parser, mirror: string, line: string, envelope: Envelope)
    requires (mirror == "" || mirror[|mirror| - 1] == '\n') && line != "" && Journal.LineEnd(line) == |line|
             && parse(line) == Some(envelope)
    ensures Journal.EventsOf(parse, mirror + line + "\n") == Journal.EventsOf(parse, mirror) + [envelope]
  {
    Journal.EventsAppend(parse, mirror, line + "\n");
    assert mirror + (line + "\n") == mirror + line + "\n";
    Journal.LineEndAppend(line, "\n");
    assert (line + "\n")[..|line|] == line && (line + "\n")[|line| + 1..] == "";
  }

  lemma TakeLineMirrored(parse: Parser, runId: string, r: Live, line: string)
    requires LiveOk(parse, runId, r) && !r.terminal && Mirrored(parse, runId, r)
    requires line != "" && Journal.LineEnd(line) == |line| && |Utf8.Encode(line)| <= Journal.MAX_FRAME
    ensures Mirrored(parse, runId, TakeLine(parse, r.(mirror := r.mirror + line + "\n"), line))
  {
    hide Journal.FoldLines, ReduceEvent, Replay, Acknowledged, Mirrored;
    var next := r.(mirror := r.mirror + line + "\n");
    match parse(line)
    case None => MirrorExtends(parse, runId, r, Fail(next, BAD_LINE));
    case Some(envelope) =>
      match ReduceEvent(next.snapshot, envelope)
      case Refused(_) => MirrorExtends(parse, runId, r, Fail(next, BAD_LINE));
      case Ok(accepted) => AcceptedLineMirrored(parse, runId, r, line, envelope);
  }

  lemma AcceptedLineMirrored(parse: Parser, runId: string, r: Live, line: string, envelope: Envelope)
    requires LiveOk(parse, runId, r) && !r.terminal && Mirrored(parse, runId, r)
    requires line != "" && Journal.LineEnd(line) == |line| && |Utf8.Encode(line)| <= Journal.MAX_FRAME
    requires parse(line) == Some(envelope) && ReduceEvent(r.snapshot, envelope).Ok?
    ensures Mirrored(parse, runId, TakeLine(parse, r.(mirror := r.mirror + line + "\n"), line))
  {
    hide *;
    AcceptingIsUnfaulted(parse, runId, r, envelope);
    MirrorSays(parse, runId, r);
    Journal.NothingLeftOver(parse, InitialSnapshot(runId), r.mirror);
    LineSays(parse, r.mirror, line, envelope);
    LineReduces(parse, r.snapshot, line, envelope);
    MirrorGrows(parse, runId, r.mirror, r.snapshot, line);
    var next := r.(mirror := r.mirror + line + "\n", snapshot := ReduceEvent(r.snapshot, envelope).value,
                   accepted := r.accepted + [envelope]);
    LineIsAccepted(parse, r.(mirror := r.mirror + line + "\n"), line, envelope);
    AcknowledgedKeepsText(next, envelope.event);
    ReplayedIs(runId, r, next, envelope);
    ReplayedIs(runId, r, Acknowledged(next, envelope.event), envelope);
    WholeMirror(parse, runId, Acknowledged(next, envelope.event));
  }

  /** A run that accepts an envelope has no fault: its mirror folds to its snapshot. */
  lemma AcceptingIsUnfaulted(parse: Parser, runId: string, r: Live, envelope: Envelope)
    requires LiveOk(parse, runId, r) && !r.terminal && ReduceEvent(r.snapshot, envelope).Ok?
    ensures !r.faulted && Replayed(runId, r) == Ok(r.snapshot)
    ensures Journal.FoldLines(parse, InitialSnapshot(runId), r.mirror) == Some((r.snapshot, ""))
  {
    AcceptKeeps(r, envelope);
    hide ControlsOk, Replay, ReduceEvent, Journal.FoldLines;
  }

  lemma LineIsAccepted(parse: Parser, r: Live, line: string, envelope: Envelope)
    requires parse(line) == Some(envelope) && ReduceEvent(r.snapshot, envelope).Ok?
    ensures var next := r.(snapshot := ReduceEvent(r.snapshot, envelope).value, accepted := r.accepted + [envelope]);
            TakeLine(parse, r, line) == Acknowledged(next, envelope.event)
  {
    hide ReduceEvent, Acknowledged;
  }

  lemma LineReduces(parse: Parser, s: Snapshot, line: string, envelope: Envelope)
    requires line != "" && |Utf8.Encode(line)| <= Journal.MAX_FRAME
    requires parse(line) == Some(envelope) && ReduceEvent(s, envelope).Ok?
    ensures Journal.ReduceLine(parse, s, line) == Some(ReduceEvent(s, envelope).value)
  {
    hide ReduceEvent, Utf8.Encode;
  }

  lemma ReplayedIs(runId: string, r: Live, t: Live, envelope: Envelope)
    requires Replayed(runId, r) == Ok(r.snapshot) && t.accepted == r.accepted + [envelope]
    ensures Replayed(runId, t) == ReduceEvent(r.snapshot, envelope)
  {
    hide Replay, ReduceEvent;
    ReplayOneMore(InitialSnapshot(runId), r.accepted, envelope);
  }

  lemma {:induction false} ConsumeLinesMirrored(parse: Parser, runId: string, r: Live)
    requires LiveOk(parse, runId, r) && !r.terminal && Mirrored(parse, runId, r)
    ensures Mirrored(parse, runId, ConsumeLines(parse, r))
    decreases |r.buffer|
  {
    var end := Journal.LineEnd(r.buffer);
    if end < |r.buffer| {
      var line, rest := r.buffer[..end], r.buffer[end + 1..];
      var mirror := r.mirror + line + "\n";
      assert Journal.LineEnd(line) == |line|;
      var shorter := r.(buffer := rest);
      var next := shorter.(mirror := mirror);
      BufferIsFree(parse, runId, r, rest);
      hide LiveOk, TakeLine, Mirrored;
      MirrorExtends(parse, runId, r, shorter);
      if line == "" {
        BlankLineIsSafe(parse, runId, shorter, mirror);
        MirrorExtends(parse, runId, r, next);
        ConsumeLinesMirrored(parse, runId, next);
      } else if |Utf8.Encode(line)| > Journal.MAX_FRAME {
        MirrorExtends(parse, runId, r, Fail(next, OVERLONG));
      } else {
        TakeLineIsSafe(parse, runId, shorter, line, mirror);
        TakeLineMirrored(parse, runId, shorter, line);
        TakeLineKeepsBuffer(parse, next, line);
        ConsumeLinesMirrored(parse, runId, TakeLine(parse, next, line));
      }
    }
  }

  lemma ConsumeMirrored(parse: Parser, runId: string, r: Live, chunk: string)
    requires LiveOk(parse, runId, r) && !r.terminal && Mirrored(parse, runId, r)
    ensures Mirrored(parse, runId, Consume(parse, r, chunk))
  {
    var grown := r.(buffer := r.buffer + chunk);
    BufferIsFree(parse, runId, r, grown.buffer);
    hide LiveOk, Mirrored, ConsumeLines;
    MirrorExtends(parse, runId, r, grown);
    if Utf16Length(grown.buffer) > 2 * Journal.MAX_FRAME {
      MirrorExtends(parse, runId, r, Fail(grown, OVERFULL));
    } else {
      ConsumeLinesMirrored(parse, runId, grown);
    }
  }

  /** Only output changes the mirror and the accepted envelopes. */
  lemma OtherStepsKeepSource(parse: Parser, r: Live, step: Step)
    requires !step.Output?
    ensures Next(parse, r, step).mirror == r.mirror && Next(parse, r, step).accepted == r.accepted
  {
    hide Without, FailedBySupervisor, Reject, Allowed, CorrelationOf, IsTerminal, ClosedRun;
    ClosedKeepsSource(r);
  }

  lemma ClosedKeepsSource(r: Live)
    ensures ClosedRun(r).mirror == r.mirror && ClosedRun(r).accepted == r.accepted
  {
    hide Fail, CancelledBySupervisor, IsTerminal, IsBlank;
    var torn := if IsBlank(r.buffer) then r else Fail(r, TORN);
    FailKeepsText(r, TORN);
    FailKeepsText(torn, NO_END);
  }

  lemma {:induction false} AfterIsMirrored(parse: Parser, runId: string, steps: seq<Step>)
    ensures Mirrored(parse, runId, After(parse, runId, steps))
  {
    hide Next, Mirrored, LiveOk;
    if steps == [] {
      NewIsMirrored(parse, runId);
    } else {
      var before, step := After(parse, runId, steps[..|steps| - 1]), steps[|steps| - 1];
      AfterIsMirrored(parse, runId, steps[..|steps| - 1]);
      AfterIsSafe(parse, runId, steps[..|steps| - 1]);
      NextMirrored(parse, runId, before, step);
    }
  }

  lemma NextMirrored(parse: Parser, runId: string, r: Live, step: Step)
    requires LiveOk(parse, runId, r) && Mirrored(parse, runId, r)
    ensures Mirrored(parse, runId, Next(parse, r, step))
  {
    hide Mirrored, LiveOk, Consume;
    if step.Output? {
      if !r.terminal { ConsumeMirrored(parse, runId, r, step.chunk); }
    } else {
      OtherStepsKeepSource(parse, r, step);
      hide Next;
      MirrorExtends(parse, runId, r, Next(parse, r, step));
    }
  }

  lemma NewIsMirrored(parse: Parser, runId: string)
    ensures Mirrored(parse, runId, NewLive(runId))
  {
    assert Begins(parse, runId, NewLive(runId), "");
  }

  // ---- The stored mirror goes on from the accepted envelopes ----

  /** JSON text does not begin with a byte-order mark, so no line that does is parsed. */
  ghost predicate RefusesBom(parse: Parser) {
    forall line: string :: line != "" && line[0] == '\U{FEFF}' ==> parse(line).None?
  }

  function MirrorFile(r: Live): Journal.Bytes { Utf8.Encode(r.mirror) }

  /** What the stored mirror folds to is reached from the accepted envelopes' snapshot by further envelopes. */
  lemma FoldGoesOn(parse: Parser, runId: string, r: Live) returns (more: seq<Envelope>)
    requires RefusesBom(parse) && Mirrored(parse, runId, r)
    requires Journal.ReduceFile(parse, runId, MirrorFile(r)).Some?
    ensures Replayed(runId, r).Ok? && Replay(Replayed(runId, r).value, more)
            == Ok(Journal.ReduceFile(parse, runId, MirrorFile(r)).value)
  {
    hide Replay, Journal.EventsOf;
    var kept: string :| Begins(parse, runId, r, kept);
    var base, s := Replayed(runId, r).value, InitialSnapshot(runId);
    Utf8.DecodeEncode(r.mirror);
    hide Journal.FoldLines;
    if kept != "" && kept[0] == '\U{FEFF}' { BomLeavesRest(parse, s, kept); }
    var text := Journal.JournalText(MirrorFile(r)).value;
    var rest := if kept == "" then text else text[|kept|..];
    if kept == "" {
      NothingIsLeft(parse, s);
    } else {
      assert text == r.mirror && r.mirror == kept + rest && "" + rest == rest;
      Journal.FoldAppend(parse, s, kept, rest);
    }
    Journal.FoldIsReplay(parse, base, rest);
    more := Journal.EventsOf(parse, rest);
  }

  lemma NothingIsLeft(parse: Parser, s: Snapshot)
    ensures Journal.FoldLines(parse, s, "") == Some((s, ""))
  {
  }

  /** A text that begins with a byte-order mark folds to nothing but itself as an unfinished line. */
  lemma BomLeavesRest(parse: Parser, s: Snapshot, text: string)
    requires RefusesBom(parse) && text != "" && text[0] == '\U{FEFF}'
    ensures Journal.FoldLines(parse, s, text).Some? ==> Journal.FoldLines(parse, s, text).value.1 != ""
  {
    var end := Journal.LineEnd(text);
    if end < |text| { assert text[..end] != "" && text[..end][0] == '\U{FEFF}'; }
  }

  lemma {:induction false} ReplayCounts(s: Snapshot, run: seq<Envelope>)
    requires Replay(s, run).Ok?
    ensures Journal.SequenceOf(Replay(s, run).value) == Journal.SequenceOf(s) + |run|
  {
    hide ReduceEvent;
    if run != [] {
      ReplayCounts(s, run[..|run| - 1]);
      RunTheorems.ReduceBookkeeping(Replay(s, run[..|run| - 1]).value, run[|run| - 1]);
    }
  }

  lemma NoMoreEnvelopes(s: Snapshot, run: seq<Envelope>)
    requires Replay(s, run).Ok?
    requires IsTerminal(s.status) || Replay(s, run).value.lastSequence == s.lastSequence
    ensures Replay(s, run).value == s
  {
    hide ReduceEvent;
    if IsTerminal(s.status) {
      RunTheorems.TerminalIsFinal(s, run);
    } else {
      ReplayCounts(s, run);
    }
  }

  // ---- The decision of the restore ----

  /** Whether the artifact of a succeeded run is accepted, by the supervisor at the end and by the restore later. */
  predicate Verifies(s: Snapshot, artifactAccepted: ResultRef -> bool) {
    MustVerify(s) ==> artifactAccepted(s.result.value)
  }

  /** The run once it is finished and stored. */
  function Finished(r: Live, artifactAccepted: ResultRef -> bool): Live {
    FinishedRun(r, Verifies(r.snapshot, artifactAccepted), true)
  }

  /** What the fold of the mirror must be for the stored snapshot to be restored. */
  predicate FoldAllows(fold: Option<Snapshot>, s: Snapshot) {
    fold.Some? && (IsTerminal(fold.value.status) ==> Restore.Projection(fold.value) == Restore.Projection(s))
  }

  /**
   What snapshot.json holds in the end: it is written once, after the artifact of a succeeded run was accepted, whatever
   its size in bytes; a file that is too large is not read.
   */
  function StoreOf(r: Live, artifactAccepted: ResultRef -> bool, size: Snapshot -> nat): Restore.SnapshotFile {
    var s := Finished(r, artifactAccepted).snapshot;
    if !Verifies(r.snapshot, artifactAccepted) then Restore.Missing
    else if size(s) > MAX_SNAPSHOT_FILE then Restore.Unreadable
    else Restore.Stored(s)
  }

  /** A runtime journal beside the mirror does not differ from it. */
  predicate Agrees(runtime: Option<Journal.Bytes>, file: Journal.Bytes) { runtime.Some? ==> runtime.value == file }

  /**
   The outcome for the store of a run that has come to its end: its mirror, a runtime journal if there is one, and
   snapshot.json.
   */
  function Restored(parse: Parser, runId: string, r: Live, artifactAccepted: ResultRef -> bool, size: Snapshot -> nat,
                    runtime: Option<Journal.Bytes>): Option<Snapshot> {
    Restore.RestoreOutcome(parse, runId, [runtime, Some(MirrorFile(r))], StoreOf(r, artifactAccepted, size),
                           artifactAccepted, false)
  }

  /** The outcome for a fold and a stored snapshot. */
  function Outcome(runId: string, fold: Option<Snapshot>, file: Restore.SnapshotFile,
                   artifactAccepted: ResultRef -> bool): Option<Snapshot>
  {
    match Restore.ReadSnapshot(runId, fold, file)
    case None => None
    case Some(s) => Restore.Decide(fold, s, artifactAccepted, false)
  }

  /** The decision on one file, whatever runtime journal lies beside it. */
  lemma FileIsDecided(parse: Parser, runId: string, runtime: Option<Journal.Bytes>, file: Journal.Bytes,
                      stored: Restore.SnapshotFile,
                      artifactAccepted: ResultRef -> bool)
    ensures var fold := Journal.ReduceFile(parse, runId, file);
            Restore.RestoreOutcome(parse, runId, [runtime, Some(file)], stored, artifactAccepted, false)
            == if fold.None? || !Agrees(runtime, file) then None else Outcome(runId, fold, stored, artifactAccepted)
  {
    hide Restore.RestoreOutcome, Restore.AcceptedJournals, Restore.Furthest, Journal.ReduceFile, Outcome;
    var files := [runtime, Some(file)];
    if Journal.ReduceFile(parse, runId, file).None? {
      RefusedFile(parse, runId, files, stored, artifactAccepted, false, file);
    } else if !Agrees(runtime, file) {
      OtherJournal(parse, runId, runtime.value, file, stored, artifactAccepted);
    } else {
      OneJournal(parse, runId, file, runtime.Some?);
      OutcomeIs(parse, runId, files, if runtime.Some? then [file, file] else [file], stored, artifactAccepted);
    }
  }

  lemma RestoredIsDecided(parse: Parser, runId: string, r: Live, artifactAccepted: ResultRef -> bool,
                          size: Snapshot -> nat,
                          runtime: Option<Journal.Bytes>)
    ensures var fold := Journal.ReduceFile(parse, runId, MirrorFile(r));
            Restored(parse, runId, r, artifactAccepted, size, runtime)
            == if fold.None? || !Agrees(runtime, MirrorFile(r)) then None
               else Outcome(runId, fold, StoreOf(r, artifactAccepted, size), artifactAccepted)
  {
    hide Restore.RestoreOutcome, Journal.ReduceFile, Outcome, StoreOf, MirrorFile, Agrees;
    FileIsDecided(parse, runId, runtime, MirrorFile(r), StoreOf(r, artifactAccepted, size), artifactAccepted);
  }

  lemma OutcomeIs(parse: Parser, runId: string, files: seq<Option<Journal.Bytes>>, journals: seq<Journal.Bytes>,
                  file: Restore.SnapshotFile,
                  artifactAccepted: ResultRef -> bool)
    requires Restore.AcceptedJournals(parse, runId, false, files) == Some(journals)
    ensures Restore.RestoreOutcome(parse, runId, files, file, artifactAccepted, false)
            == Outcome(runId, Restore.Furthest(parse, runId, journals), file, artifactAccepted)
  {
    hide Restore.AcceptedJournals, Restore.Furthest, Restore.Decide, Restore.ReadSnapshot, Journal.ReduceFile;
  }

  lemma OneJournal(parse: Parser, runId: string, file: Journal.Bytes, twice: bool)
    requires Journal.ReduceFile(parse, runId, file).Some?
    ensures var files := [if twice then Some(file) else None, Some(file)];
            Restore.AcceptedJournals(parse, runId, false, files) == Some(if twice then [file, file] else [file])
    ensures Restore.Furthest(parse, runId, if twice then [file, file] else [file])
            == Journal.ReduceFile(parse, runId, file)
  {
    hide Journal.ReduceFile, Restore.Compatible, Restore.AcceptedJournals, Restore.Furthest;
    FurthestOfOne(parse, runId, file);
    NothingAccepted(parse, runId);
    var none: seq<Journal.Bytes>, first := [], if twice then Some(file) else None;
    NextJournal(parse, runId, [], none, first);
    assert [] + [first] == [first];
    var prior := if twice then [file] else none;
    assert prior == if twice then none + [file] else none;
    NextJournal(parse, runId, [first], prior, Some(file));
    assert [first] + [Some(file)] == [first, Some(file)];
    assert prior + [file] == if twice then [file, file] else [file];
  }

  /** Without a live owner, a runtime journal with other bytes refuses the restore. */
  lemma OtherJournal(parse: Parser, runId: string, runtime: Journal.Bytes, file: Journal.Bytes,
                     stored: Restore.SnapshotFile,
                     artifactAccepted: ResultRef -> bool)
    requires runtime != file
    ensures Restore.RestoreOutcome(parse, runId, [Some(runtime), Some(file)], stored, artifactAccepted, false).None?
  {
    hide Journal.ReduceFile, Restore.AcceptedJournals, Restore.Furthest;
    var files := [Some(runtime), Some(file)];
    if Restore.AcceptedJournals(parse, runId, false, files).Some? {
      assert files[0] == Some(runtime) && files[1] == Some(file);
      Restore.PresentIsAccepted(parse, runId, false, files, runtime);
      Restore.PresentIsAccepted(parse, runId, false, files, file);
      Restore.UnownedJournalsAreEqual(parse, runId, files, runtime, file);
      assert false;
    }
  }

  lemma NothingAccepted(parse: Parser, runId: string)
    ensures Restore.AcceptedJournals(parse, runId, false, []) == Some([])
  {
  }

  lemma FurthestOfOne(parse: Parser, runId: string, file: Journal.Bytes)
    requires Journal.ReduceFile(parse, runId, file).Some?
    ensures Restore.Furthest(parse, runId, [file]) == Restore.Furthest(parse, runId, [file, file])
            == Journal.ReduceFile(parse, runId, file)
  {
    hide Journal.ReduceFile;
    assert [file][..0] == [] && [file, file][..1] == [file];
    assert Restore.Furthest(parse, runId, [file]) == Journal.ReduceFile(parse, runId, file);
  }

  lemma NextJournal(parse: Parser, runId: string, files: seq<Option<Journal.Bytes>>, prior: seq<Journal.Bytes>,
                    next: Option<Journal.Bytes>)
    requires Restore.AcceptedJournals(parse, runId, false, files) == Some(prior)
    requires next.Some? ==> Journal.ReduceFile(parse, runId, next.value).Some? && forall f :: f in prior ==>
               f == next.value
    ensures Restore.AcceptedJournals(parse, runId, false, files + [next])
            == Some(if next.Some? then prior + [next.value] else prior)
  {
    hide Journal.ReduceFile;
    assert (files + [next])[..|files + [next]| - 1] == files;
    if next.Some? {
      forall i | 0 <= i < |prior|
        ensures Restore.Compatible(parse, runId, false, prior[i], next.value)
      {
        assert prior[i] in prior;
      }
    }
  }

  lemma RefusedFile(parse: Parser, runId: string, files: seq<Option<Journal.Bytes>>, snapshotFile: Restore.SnapshotFile,
                    artifactAccepted: ResultRef -> bool, ownerLive: bool, file: Journal.Bytes)
    requires files != [] && files[|files| - 1] == Some(file) && Journal.ReduceFile(parse, runId, file).None?
    ensures Restore.RestoreOutcome(parse, runId, files, snapshotFile, artifactAccepted, ownerLive).None?
  {
    hide Journal.ReduceFile, Restore.Compatible;
  }

  // ---- The theorem ----

  /**
   What is known of a run at its end: its snapshot is that of the accepted envelopes, or the supervisor's own ending of
   it.
   */
  lemma EndOfRun(parse: Parser, runId: string, r: Live)
    requires LiveOk(parse, runId, r) && r.terminal && !r.finished
    ensures Replayed(runId, r).Ok? && IsTerminal(r.snapshot.status) && r.snapshot.runId == runId
    ensures var base := Replayed(runId, r).value;
            && r.snapshot == base.(status := r.snapshot.status, failure := r.snapshot.failure,
                                   failureClass := r.snapshot.failureClass)
            && (r.snapshot != base ==> Restore.SupervisorTerminal(r.snapshot))
  {
    RunTheorems.AcceptedCount(runId, r.accepted);
    hide Replay, LedgerOk, ResolutionsOk, MirrorOk;
  }

  lemma FinishedKeeps(r: Live, artifactAccepted: ResultRef -> bool)
    requires IsTerminal(r.snapshot.status)
    ensures var s := Finished(r, artifactAccepted).snapshot;
            && s == r.snapshot.(status := s.status, failure := s.failure)
            && IsTerminal(s.status)
            && (Verifies(r.snapshot, artifactAccepted) ==> s == r.snapshot)
            && (!Verifies(r.snapshot, artifactAccepted) ==> s.status.Failed? && r.snapshot.status.Succeeded?)
  {
  }

  lemma DecidedOnTerminalFold(f: Snapshot, s: Snapshot, artifactAccepted: ResultRef -> bool)
    requires IsTerminal(f.status) && IsTerminal(s.status)
    requires Restore.Projection(f) == Restore.Projection(s) ==> f == s && Verifies(s, artifactAccepted)
    ensures Restore.Decide(Some(f), s, artifactAccepted, false)
            == if Restore.Projection(f) == Restore.Projection(s) then Some(s) else None
  {
  }

  lemma DecidedOnOpenFold(f: Snapshot, s: Snapshot, artifactAccepted: ResultRef -> bool)
    requires !IsTerminal(f.status) && Restore.SupervisorTerminal(s)
    ensures Restore.Decide(Some(f), s, artifactAccepted, false) == Some(s)
  {
  }

  /** Equal but for the digests, and grown from the same accepted envelopes: the same. */
  lemma SameProjection(base: Snapshot, more: seq<Envelope>, f: Snapshot, s: Snapshot)
    requires Replay(base, more) == Ok(f)
    requires s == base.(status := s.status, failure := s.failure, failureClass := s.failureClass)
    requires Restore.Projection(f) == Restore.Projection(s)
    ensures f == s
  {
    hide Replay;
    assert f.lastSequence == Restore.Projection(f).lastSequence == s.lastSequence;
    NoMoreEnvelopes(base, more);
    assert f == Restore.Projection(f).(eventDigests := f.eventDigests)
           && s == Restore.Projection(s).(eventDigests := s.eventDigests);
  }

  lemma FoldDecides(parse: Parser, runId: string, r: Live, artifactAccepted: ResultRef -> bool, f: Snapshot,
                    more: seq<Envelope>)
    requires LiveOk(parse, runId, r) && r.terminal && !r.finished
    requires Replayed(runId, r).Ok? && Replay(Replayed(runId, r).value, more) == Ok(f)
    ensures var s := Finished(r, artifactAccepted).snapshot;
            && s.runId == runId
            && Restore.Decide(Some(f), s, artifactAccepted, false) == if FoldAllows(Some(f), s) then Some(s) else None
  {
    hide LiveOk, Replay, Restore.Decide, Finished, Verifies, Restore.Projection;
    EndOfRun(parse, runId, r);
    FinishedKeeps(r, artifactAccepted);
    var base, s := Replayed(runId, r).value, Finished(r, artifactAccepted).snapshot;
    if IsTerminal(f.status) {
      if Restore.Projection(f) == Restore.Projection(s) {
        SameProjection(base, more, f, s);
        EqualEndIsVerified(base, more, f, r.snapshot, s, artifactAccepted);
      }
      DecidedOnTerminalFold(f, s, artifactAccepted);
    } else {
      if IsTerminal(base.status) { NoMoreEnvelopes(base, more); }
      assert Restore.SupervisorTerminal(r.snapshot);
      assert !MustVerify(r.snapshot);
      SupervisorEndIsKept(r, artifactAccepted);
      DecidedOnOpenFold(f, s, artifactAccepted);
    }
  }

  lemma SupervisorEndIsKept(r: Live, artifactAccepted: ResultRef -> bool)
    requires !MustVerify(r.snapshot)
    ensures Finished(r, artifactAccepted).snapshot == r.snapshot
  {
  }

  /** A finished snapshot that is also what the mirror folds to was not failed for its artifact. */
  lemma EqualEndIsVerified(base: Snapshot, more: seq<Envelope>, f: Snapshot, ended: Snapshot, s: Snapshot,
                           artifactAccepted: ResultRef -> bool)
    requires Replay(base, more) == Ok(f) && f == s
    requires ended != base ==> Restore.SupervisorTerminal(ended)
    requires s.lastSequence == base.lastSequence
    requires if Verifies(ended, artifactAccepted) then s == ended else s.status.Failed? && ended.status.Succeeded?
    ensures Verifies(s, artifactAccepted)
  {
    hide Replay;
    NoMoreEnvelopes(base, more);
  }

  /**
   For every interleaving that has come to its end: once finished, the run is restored as exactly the snapshot that it
   finished with if and only if its event mirror folds, that fold, when it is terminal, is this snapshot too, the stored
   snapshot is not larger than what is read, and a runtime journal, if there is one, is the mirror again.
   */
  lemma RestoredExactly(parse: Parser, runId: string, steps: seq<Step>, artifactAccepted: ResultRef -> bool,
                        size: Snapshot -> nat, runtime: Option<Journal.Bytes>)
    requires RefusesBom(parse) && After(parse, runId, steps).terminal && !After(parse, runId, steps).finished
    ensures var r := After(parse, runId, steps);
            var end := After(parse, runId, steps + [Finish(Verifies(r.snapshot, artifactAccepted), true)]);
            && end.finished
            && Restored(parse, runId, r, artifactAccepted, size, runtime)
               == if FoldAllows(Journal.ReduceFile(parse, runId, MirrorFile(r)), end.snapshot)
                     && size(end.snapshot) <= MAX_SNAPSHOT_FILE
                     && Agrees(runtime, MirrorFile(r)) then Some(end.snapshot)
                  else None
  {
    AfterIsSafe(parse, runId, steps);
    AfterIsMirrored(parse, runId, steps);
    FinishingStep(parse, runId, steps, artifactAccepted);
    hide After, LiveOk, Mirrored, Restored, Finished, Verifies, FoldAllows, Restore.Decide, Journal.ReduceFile,
         MirrorFile;
    EndIsRestoredExactly(parse, runId, After(parse, runId, steps), artifactAccepted, size, runtime);
  }

  lemma FinishingStep(parse: Parser, runId: string, steps: seq<Step>, artifactAccepted: ResultRef -> bool)
    requires After(parse, runId, steps).terminal && !After(parse, runId, steps).finished
    ensures var r := After(parse, runId, steps);
            var end := After(parse, runId, steps + [Finish(Verifies(r.snapshot, artifactAccepted), true)]);
            end == Finished(r, artifactAccepted) && end.finished
  {
    hide FinishedRun;
    var last := Finish(Verifies(After(parse, runId, steps).snapshot, artifactAccepted), true);
    assert (steps + [last])[..|steps + [last]| - 1] == steps;
    FinishedIsFinished(After(parse, runId, steps), artifactAccepted);
  }

  lemma FinishedIsFinished(r: Live, artifactAccepted: ResultRef -> bool)
    ensures Finished(r, artifactAccepted).finished
  {
  }

  lemma EndIsRestoredExactly(parse: Parser, runId: string, r: Live, artifactAccepted: ResultRef -> bool,
                             size: Snapshot -> nat, runtime: Option<Journal.Bytes>)
    requires RefusesBom(parse) && LiveOk(parse, runId, r) && Mirrored(parse, runId, r) && r.terminal && !r.finished
    ensures var s := Finished(r, artifactAccepted).snapshot;
            Restored(parse, runId, r, artifactAccepted, size, runtime)
            == if FoldAllows(Journal.ReduceFile(parse, runId, MirrorFile(r)), s) && size(s) <= MAX_SNAPSHOT_FILE
                  && Agrees(runtime, MirrorFile(r)) then Some(s)
               else None
  {
    hide *;
    var fold := Journal.ReduceFile(parse, runId, MirrorFile(r));
    RestoredIsDecided(parse, runId, r, artifactAccepted, size, runtime);
    if fold.None? || !Agrees(runtime, MirrorFile(r)) {
      NothingAllows(Finished(r, artifactAccepted).snapshot);
    } else {
      var more := FoldGoesOn(parse, runId, r);
      FoldDecides(parse, runId, r, artifactAccepted, fold.value, more);
      if Verifies(r.snapshot, artifactAccepted) && size(Finished(r, artifactAccepted).snapshot) > MAX_SNAPSHOT_FILE {
        UnreadOutcome(runId, r, fold, artifactAccepted, size);
      } else if Verifies(r.snapshot, artifactAccepted) {
        StoredOutcome(runId, r, fold, artifactAccepted, size);
      } else {
        EndOfRun(parse, runId, r);
        UnverifiedOutcome(runId, r, Replayed(runId, r).value, more, fold.value, artifactAccepted, size);
      }
    }
  }

  lemma StoredOutcome(runId: string, r: Live, fold: Option<Snapshot>, artifactAccepted: ResultRef -> bool,
                      size: Snapshot -> nat)
    requires Verifies(r.snapshot, artifactAccepted) && size(Finished(r, artifactAccepted).snapshot) <= MAX_SNAPSHOT_FILE
    requires Finished(r, artifactAccepted).snapshot.runId == runId
    ensures Outcome(runId, fold, StoreOf(r, artifactAccepted, size), artifactAccepted)
            == Restore.Decide(fold, Finished(r, artifactAccepted).snapshot, artifactAccepted, false)
  {
    hide Restore.Decide, Verifies, Finished;
  }

  lemma UnreadOutcome(runId: string, r: Live, fold: Option<Snapshot>, artifactAccepted: ResultRef -> bool,
                      size: Snapshot -> nat)
    requires Verifies(r.snapshot, artifactAccepted) && size(Finished(r, artifactAccepted).snapshot) > MAX_SNAPSHOT_FILE
    ensures Outcome(runId, fold, StoreOf(r, artifactAccepted, size), artifactAccepted).None?
  {
  }

  /** A run whose artifact was refused stores no snapshot, and is refused again. */
  lemma UnverifiedOutcome(runId: string, r: Live, base: Snapshot, more: seq<Envelope>, f: Snapshot,
                          artifactAccepted: ResultRef -> bool, size: Snapshot -> nat)
    requires !Verifies(r.snapshot, artifactAccepted) && (r.snapshot != base ==> Restore.SupervisorTerminal(r.snapshot))
    requires Replay(base, more) == Ok(f)
    ensures Outcome(runId, Some(f), StoreOf(r, artifactAccepted, size), artifactAccepted).None?
    ensures !FoldAllows(Some(f), Finished(r, artifactAccepted).snapshot)
  {
    hide Replay;
    assert r.snapshot == base;
    NoMoreEnvelopes(base, more);
  }

  lemma NothingAllows(s: Snapshot)
    ensures !FoldAllows(None, s)
  {
  }

  lemma SameMirrorFile(r: Live, t: Live)
    requires r.mirror == t.mirror
    ensures MirrorFile(r) == MirrorFile(t)
  {
  }

  // ---- Fault by fault ----

  predicate Fits(r: Live) { |MirrorFile(r)| <= Journal.MAX_JOURNAL_FILE }

  /**
   Without a fault, the mirror is a journal that folds to the accepted envelopes' snapshot, if it is not too large.
   */
  lemma FoldWithoutFault(parse: Parser, runId: string, r: Live)
    requires RefusesBom(parse) && LiveOk(parse, runId, r) && !r.faulted
    ensures Replayed(runId, r).Ok?
    ensures Journal.ReduceFile(parse, runId, MirrorFile(r)) == if Fits(r) then Some(Replayed(runId, r).value) else None
  {
    Utf8.DecodeEncode(r.mirror);
    hide ControlsOk, SourceOk, Replay;
    if r.mirror != "" && r.mirror[0] == '\U{FEFF}' {
      BomLeavesRest(parse, InitialSnapshot(runId), r.mirror);
      assert false;
    }
  }

  /**
   Whether the end of a run is allowed by the fold of its mirror, when that is the snapshot of the accepted envelopes.
   */
  lemma BaseAllows(base: Snapshot, r: Live, artifactAccepted: ResultRef -> bool)
    requires IsTerminal(r.snapshot.status)
    requires r.snapshot == base.(status := r.snapshot.status, failure := r.snapshot.failure,
                                 failureClass := r.snapshot.failureClass)
    requires r.snapshot != base ==> !r.snapshot.status.Succeeded?
    ensures FoldAllows(Some(base), Finished(r, artifactAccepted).snapshot)
            <==> Verifies(r.snapshot, artifactAccepted) && (IsTerminal(base.status) ==> r.snapshot == base)
  {
    hide Finished, Verifies;
    FinishedKeeps(r, artifactAccepted);
    if r.snapshot != base { OpenIsVerified(r.snapshot, artifactAccepted); }
  }

  lemma OpenIsVerified(s: Snapshot, artifactAccepted: ResultRef -> bool)
    requires !s.status.Succeeded?
    ensures Verifies(s, artifactAccepted)
  {
  }

  /**
   A run without a fault is restored as it finished, unless its mirror or stored snapshot is too large, its artifact is
   not accepted, or a runtime journal differs.
   */
  lemma UnfaultedRunIsRestored(parse: Parser, runId: string, steps: seq<Step>, artifactAccepted: ResultRef -> bool,
                               size: Snapshot -> nat, runtime: Option<Journal.Bytes>)
    requires RefusesBom(parse)
    requires var r := After(parse, runId, steps); r.terminal && !r.finished && !r.faulted
    ensures var r := After(parse, runId, steps);
            var end := After(parse, runId, steps + [Finish(Verifies(r.snapshot, artifactAccepted), true)]);
            Restored(parse, runId, r, artifactAccepted, size, runtime)
            == if Fits(r) && Verifies(r.snapshot, artifactAccepted) && size(end.snapshot) <= MAX_SNAPSHOT_FILE
                  && Agrees(runtime, MirrorFile(r)) then Some(end.snapshot)
               else None
  {
    hide *;
    var r := After(parse, runId, steps);
    AfterIsSafe(parse, runId, steps);
    FinishingStep(parse, runId, steps, artifactAccepted);
    RestoredExactly(parse, runId, steps, artifactAccepted, size, runtime);
    FoldWithoutFault(parse, runId, r);
    UnfaultedEnd(parse, runId, r);
    BaseAllows(Replayed(runId, r).value, r, artifactAccepted);
    NothingAllows(Finished(r, artifactAccepted).snapshot);
  }

  /** snapshot.json shows every prompt, so it has at least as many bytes. */
  function PromptBytes(s: Snapshot): nat { TotalOver(s.occurrences.order, s.occurrences.at, PromptOf) }

  function PromptOf(o: Occurrence): nat { |Utf8.Encode(o.prompt)| }

  /**
   Once the snapshot of a run was stored with more bytes than are read, every restore refuses, whatever the journals
   hold.
   */
  lemma LargeSnapshotIsRefused(parse: Parser, runId: string, r: Live, files: seq<Option<Journal.Bytes>>,
                               artifactAccepted: ResultRef -> bool, size: Snapshot -> nat, ownerLive: bool)
    requires IsTerminal(r.snapshot.status) && Verifies(r.snapshot, artifactAccepted)
    requires size(r.snapshot) >= PromptBytes(r.snapshot) > MAX_SNAPSHOT_FILE
    ensures Restore.RestoreOutcome(parse, runId, files, StoreOf(r, artifactAccepted, size), artifactAccepted,
                                   ownerLive).None?
  {
    hide Restore.AcceptedJournals, Restore.Furthest, PromptBytes, Finished, Verifies;
    FinishedKeeps(r, artifactAccepted);
  }

  lemma UnfaultedEnd(parse: Parser, runId: string, r: Live)
    requires LiveOk(parse, runId, r) && r.terminal && !r.finished && !r.faulted
    ensures Replayed(runId, r).Ok? && IsTerminal(r.snapshot.status)
    ensures var base := Replayed(runId, r).value;
            && r.snapshot == base.(status := r.snapshot.status, failure := r.snapshot.failure,
                                   failureClass := r.snapshot.failureClass)
            && (r.snapshot != base ==> !r.snapshot.status.Succeeded?)
            && (IsTerminal(base.status) ==> r.snapshot == base)
  {
    hide Replay, LedgerOk, ResolutionsOk, MirrorOk;
  }

  /**
   The exit of a process on a run without a fault until then, with or without a terminal event, torn or not, cancelled
   or not: the run is restored as it finished, unless its mirror or its stored snapshot is too large, its artifact is
   not accepted, a runtime journal differs, or torn text after a terminal event other than a failure made the supervisor
   fail a run that its journal shows as ended otherwise.
   */
  lemma ExitIsRestored(parse: Parser, runId: string, steps: seq<Step>, artifactAccepted: ResultRef -> bool,
                       size: Snapshot -> nat, runtime: Option<Journal.Bytes>)
    requires RefusesBom(parse) && !After(parse, runId, steps).terminal && !After(parse, runId, steps).faulted
    ensures var before, r := After(parse, runId, steps), After(parse, runId, steps + [Close]);
            var end := After(parse, runId, steps + [Close] + [Finish(Verifies(r.snapshot, artifactAccepted), true)]);
            r.terminal && !r.finished
            && Restored(parse, runId, r, artifactAccepted, size, runtime)
               == if Fits(before) && Verifies(r.snapshot, artifactAccepted) && size(end.snapshot) <= MAX_SNAPSHOT_FILE
                     && Agrees(runtime, MirrorFile(r))
                     && (IsTerminal(before.snapshot.status) ==>
                           IsBlank(before.buffer) || before.snapshot.status.Failed?)
                  then Some(end.snapshot)
                  else None
  {
    hide *;
    var before, r := After(parse, runId, steps), After(parse, runId, steps + [Close]);
    AfterIsSafe(parse, runId, steps);
    AfterIsSafe(parse, runId, steps + [Close]);
    ClosingStep(parse, runId, steps);
    ClosedKeepsSource(before);
    FinishedComesLast(parse, runId, before);
    FinishingStep(parse, runId, steps + [Close], artifactAccepted);
    RestoredExactly(parse, runId, steps + [Close], artifactAccepted, size, runtime);
    SameMirrorFile(before, r);
    FoldWithoutFault(parse, runId, before);
    ClosedEnd(parse, runId, before);
    BaseAllows(before.snapshot, r, artifactAccepted);
    NothingAllows(Finished(r, artifactAccepted).snapshot);
  }

  lemma ClosingStep(parse: Parser, runId: string, steps: seq<Step>)
    requires !After(parse, runId, steps).terminal
    ensures After(parse, runId, steps + [Close]) == ClosedRun(After(parse, runId, steps))
  {
    hide ClosedRun;
    assert (steps + [Close])[..|steps + [Close]| - 1] == steps;
  }

  lemma FinishedComesLast(parse: Parser, runId: string, r: Live)
    requires LiveOk(parse, runId, r) && !r.terminal
    ensures !ClosedRun(r).finished && ClosedRun(r).terminal
  {
    hide Replay, LedgerOk, ResolutionsOk, MirrorOk, IsTerminal, IsBlank, CancelledBySupervisor, FailedBySupervisor;
  }

  lemma ClosedEnd(parse: Parser, runId: string, r: Live)
    requires LiveOk(parse, runId, r) && !r.terminal && !r.faulted
    ensures Replayed(runId, r) == Ok(r.snapshot)
    ensures var s := ClosedRun(r).snapshot;
            && IsTerminal(s.status)
            && s == r.snapshot.(status := s.status, failure := s.failure, failureClass := s.failureClass)
            && (s != r.snapshot ==> !s.status.Succeeded?)
            && (IsTerminal(r.snapshot.status) ==> (s == r.snapshot <==> IsBlank(r.buffer) || r.snapshot.status.Failed?))
  {
    hide Replay, LedgerOk, ResolutionsOk, MirrorOk, IsBlank, Reject;
  }

  /** Once a mirror does not fold, no longer one does. */
  lemma RefusedMirrorGrows(parse: Parser, s: Snapshot, mirror: string, longer: string)
    requires Journal.FoldLines(parse, s, mirror).None? && mirror <= longer
    ensures Journal.FoldLines(parse, s, longer).None?
  {
    hide Journal.FoldLines;
    assert longer == mirror + longer[|mirror|..];
    Journal.FoldAppend(parse, s, mirror, longer[|mirror|..]);
  }

  lemma {:induction false} MirrorOnlyGrows(parse: Parser, runId: string, steps: seq<Step>, more: seq<Step>)
    ensures After(parse, runId, steps).mirror <= After(parse, runId, steps + more).mirror
  {
    hide Next;
    if more == [] {
      assert steps + more == steps;
    } else {
      var init, last := more[..|more| - 1], more[|more| - 1];
      MirrorOnlyGrows(parse, runId, steps, init);
      assert (steps + more)[..|steps + more| - 1] == steps + init;
      StepGrowsMirror(parse, After(parse, runId, steps + init), last);
    }
  }

  lemma StepGrowsMirror(parse: Parser, r: Live, step: Step)
    ensures r.mirror <= Next(parse, r, step).mirror
  {
    hide ConsumeLines;
    if step.Output? {
      ConsumeLinesGrowsMirror(parse, r.(buffer := r.buffer + step.chunk));
    } else {
      OtherStepsKeepSource(parse, r, step);
    }
  }

  /** The reading after the first line of the buffer is taken off and mirrored. */
  function LineTaken(r: Live): Live
    requires Journal.LineEnd(r.buffer) < |r.buffer|
  {
    var end := Journal.LineEnd(r.buffer);
    r.(buffer := r.buffer[end + 1..], mirror := r.mirror + r.buffer[..end] + "\n")
  }

  lemma ConsumeUnfolds(parse: Parser, r: Live)
    requires Journal.LineEnd(r.buffer) < |r.buffer|
    ensures var line, next := r.buffer[..Journal.LineEnd(r.buffer)], LineTaken(r);
            ConsumeLines(parse, r)
            == if line == "" then ConsumeLines(parse, next)
               else if |Utf8.Encode(line)| > Journal.MAX_FRAME then Fail(next, OVERLONG)
               else ConsumeLines(parse, TakeLine(parse, next, line))
  {
    hide TakeLine, Fail, Utf8.Encode, Journal.LineEnd;
  }

  lemma TakenLine(r: Live)
    requires Journal.LineEnd(r.buffer) < |r.buffer|
    ensures r.mirror <= LineTaken(r).mirror && |LineTaken(r).buffer| < |r.buffer|
    ensures Journal.LineEnd(r.buffer[..Journal.LineEnd(r.buffer)]) == Journal.LineEnd(r.buffer)
  {
  }

  lemma {:induction false} ConsumeLinesGrowsMirror(parse: Parser, r: Live)
    ensures r.mirror <= ConsumeLines(parse, r).mirror
    ensures Journal.LineEnd(r.buffer) < |r.buffer| ==> LineTaken(r).mirror <= ConsumeLines(parse, r).mirror
    decreases |r.buffer|
  {
    if Journal.LineEnd(r.buffer) < |r.buffer| {
      ConsumeUnfolds(parse, r);
      TakenLine(r);
      hide *;
      var line, next := r.buffer[..Journal.LineEnd(r.buffer)], LineTaken(r);
      if line == "" {
        ConsumeLinesGrowsMirror(parse, next);
      } else if |Utf8.Encode(line)| > Journal.MAX_FRAME {
        FailKeepsText(next, OVERLONG);
      } else {
        TakeLineKeepsBuffer(parse, next, line);
        ConsumeLinesGrowsMirror(parse, TakeLine(parse, next, line));
      }
    }
  }

  /** Text with a line that the reducer, the parser or the frame limit refuses leaves a mirror that does not fold. */
  lemma {:induction false} RefusedLineIsMirrored(parse: Parser, s: Snapshot, r: Live, t: Snapshot)
    requires Journal.FoldLines(parse, s, r.mirror) == Some((t, "")) && Journal.FoldLines(parse, t, r.buffer).None?
    ensures Journal.FoldLines(parse, s, ConsumeLines(parse, r).mirror).None?
    decreases |r.buffer|
  {
    hide *;
    RefusedHasLine(parse, t, r.buffer);
    ConsumeUnfolds(parse, r);
    TakenLine(r);
    var line, next := r.buffer[..Journal.LineEnd(r.buffer)], LineTaken(r);
    LineIsFolded(parse, s, r, t, line);
    match Journal.ReduceLine(parse, t, line)
    case None =>
      ConsumeLinesGrowsMirror(parse, r);
      RefusedMirrorGrows(parse, s, next.mirror, ConsumeLines(parse, r).mirror);
    case Some(u) =>
      RestIsRefused(parse, t, r, u);
      if line == "" {
        RefusedLineIsMirrored(parse, s, next, u);
      } else {
        AcceptedLineFits(parse, t, line);
        TakeLineKeepsBuffer(parse, next, line);
        RefusedLineIsMirrored(parse, s, TakeLine(parse, next, line), u);
      }
  }

  lemma RefusedHasLine(parse: Parser, t: Snapshot, text: string)
    requires Journal.FoldLines(parse, t, text).None?
    ensures Journal.LineEnd(text) < |text|
  {
  }

  lemma LineIsFolded(parse: Parser, s: Snapshot, r: Live, t: Snapshot, line: string)
    requires Journal.LineEnd(r.buffer) < |r.buffer| && line == r.buffer[..Journal.LineEnd(r.buffer)]
             && Journal.LineEnd(line) == |line|
    requires Journal.FoldLines(parse, s, r.mirror) == Some((t, ""))
    ensures Journal.FoldLines(parse, s, LineTaken(r).mirror)
            == match Journal.ReduceLine(parse, t, line) case None => None case Some(u) => Some((u, ""))
  {
    hide Journal.ReduceLine, Journal.FoldLines, Journal.LineEnd;
    FoldOneLine(parse, t, line);
    assert "" + (line + "\n") == line + "\n" && r.mirror + (line + "\n") == r.mirror + line + "\n";
    Journal.FoldAppend(parse, s, r.mirror, line + "\n");
  }

  lemma RestIsRefused(parse: Parser, t: Snapshot, r: Live, u: Snapshot)
    requires Journal.LineEnd(r.buffer) < |r.buffer|
             && Journal.ReduceLine(parse, t, r.buffer[..Journal.LineEnd(r.buffer)]) == Some(u)
    ensures Journal.FoldLines(parse, t, r.buffer) == Journal.FoldLines(parse, u, LineTaken(r).buffer)
  {
    hide Journal.ReduceLine, Journal.LineEnd;
  }

  lemma AcceptedLineFits(parse: Parser, t: Snapshot, line: string)
    requires Journal.ReduceLine(parse, t, line).Some? && line != ""
    ensures |Utf8.Encode(line)| <= Journal.MAX_FRAME
  {
  }

  /**
   After output with a complete line that is refused or overlong, on a run without a fault until then: whatever steps
   follow, every restore refuses the store, whatever else it holds. The line is mirrored too.
   */
  lemma RefusedLineIsNotRestored(parse: Parser, runId: string, steps: seq<Step>, chunk: string, more: seq<Step>,
                                 runtime: Option<Journal.Bytes>, snapshotFile: Restore.SnapshotFile,
                                 artifactAccepted: ResultRef -> bool, ownerLive: bool)
    requires var before := After(parse, runId, steps);
             && !before.terminal && !before.faulted && Utf16Length(before.buffer + chunk) <= 2 * Journal.MAX_FRAME
             && Journal.FoldLines(parse, before.snapshot, before.buffer + chunk).None?
    requires var mirror := After(parse, runId, steps + [Output(chunk)] + more).mirror;
             mirror != "" ==> mirror[0] != '\U{FEFF}'
    ensures var r := After(parse, runId, steps + [Output(chunk)] + more);
            Restore.RestoreOutcome(parse, runId, [runtime, Some(MirrorFile(r))], snapshotFile, artifactAccepted,
                                   ownerLive).None?
  {
    hide *;
    var before, read := After(parse, runId, steps), After(parse, runId, steps + [Output(chunk)]);
    var r := After(parse, runId, steps + [Output(chunk)] + more);
    AfterIsSafe(parse, runId, steps);
    UnfaultedMirror(parse, runId, before);
    OutputStep(parse, runId, steps, chunk);
    RefusedLineIsMirrored(parse, InitialSnapshot(runId), before.(buffer := before.buffer + chunk), before.snapshot);
    MirrorOnlyGrows(parse, runId, steps + [Output(chunk)], more);
    RefusedMirrorGrows(parse, InitialSnapshot(runId), read.mirror, r.mirror);
    RefusedText(parse, runId, r);
    RefusedFile(parse, runId, [runtime, Some(MirrorFile(r))], snapshotFile, artifactAccepted, ownerLive, MirrorFile(r));
  }

  lemma UnfaultedMirror(parse: Parser, runId: string, r: Live)
    requires LiveOk(parse, runId, r) && !r.terminal && !r.faulted
    ensures Journal.FoldLines(parse, InitialSnapshot(runId), r.mirror) == Some((r.snapshot, ""))
  {
    hide ControlsOk, Replay, Journal.FoldLines;
  }

  lemma OutputStep(parse: Parser, runId: string, steps: seq<Step>, chunk: string)
    requires var before := After(parse, runId, steps);
             !before.terminal && Utf16Length(before.buffer + chunk) <= 2 * Journal.MAX_FRAME
    ensures var before := After(parse, runId, steps);
            After(parse, runId, steps + [Output(chunk)])
              == ConsumeLines(parse, before.(buffer := before.buffer + chunk))
  {
    hide ConsumeLines;
    assert (steps + [Output(chunk)])[..|steps + [Output(chunk)]| - 1] == steps;
  }

  lemma RefusedText(parse: Parser, runId: string, r: Live)
    requires Journal.FoldLines(parse, InitialSnapshot(runId), r.mirror).None?
             && (r.mirror != "" ==> r.mirror[0] != '\U{FEFF}')
    ensures Journal.ReduceFile(parse, runId, MirrorFile(r)).None?
  {
    hide Journal.FoldLines, Utf8.Encode;
    Utf8.DecodeEncode(r.mirror);
  }
}
