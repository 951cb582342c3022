/**
 What a restore makes of the store of a run whose supervisor stopped before the end, with its mirror cut at any byte.
 */
module StoppedRuns {
  import opened Prelude
  import opened Snapshots
  import opened Reducer
  import opened Controls
  import opened ControlTheorems
  import opened RestoredRuns
  import Journal
  import Restore
  import RunTheorems
  import Utf8

  /** The mirror as far as it was written. */
  function CutFile(r: Live, k: nat): Journal.Bytes
    requires k <= |MirrorFile(r)|
  {
    MirrorFile(r)[..k]
  }

  /** Either the accepted envelopes go on from these, or these from them. */
  ghost predicate FoldsTo(runId: string, r: Live, run: seq<Envelope>, s: Snapshot) {
    (run <= r.accepted || r.accepted <= run) && Replay(InitialSnapshot(runId), run) == Ok(s)
  }

  // ---- The text of a cut mirror is a beginning of the mirrored text ----

  lemma CutText(r: Live, k: nat)
    requires k <= |MirrorFile(r)| && Journal.JournalText(CutFile(r, k)).Some?
    ensures var text := Utf8.Run([], CutFile(r, k)).value.0;
            && text <= r.mirror && CutFile(r, k) == Utf8.Encode(text)
            && Journal.JournalText(CutFile(r, k)).value == Utf8.StripBom(text)
  {
    hide Utf8.Run, Utf8.Encode;
    Utf8.DecodedPrefix(r.mirror, CutFile(r, k));
    Utf8.RunSound([], CutFile(r, k));
    var text := Utf8.Run([], CutFile(r, k)).value.0;
    assert [] + CutFile(r, k) == CutFile(r, k) && Utf8.Encode(text) + [] == Utf8.Encode(text);
  }

  /** Two beginnings of one text, and what their lines say. */
  lemma BeginningsSay(parse: Parser, a: string, b: string, whole: string)
    requires a <= whole && b <= whole
    ensures Journal.EventsOf(parse, a) <= Journal.EventsOf(parse, b)
            || Journal.EventsOf(parse, b) <= Journal.EventsOf(parse, a)
  {
    hide Journal.EventsOf;
    if |a| <= |b| {
      assert b == a + b[|a|..];
      Journal.EventsGrow(parse, a, b[|a|..]);
    } else {
      assert a == b + a[|b|..];
      Journal.EventsGrow(parse, b, a[|b|..]);
    }
  }

  /**
   After any fault or none: whatever a cut mirror folds to is a replay from which the accepted envelopes go on, or that
   goes on from them.
   */
  lemma CutFoldIsReplay(parse: Parser, runId: string, r: Live, k: nat) returns (run: seq<Envelope>)
    requires RefusesBom(parse) && Mirrored(parse, runId, r) && k <= |MirrorFile(r)|
    requires Journal.ReduceFile(parse, runId, CutFile(r, k)).Some?
    ensures FoldsTo(runId, r, run, Journal.ReduceFile(parse, runId, CutFile(r, k)).value)
    ensures run == Journal.EventsOf(parse, Journal.JournalText(CutFile(r, k)).value)
  {
    hide Journal.EventsOf, Journal.FoldLines, Replay, CutFile, Utf8.Run;
    var kept: string :| Begins(parse, runId, r, kept);
    var s, text := InitialSnapshot(runId), Journal.JournalText(CutFile(r, k)).value;
    CutText(r, k);
    Journal.FoldIsReplay(parse, s, text);
    run := Journal.EventsOf(parse, text);
    if r.mirror != "" && r.mirror[0] == '\U{FEFF}' {
      if kept != "" { BomLeavesRest(parse, s, kept); }
      NothingSaid(parse);
    } else {
      BeginningsSay(parse, text, kept, r.mirror);
    }
  }

  lemma NothingSaid(parse: Parser)
    ensures Journal.EventsOf(parse, "") == []
  {
  }

  // ---- Without a fault, exactly the cuts after a complete line fold ----

  predicate CutAfterLine(r: Live, k: nat)
    requires k <= |MirrorFile(r)|
  {
    k <= Journal.MAX_JOURNAL_FILE && (k == 0 || MirrorFile(r)[k - 1] == 10)
  }

  lemma UnfaultedBegins(parse: Parser, runId: string, r: Live)
    requires RefusesBom(parse) && LiveOk(parse, runId, r) && !r.faulted
    ensures Replayed(runId, r).Ok?
    ensures Journal.FoldLines(parse, InitialSnapshot(runId), r.mirror) == Some((Replayed(runId, r).value, ""))
    ensures r.mirror != "" ==> r.mirror[0] != '\U{FEFF}'
  {
    hide ControlsOk, SourceOk, Replay, Journal.FoldLines;
    if r.mirror != "" && r.mirror[0] == '\U{FEFF}' {
      BomLeavesRest(parse, InitialSnapshot(runId), r.mirror);
      assert false;
    }
  }

  lemma CutFolds(parse: Parser, runId: string, r: Live, k: nat)
    requires RefusesBom(parse) && LiveOk(parse, runId, r) && !r.faulted && k <= |MirrorFile(r)|
    ensures Journal.ReduceFile(parse, runId, CutFile(r, k)).Some? <==> CutAfterLine(r, k)
  {
    hide LiveOk, Replay, Journal.FoldLines, CutFile, CutAfterLine;
    UnfaultedBegins(parse, runId, r);
    if CutAfterLine(r, k) { CompleteCutFolds(parse, runId, r, k); }
    if Journal.ReduceFile(parse, runId, CutFile(r, k)).Some? { FoldedCutIsComplete(parse, runId, r, k); }
  }

  lemma CompleteCutFolds(parse: Parser, runId: string, r: Live, k: nat)
    requires k <= |MirrorFile(r)| && CutAfterLine(r, k) && (r.mirror != "" ==> r.mirror[0] != '\U{FEFF}')
    requires Journal.FoldLines(parse, InitialSnapshot(runId), r.mirror).Some?
    ensures Journal.ReduceFile(parse, runId, CutFile(r, k)).Some?
  {
    hide Journal.FoldLines, Utf8.Run, Utf8.Encode;
    var j := 0;
    if k > 0 {
      j := Utf8.CutAtNewline(r.mirror, k);
    } else {
      Utf8.AsciiEncoded("");
    }
    var text := r.mirror[..j];
    assert CutFile(r, k) == Utf8.Encode(text);
    assert text == "" || text[0] == r.mirror[0];
    Utf8.DecodeEncode(text);
    assert r.mirror == text + r.mirror[j..];
    Journal.FoldAppend(parse, InitialSnapshot(runId), text, r.mirror[j..]);
    Journal.NothingLeftOver(parse, InitialSnapshot(runId), text);
  }

  lemma FoldedCutIsComplete(parse: Parser, runId: string, r: Live, k: nat)
    requires k <= |MirrorFile(r)| && (r.mirror != "" ==> r.mirror[0] != '\U{FEFF}')
    requires Journal.ReduceFile(parse, runId, CutFile(r, k)).Some?
    ensures CutAfterLine(r, k)
  {
    hide Journal.FoldLines, Utf8.Run, Utf8.Encode;
    CutText(r, k);
    var text := Journal.JournalText(CutFile(r, k)).value;
    assert text == Utf8.Run([], CutFile(r, k)).value.0;
    Journal.NothingLeftOver(parse, InitialSnapshot(runId), text);
    if text == "" {
      Utf8.AsciiEncoded("");
    } else {
      Utf8.NewlineEndsEncoding(text);
      assert CutFile(r, k)[k - 1] == MirrorFile(r)[k - 1];
    }
  }

  /**
   Without a fault, the lines of the whole mirror are the accepted envelopes, and those of a cut are the first of them.
   */
  lemma CutSaysLess(parse: Parser, runId: string, r: Live, k: nat)
    requires RefusesBom(parse) && LiveOk(parse, runId, r) && Mirrored(parse, runId, r) && !r.faulted
    requires k <= |MirrorFile(r)| && Journal.JournalText(CutFile(r, k)).Some?
    ensures Journal.EventsOf(parse, Journal.JournalText(CutFile(r, k)).value) <= r.accepted
  {
    hide LiveOk, Mirrored, Replay, Journal.FoldLines, Journal.EventsOf, CutFile, Utf8.Run;
    UnfaultedBegins(parse, runId, r);
    MirrorSays(parse, runId, r);
    CutText(r, k);
    var text := Journal.JournalText(CutFile(r, k)).value;
    assert r.mirror == text + r.mirror[|text|..];
    Journal.EventsGrow(parse, text, r.mirror[|text|..]);
  }

  // ---- The restore ----

  /** The outcome for a mirror that folds, when there is no snapshot.json. */
  function OutcomeOfFold(fold: Snapshot, artifactAccepted: ResultRef -> bool): Option<Snapshot> {
    if !IsTerminal(fold.status) then Some(Restore.Orphan(fold))
    else if Restore.ResultVerified(fold, artifactAccepted) then Some(fold)
    else None
  }

  lemma WithoutSnapshot(runId: string, fold: Snapshot, artifactAccepted: ResultRef -> bool)
    ensures Outcome(runId, Some(fold), Restore.Missing, artifactAccepted) == OutcomeOfFold(fold, artifactAccepted)
  {
  }

  /**
   While no snapshot.json is stored, for every interleaving, after any fault or none, with the mirror cut at any byte
   and any runtime journal: the restore refuses a cut that does not fold and a runtime journal with other bytes; a
   terminal fold is the outcome if its artifact is accepted; any other fold is orphaned. The fold is a replay from which
   the accepted envelopes go on, or that goes on from them. Without a fault it is the former, and exactly the cuts after
   complete lines fold.
   */
  lemma StoppedRunIsRestored(parse: Parser, runId: string, steps: seq<Step>, k: nat, runtime: Option<Journal.Bytes>,
                             artifactAccepted: ResultRef -> bool)
    requires RefusesBom(parse) && k <= |MirrorFile(After(parse, runId, steps))|
    ensures var r := After(parse, runId, steps);
            var fold := Journal.ReduceFile(parse, runId, CutFile(r, k));
            && Restore.RestoreOutcome(parse, runId, [runtime, Some(CutFile(r, k))], Restore.Missing, artifactAccepted,
                                      false)
               == (if fold.None? || !Agrees(runtime, CutFile(r, k)) then None
                   else OutcomeOfFold(fold.value, artifactAccepted))
            && (fold.Some? ==> exists run :: FoldsTo(runId, r, run, fold.value) && (!r.faulted ==> run <= r.accepted))
            && (!r.faulted ==> (fold.Some? <==> CutAfterLine(r, k)))
  {
    hide *;
    var r := After(parse, runId, steps);
    var fold := Journal.ReduceFile(parse, runId, CutFile(r, k));
    AfterIsSafe(parse, runId, steps);
    AfterIsMirrored(parse, runId, steps);
    FileIsDecided(parse, runId, runtime, CutFile(r, k), Restore.Missing, artifactAccepted);
    if fold.Some? {
      WithoutSnapshot(runId, fold.value, artifactAccepted);
      FoldedHasText(parse, runId, CutFile(r, k));
      var run := CutFoldIsReplay(parse, runId, r, k);
      if !r.faulted { CutSaysLess(parse, runId, r, k); }
      assert FoldsTo(runId, r, run, fold.value) && (!r.faulted ==> run <= r.accepted);
    }
    if !r.faulted { CutFolds(parse, runId, r, k); }
  }

  lemma FoldedHasText(parse: Parser, runId: string, file: Journal.Bytes)
    requires Journal.ReduceFile(parse, runId, file).Some?
    ensures Journal.JournalText(file).Some?
  {
  }

  lemma BeginningIsOpen(s: Snapshot, first: seq<Envelope>, run: seq<Envelope>)
    requires first <= run && Replay(s, run).Ok? && !IsTerminal(Replay(s, run).value.status) && Replay(s, first).Ok?
    ensures !IsTerminal(Replay(s, first).value.status)
  {
    hide ReduceEvent;
    var t := Replay(s, first).value;
    assert run == first + run[|first|..];
    ReplayAppend(s, first, run[|first|..]);
    if IsTerminal(t.status) { RunTheorems.TerminalIsFinal(t, run[|first|..]); }
  }

  /**
   A run that was open and without a fault when its supervisor stopped is orphaned from every complete cut of its
   mirror: at the replay of its first envelopes, and from the whole mirror at the very snapshot that the supervisor
   held.
   */
  lemma OpenRunIsOrphaned(parse: Parser, runId: string, steps: seq<Step>, k: nat, runtime: Option<Journal.Bytes>,
                          artifactAccepted: ResultRef -> bool)
    requires RefusesBom(parse)
    requires var r := After(parse, runId, steps); !r.terminal && !r.faulted && !IsTerminal(r.snapshot.status)
    requires var r := After(parse, runId, steps);
             k <= |MirrorFile(r)| && CutAfterLine(r, k) && Agrees(runtime, CutFile(r, k))
    ensures var r := After(parse, runId, steps);
            var outcome := Restore.RestoreOutcome(parse, runId, [runtime, Some(CutFile(r, k))], Restore.Missing,
                                                  artifactAccepted, false);
            && (exists run, s :: run <= r.accepted && Replay(InitialSnapshot(runId), run) == Ok(s)
                  && outcome == Some(Restore.Orphan(s)))
            && (k == |MirrorFile(r)| ==> outcome == Some(Restore.Orphan(r.snapshot)))
  {
    hide *;
    var r := After(parse, runId, steps);
    AfterIsSafe(parse, runId, steps);
    StoppedRunIsRestored(parse, runId, steps, k, runtime, artifactAccepted);
    var fold := Journal.ReduceFile(parse, runId, CutFile(r, k)).value;
    var run :| FoldsTo(runId, r, run, fold) && (!r.faulted ==> run <= r.accepted);
    FoldsToReplay(runId, r, run, fold);
    OpenIsReplayed(parse, runId, r);
    BeginningIsOpen(InitialSnapshot(runId), run, r.accepted);
    OpenOutcome(fold, artifactAccepted);
    if k == |MirrorFile(r)| { WholeCutFolds(parse, runId, r, k); }
  }

  lemma FoldsToReplay(runId: string, r: Live, run: seq<Envelope>, s: Snapshot)
    requires FoldsTo(runId, r, run, s)
    ensures Replay(InitialSnapshot(runId), run) == Ok(s)
  {
    hide Replay;
  }

  lemma OpenIsReplayed(parse: Parser, runId: string, r: Live)
    requires LiveOk(parse, runId, r) && !r.terminal && !r.faulted
    ensures Replay(InitialSnapshot(runId), r.accepted) == Ok(r.snapshot)
  {
    hide ControlsOk, MirrorOk, Replay;
  }

  lemma OpenOutcome(fold: Snapshot, artifactAccepted: ResultRef -> bool)
    requires !IsTerminal(fold.status)
    ensures OutcomeOfFold(fold, artifactAccepted) == Some(Restore.Orphan(fold))
  {
    hide Restore.Orphan;
  }

  lemma WholeCutFolds(parse: Parser, runId: string, r: Live, k: nat)
    requires RefusesBom(parse) && LiveOk(parse, runId, r) && !r.terminal && !r.faulted
    requires k == |MirrorFile(r)| && CutAfterLine(r, k)
    ensures Journal.ReduceFile(parse, runId, CutFile(r, k)) == Some(r.snapshot)
  {
    hide LiveOk, Replay, Journal.ReduceFile, MirrorFile;
    FoldWithoutFault(parse, runId, r);
    OpenIsReplayed(parse, runId, r);
    assert CutFile(r, k) == MirrorFile(r);
  }

  // ---- While the owner lives ----

  /** The outcome for the furthest fold while the owner lives, when there is no snapshot.json. */
  function LiveOutcome(fold: Snapshot, artifactAccepted: ResultRef -> bool): Option<Snapshot> {
    if IsTerminal(fold.status) && !Restore.ResultVerified(fold, artifactAccepted) then None else Some(fold)
  }

  lemma LiveDecides(parse: Parser, runId: string, files: seq<Option<Journal.Bytes>>, journals: seq<Journal.Bytes>,
                    artifactAccepted: ResultRef -> bool)
    requires Restore.AcceptedJournals(parse, runId, true, files) == Some(journals)
    requires Restore.Furthest(parse, runId, journals).Some?
    ensures Restore.RestoreOutcome(parse, runId, files, Restore.Missing, artifactAccepted, true)
            == LiveOutcome(Restore.Furthest(parse, runId, journals).value, artifactAccepted)
  {
    hide Restore.AcceptedJournals, Restore.Furthest;
  }

  lemma NoFilesAccepted(parse: Parser, runId: string)
    ensures Restore.AcceptedJournals(parse, runId, true, []) == Some([]) && Restore.Furthest(parse, runId, []) == None
  {
  }

  /** One file alone. */
  lemma FirstAccepted(parse: Parser, runId: string, first: Option<Journal.Bytes>)
    ensures Restore.AcceptedJournals(parse, runId, true, [first])
            == if first.None? then Some([])
               else if Journal.ReduceFile(parse, runId, first.value).Some? then Some([first.value]) else None
  {
    hide Journal.ReduceFile, Restore.AcceptedJournals;
    NoFilesAccepted(parse, runId);
    assert [first][..0] == [] && [first][..1] == [first];
    Restore.AcceptedNext(parse, runId, true, [first], 0, []);
    assert first.Some? ==> [] + [first.value] == [first.value];
  }

  lemma OneFurthest(parse: Parser, runId: string, f: Journal.Bytes)
    requires Journal.ReduceFile(parse, runId, f).Some?
    ensures Restore.Furthest(parse, runId, [f]) == Journal.ReduceFile(parse, runId, f)
  {
    hide Journal.ReduceFile, Restore.Furthest;
    NoFilesAccepted(parse, runId);
    Restore.FurthestNext(parse, runId, [], f);
    assert [] + [f] == [f];
  }

  /** The fold of the two journals that goes further. */
  function Further(parse: Parser, runId: string, g: Journal.Bytes, f: Journal.Bytes): Snapshot
    requires Journal.ReduceFile(parse, runId, g).Some? && Journal.ReduceFile(parse, runId, f).Some?
  {
    Journal.ReduceFile(parse, runId, if g < f then f else g).value
  }

  /** A second file: accepted beside the first exactly when it is in step with it, and the longer one is followed. */
  lemma SecondAccepted(parse: Parser, runId: string, g: Journal.Bytes, f: Journal.Bytes)
    requires Journal.ReduceFile(parse, runId, g).Some?
    ensures var folds := Journal.ReduceFile(parse, runId, f).Some? && Restore.InStep(parse, runId, g, f);
            && Restore.AcceptedJournals(parse, runId, true, [Some(g), Some(f)])
            == (if folds then Some([g, f]) else None)
            && (folds ==> Restore.Furthest(parse, runId, [g, f]) == Some(Further(parse, runId, g, f)))
  {
    hide Journal.ReduceFile, Restore.AcceptedJournals, Restore.Furthest, Restore.Compatible;
    var files := [Some(g), Some(f)];
    FirstAccepted(parse, runId, Some(g));
    assert files[..1] == [Some(g)] && files[..2] == files && [g] + [f] == [g, f];
    Restore.AcceptedNext(parse, runId, true, files, 1, [g]);
    if Journal.ReduceFile(parse, runId, f).Some? {
      Restore.CompatibleExactly(parse, runId, true, g, f);
      OneFurthest(parse, runId, g);
      Restore.FurthestNext(parse, runId, [g], f);
    }
  }

  /**
   For every interleaving, every cut of the mirror at a byte and every runtime journal, while the owner lives and no
   snapshot.json is stored: the restore refuses a file that does not fold and two files that are out of step, and
   otherwise gives the fold of the longer one, open or not; only a terminal one whose artifact is not accepted is
   refused.
   */
  lemma LiveRunIsRestored(parse: Parser, runId: string, steps: seq<Step>, k: nat, runtime: Option<Journal.Bytes>,
                          artifactAccepted: ResultRef -> bool)
    requires k <= |MirrorFile(After(parse, runId, steps))|
    ensures var file := CutFile(After(parse, runId, steps), k);
            var outcome := Restore.RestoreOutcome(parse, runId, [runtime, Some(file)], Restore.Missing,
                                                  artifactAccepted, true);
            if Journal.ReduceFile(parse, runId, file).None? then outcome.None?
            else if runtime.None? then
              outcome == LiveOutcome(Journal.ReduceFile(parse, runId, file).value, artifactAccepted)
            else if (|| Journal.ReduceFile(parse, runId, runtime.value).None?
                     || !Restore.InStep(parse, runId, runtime.value, file)) then
              outcome.None?
            else outcome == LiveOutcome(Further(parse, runId, runtime.value, file), artifactAccepted)
  {
    hide *;
    LiveFiles(parse, runId, runtime, CutFile(After(parse, runId, steps), k), artifactAccepted);
  }

  lemma LiveFiles(parse: Parser, runId: string, runtime: Option<Journal.Bytes>, file: Journal.Bytes,
                  artifactAccepted: ResultRef -> bool)
    ensures var outcome := Restore.RestoreOutcome(parse, runId, [runtime, Some(file)], Restore.Missing,
                                                  artifactAccepted, true);
            if Journal.ReduceFile(parse, runId, file).None? then outcome.None?
            else if runtime.None? then
              outcome == LiveOutcome(Journal.ReduceFile(parse, runId, file).value, artifactAccepted)
            else if (|| Journal.ReduceFile(parse, runId, runtime.value).None?
                     || !Restore.InStep(parse, runId, runtime.value, file)) then
              outcome.None?
            else outcome == LiveOutcome(Further(parse, runId, runtime.value, file), artifactAccepted)
  {
    hide *;
    var files := [runtime, Some(file)];
    if Journal.ReduceFile(parse, runId, file).None? {
      RefusedFile(parse, runId, files, Restore.Missing, artifactAccepted, true, file);
    } else if runtime.None? {
      MirrorAlone(parse, runId, file);
      OneFurthest(parse, runId, file);
      LiveDecides(parse, runId, files, [file], artifactAccepted);
    } else if Journal.ReduceFile(parse, runId, runtime.value).None? {
      FirstAccepted(parse, runId, runtime);
      assert files[..1] == [runtime];
      Restore.RefusedJournals(parse, runId, true, files, 1);
      Restore.RefusedStore(parse, runId, files, Restore.Missing, artifactAccepted, true);
    } else {
      SecondAccepted(parse, runId, runtime.value, file);
      if Restore.InStep(parse, runId, runtime.value, file) {
        LiveDecides(parse, runId, files, [runtime.value, file], artifactAccepted);
      } else {
        Restore.RefusedStore(parse, runId, files, Restore.Missing, artifactAccepted, true);
      }
    }
  }

  lemma MirrorAlone(parse: Parser, runId: string, file: Journal.Bytes)
    requires Journal.ReduceFile(parse, runId, file).Some?
    ensures Restore.AcceptedJournals(parse, runId, true, [None, Some(file)]) == Some([file])
  {
    hide Journal.ReduceFile, Restore.AcceptedJournals;
    var files: seq<Option<Journal.Bytes>> := [None, Some(file)];
    FirstAccepted(parse, runId, None);
    assert files[..1] == [None] && files[..2] == files && [] + [file] == [file];
    Restore.AcceptedNext(parse, runId, true, files, 1, []);
  }

  /**
   While an open, unfaulted run is live, the restore of its whole mirror gives exactly the snapshot that its supervisor
   holds.
   */
  lemma OpenRunIsFollowed(parse: Parser, runId: string, steps: seq<Step>, runtime: Option<Journal.Bytes>,
                          artifactAccepted: ResultRef -> bool)
    requires RefusesBom(parse)
    requires var r := After(parse, runId, steps);
             !r.terminal && !r.faulted && !IsTerminal(r.snapshot.status) && Fits(r) && Agrees(runtime, MirrorFile(r))
    ensures var r := After(parse, runId, steps);
            Restore.RestoreOutcome(parse, runId, [runtime, Some(MirrorFile(r))], Restore.Missing, artifactAccepted,
                                   true)
            == Some(r.snapshot)
  {
    hide *;
    var r := After(parse, runId, steps);
    AfterIsSafe(parse, runId, steps);
    OpenIsReplayed(parse, runId, r);
    FoldWithoutFault(parse, runId, r);
    ReplayedIsReplay(runId, r);
    LiveFiles(parse, runId, runtime, MirrorFile(r), artifactAccepted);
    SameIsInStep(parse, runId, runtime, MirrorFile(r));
    OpenIsHeld(r.snapshot, artifactAccepted);
  }

  lemma ReplayedIsReplay(runId: string, r: Live)
    ensures Replayed(runId, r) == Replay(InitialSnapshot(runId), r.accepted)
  {
    hide Replay;
  }

  lemma SameIsInStep(parse: Parser, runId: string, runtime: Option<Journal.Bytes>, file: Journal.Bytes)
    requires Agrees(runtime, file) && Journal.ReduceFile(parse, runId, file).Some?
    ensures runtime.Some? ==>
              && runtime.value == file && Restore.InStep(parse, runId, runtime.value, file)
              && Further(parse, runId, runtime.value, file) == Journal.ReduceFile(parse, runId, file).value
  {
    hide Journal.ReduceFile;
  }

  lemma OpenIsHeld(s: Snapshot, artifactAccepted: ResultRef -> bool)
    requires !IsTerminal(s.status)
    ensures LiveOutcome(s, artifactAccepted) == Some(s)
  {
  }
}
