/**
 The decision that a restore takes from two journals and a stored snapshot (`restoreSnapshot` of
 ext-pi/src/supervisor.ts).
 */
module Restore {
  import opened Prelude
  import opened Snapshots
  import opened Reducer
  import opened Journal

  /** snapshot.json: absent, unreadable or malformed, or any snapshot value at all. */
  datatype SnapshotFile = Missing | Unreadable | Stored(snapshot: Snapshot)

  /** The comparison projection leaves only the event digests out. */
  function Projection(s: Snapshot): Snapshot { s.(eventDigests := map[]) }

  // ---- The journals ----

  predicate Compatible(parse: Parser, runId: string, ownerLive: bool, prior: Bytes, file: Bytes)
    requires ReduceFile(parse, runId, prior).Some? && ReduceFile(parse, runId, file).Some?
  {
    var a, b := JournalOf(parse, runId, prior), JournalOf(parse, runId, file);
    && JournalPrefix(a, prior, b, file)
    && (ownerLive || (SequenceOf(a.snapshot) == SequenceOf(b.snapshot)
                      && Projection(a.snapshot) == Projection(b.snapshot)))
  }

  /** The journals that a restore accepts, in the order in which it reads them. */
  function AcceptedJournals(parse: Parser, runId: string, ownerLive: bool,
                            files: seq<Option<Bytes>>): (r: Option<seq<Bytes>>)
    ensures r.Some? ==> forall f :: f in r.value ==> Some(f) in files && ReduceFile(parse, runId, f).Some?
  {
    if files == [] then Some([])
    else
      var last := files[|files| - 1];
      match AcceptedJournals(parse, runId, ownerLive, files[..|files| - 1])
      case None => None
      case Some(prior) =>
        if last.None? then Some(prior)
        else if ReduceFile(parse, runId, last.value).None? then None
        else if forall i :: 0 <= i < |prior| ==> Compatible(parse, runId, ownerLive, prior[i], last.value) then
          Some(prior + [last.value])
        else None
  }

  /** The fold of the first journal with the highest sequence. */
  function Furthest(parse: Parser, runId: string, journals: seq<Bytes>): Option<Snapshot>
    requires forall f :: f in journals ==> ReduceFile(parse, runId, f).Some?
  {
    if journals == [] then None
    else
      var init, last := journals[..|journals| - 1], journals[|journals| - 1];
      var before, s := Furthest(parse, runId, init), ReduceFile(parse, runId, last).value;
      if before.None? || SequenceOf(s) > SequenceOf(before.value) then Some(s) else before
  }

  // ---- The decision ----

  /** The outcomes that only a supervisor writes, without a terminal event. */
  predicate SupervisorTerminal(s: Snapshot) {
    && (s.status.Failed? || s.status.Cancelled?)
    && (s.failureClass == Some(SupervisorFailure) || s.failureClass == Some(ForcedTermination)
        || s.failureClass == Some(MissingTerminalEvent))
  }

  predicate ResultVerified(s: Snapshot, artifactAccepted: ResultRef -> bool) {
    s.status.Succeeded? && s.result.Some? ==> artifactAccepted(s.result.value)
  }

  function Orphan(s: Snapshot): Snapshot {
    s.(status := Orphaned, failureClass := Some(LostOwnership),
       failure := Some("supervisor ownership was lost; restart, resume, or fork is required"))
  }

  /** The snapshot file read for a run; an absent file gives the journal's snapshot, or else the initial one. */
  function ReadSnapshot(runId: string, journal: Option<Snapshot>, file: SnapshotFile): Option<Snapshot> {
    match file
    case Missing => Some(if journal.Some? then journal.value else InitialSnapshot(runId))
    case Unreadable => None
    case Stored(s) => if s.runId == runId then Some(s) else None
  }

  function Decide(journal: Option<Snapshot>, snapshot: Snapshot, artifactAccepted: ResultRef -> bool,
                  ownerLive: bool): Option<Snapshot>
  {
    if journal.Some? && IsTerminal(journal.value.status) then
      if IsTerminal(snapshot.status) && Projection(snapshot) != Projection(journal.value) then None
      else if ResultVerified(journal.value, artifactAccepted) then journal else None
    else if IsTerminal(snapshot.status) then
      if !SupervisorTerminal(snapshot) then None
      else if ResultVerified(snapshot, artifactAccepted) then Some(snapshot) else None
    else if ownerLive then Some(if journal.Some? then journal.value else snapshot)
    else Some(Orphan(if journal.Some? then journal.value else snapshot))
  }

  function RestoreOutcome(parse: Parser, runId: string, files: seq<Option<Bytes>>, snapshotFile: SnapshotFile,
                          artifactAccepted: ResultRef -> bool, ownerLive: bool): Option<Snapshot> {
    match AcceptedJournals(parse, runId, ownerLive, files)
    case None => None
    case Some(journals) =>
      var journal := Furthest(parse, runId, journals);
      match ReadSnapshot(runId, journal, snapshotFile)
      case None => None
      case Some(snapshot) => Decide(journal, snapshot, artifactAccepted, ownerLive)
  }

  function ContentsOf(sources: seq<Option<seq<Bytes>>>): seq<Option<Bytes>> {
    if sources == [] then []
    else
      ContentsOf(sources[..|sources| - 1])
      + [match sources[|sources| - 1] case None => None case Some(chunks) => Some(ConcatBytes(chunks))]
  }

  /** The restore as it runs: each journal is read in chunks and checked against the ones before it. */
  method RestoreSnapshot(parse: Parser, runId: string, sources: seq<Option<seq<Bytes>>>, snapshotFile: SnapshotFile,
                         artifactAccepted: ResultRef -> bool, ownerLive: bool) returns (r: Option<Snapshot>)
    ensures r == RestoreOutcome(parse, runId, ContentsOf(sources), snapshotFile, artifactAccepted, ownerLive)
  {
    hide ReduceFile, Compatible, Furthest, Decide, ReadSnapshot, AcceptedJournals, ContentsOf;
    ghost var files := ContentsOf(sources);
    ContentsLength(sources);
    var journals: seq<ReducedJournal> := [];
    ghost var contents: seq<Bytes> := [];
    var journal: Option<Snapshot> := None;
    NoJournals(parse, runId);
    NoneAccepted(parse, runId, ownerLive, files);
    for i := 0 to |sources|
      invariant AcceptedJournals(parse, runId, ownerLive, files[..i]) == Some(contents)
      invariant |journals| == |contents|
      invariant forall k :: 0 <= k < |contents| ==>
                  ReduceFile(parse, runId, contents[k]).Some? && journals[k] == JournalOf(parse, runId, contents[k])
      invariant journal == Furthest(parse, runId, contents)
    {
      ContentsAt(sources, i);
      AcceptedNext(parse, runId, ownerLive, files, i, contents);
      if sources[i].Some? {
        var reduced := ReduceJournal(parse, runId, sources[i].value);
        ghost var file := ConcatBytes(sources[i].value);
        if reduced.None? {
          RefusedJournals(parse, runId, ownerLive, files, i + 1);
          return None;
        }
        var agreed := CheckJournals(parse, runId, ownerLive, journals, contents, reduced.value, file);
        if !agreed {
          RefusedJournals(parse, runId, ownerLive, files, i + 1);
          return None;
        }
        FurthestNext(parse, runId, contents, file);
        journals, contents := journals + [reduced.value], contents + [file];
        if journal.None? || SequenceOf(reduced.value.snapshot) > SequenceOf(journal.value) {
          journal := Some(reduced.value.snapshot);
        }
      }
    }
    assert files[..|sources|] == files;
    var snapshot := ReadSnapshot(runId, journal, snapshotFile);
    if snapshot.None? { return None; }
    return Decide(journal, snapshot.value, artifactAccepted, ownerLive);
  }

  lemma NoneAccepted(parse: Parser, runId: string, ownerLive: bool, files: seq<Option<Bytes>>)
    ensures AcceptedJournals(parse, runId, ownerLive, files[..0]) == Some([])
  {
  }

  /** One more journal: absent, refused, or accepted beside those before it. */
  lemma AcceptedNext(parse: Parser, runId: string, ownerLive: bool, files: seq<Option<Bytes>>, i: nat,
                     prior: seq<Bytes>)
    requires i < |files| && AcceptedJournals(parse, runId, ownerLive, files[..i]) == Some(prior)
    ensures AcceptedJournals(parse, runId, ownerLive, files[..i + 1])
            == match files[i]
               case None => Some(prior)
               case Some(file) =>
                 if ReduceFile(parse, runId, file).Some? && forall k :: 0 <= k < |prior| ==>
                      Compatible(parse, runId, ownerLive, prior[k], file)
                 then Some(prior + [file]) else None
  {
    hide ReduceFile, Compatible;
    assert files[..i + 1][..i] == files[..i];
  }

  /** Compare a journal with each of those read before it. */
  method CheckJournals(parse: Parser, runId: string, ownerLive: bool, journals: seq<ReducedJournal>,
                       ghost contents: seq<Bytes>,
                       reduced: ReducedJournal, ghost file: Bytes) returns (agreed: bool)
    requires |journals| == |contents|
    requires forall k :: 0 <= k < |contents| ==>
               ReduceFile(parse, runId, contents[k]).Some? && journals[k] == JournalOf(parse, runId, contents[k])
    requires ReduceFile(parse, runId, file).Some? && reduced == JournalOf(parse, runId, file)
    ensures agreed <==> forall i :: 0 <= i < |contents| ==> Compatible(parse, runId, ownerLive, contents[i], file)
  {
    hide ReduceFile, JournalPrefix;
    for i := 0 to |journals|
      invariant forall k :: 0 <= k < i ==> Compatible(parse, runId, ownerLive, contents[k], file)
    {
      var prior := journals[i];
      // The digests stand for the files themselves.
      if !JournalPrefix(prior, prior.digest, reduced, reduced.digest)
         || (!ownerLive && (SequenceOf(prior.snapshot) != SequenceOf(reduced.snapshot)
                            || Projection(prior.snapshot) != Projection(reduced.snapshot))) {
        assert !Compatible(parse, runId, ownerLive, contents[i], file);
        return false;
      }
    }
    return true;
  }

  lemma NoJournals(parse: Parser, runId: string)
    ensures Furthest(parse, runId, []) == None
  {
  }

  lemma FurthestNext(parse: Parser, runId: string, journals: seq<Bytes>, file: Bytes)
    requires forall f :: f in journals ==> ReduceFile(parse, runId, f).Some?
    requires ReduceFile(parse, runId, file).Some?
    ensures var before, s := Furthest(parse, runId, journals), ReduceFile(parse, runId, file).value;
            Furthest(parse, runId, journals + [file])
              == if before.None? || SequenceOf(s) > SequenceOf(before.value) then Some(s) else before
  {
    assert (journals + [file])[..|journals|] == journals;
  }

  lemma {:induction false} ContentsLength(sources: seq<Option<seq<Bytes>>>)
    ensures |ContentsOf(sources)| == |sources|
  {
    if sources != [] { ContentsLength(sources[..|sources| - 1]); }
  }

  lemma {:induction false} ContentsAt(sources: seq<Option<seq<Bytes>>>, i: nat)
    requires i < |sources| == |ContentsOf(sources)|
    ensures ContentsOf(sources)[i] == match sources[i] case None => None case Some(chunks) => Some(ConcatBytes(chunks))
  {
    ContentsLength(sources[..|sources| - 1]);
    if i < |sources| - 1 { ContentsAt(sources[..|sources| - 1], i); }
  }

  /** A journal refused on the way refuses the restore. */
  lemma {:induction false} RefusedJournals(parse: Parser, runId: string, ownerLive: bool, files: seq<Option<Bytes>>,
                                           i: nat)
    requires i <= |files| && AcceptedJournals(parse, runId, ownerLive, files[..i]).None?
    ensures AcceptedJournals(parse, runId, ownerLive, files).None?
    decreases |files|
  {
    if i < |files| {
      assert files[..|files| - 1][..i] == files[..i];
      RefusedJournals(parse, runId, ownerLive, files[..|files| - 1], i);
    } else {
      assert files[..i] == files;
    }
  }

  // ---- The outcome, case by case ----

  /** What a store without a usable end gives: the furthest journal, or else the stored snapshot, or else a new one. */
  function HeldBy(runId: string, journal: Option<Snapshot>, file: SnapshotFile): Snapshot {
    if journal.Some? then journal.value else if file.Stored? then file.snapshot else InitialSnapshot(runId)
  }

  /** A stored snapshot that cannot be used refuses the restore. */
  predicate Unusable(runId: string, file: SnapshotFile) {
    file.Unreadable? || (file.Stored? && file.snapshot.runId != runId)
  }

  /** Equal in every field but the event digests. */
  predicate SameButDigests(a: Snapshot, b: Snapshot) { a == b.(eventDigests := a.eventDigests) }

  /** The endings that a supervisor writes by itself. */
  predicate EndedBySupervisor(s: Snapshot) {
    && s.status in {Failed, Cancelled}
    && s.failureClass in {Some(SupervisorFailure), Some(ForcedTermination), Some(MissingTerminalEvent)}
  }

  /** With a terminal journal: its fold, unless the stored end differs from it or its artifact is not accepted. */
  lemma TerminalStore(parse: Parser, runId: string, files: seq<Option<Bytes>>, journals: seq<Bytes>, file: SnapshotFile,
                      artifactAccepted: ResultRef -> bool, ownerLive: bool)
    requires AcceptedJournals(parse, runId, ownerLive, files) == Some(journals)
    requires var fold := Furthest(parse, runId, journals); fold.Some? && IsTerminal(fold.value.status)
    ensures var fold := Furthest(parse, runId, journals).value;
            var outcome := RestoreOutcome(parse, runId, files, file, artifactAccepted, ownerLive);
            outcome
            == if Unusable(runId, file)
                  || (file.Stored? && IsTerminal(file.snapshot.status) && !SameButDigests(file.snapshot, fold))
                  || (fold.status.Succeeded? && fold.result.Some? && !artifactAccepted(fold.result.value)) then None
               else Some(fold)
  {
    hide AcceptedJournals, Furthest;
    if file.Stored? { SameProjection(file.snapshot, Furthest(parse, runId, journals).value); }
  }

  lemma SameProjection(a: Snapshot, b: Snapshot)
    ensures Projection(a) == Projection(b) <==> SameButDigests(a, b)
  {
    assert a == Projection(a).(eventDigests := a.eventDigests) && b == Projection(b).(eventDigests := b.eventDigests);
  }

  /** Without one: a stored end is taken exactly when only a supervisor writes it. */
  lemma StoredEnd(parse: Parser, runId: string, files: seq<Option<Bytes>>, journals: seq<Bytes>, s: Snapshot,
                  artifactAccepted: ResultRef -> bool, ownerLive: bool)
    requires AcceptedJournals(parse, runId, ownerLive, files) == Some(journals)
    requires var fold := Furthest(parse, runId, journals); fold.Some? ==> !IsTerminal(fold.value.status)
    requires IsTerminal(s.status)
    ensures RestoreOutcome(parse, runId, files, Stored(s), artifactAccepted, ownerLive)
            == if s.runId == runId && EndedBySupervisor(s) then Some(s) else None
  {
    hide AcceptedJournals, Furthest;
  }

  /**
   Without any end: while its owner lives, an open run is restored as it is held; without an owner it is orphaned, which
   changes its status, its failure and the class of that, and nothing else.
   */
  lemma OpenStore(parse: Parser, runId: string, files: seq<Option<Bytes>>, journals: seq<Bytes>, file: SnapshotFile,
                  artifactAccepted: ResultRef -> bool, ownerLive: bool)
    requires AcceptedJournals(parse, runId, ownerLive, files) == Some(journals) && !Unusable(runId, file)
    requires var fold := Furthest(parse, runId, journals); fold.Some? ==> !IsTerminal(fold.value.status)
    requires file.Stored? ==> !IsTerminal(file.snapshot.status)
    ensures var held := HeldBy(runId, Furthest(parse, runId, journals), file);
            var outcome := RestoreOutcome(parse, runId, files, file, artifactAccepted, ownerLive);
            && (ownerLive ==> outcome == Some(held))
            && (!ownerLive ==>
                  && outcome.Some? && outcome.value.status.Orphaned?
                  && outcome.value.failureClass == Some(LostOwnership)
                  && outcome.value.failure
                  == Some("supervisor ownership was lost; restart, resume, or fork is required")
                  && outcome.value == held.(status := Orphaned, failureClass := outcome.value.failureClass,
                                            failure := outcome.value.failure))
  {
    hide AcceptedJournals, Furthest;
  }

  /** Without accepted journals, or with a stored snapshot that cannot be used, there is no outcome. */
  lemma RefusedStore(parse: Parser, runId: string, files: seq<Option<Bytes>>, file: SnapshotFile,
                     artifactAccepted: ResultRef -> bool, ownerLive: bool)
    requires AcceptedJournals(parse, runId, ownerLive, files).None? || Unusable(runId, file)
    ensures RestoreOutcome(parse, runId, files, file, artifactAccepted, ownerLive).None?
  {
    hide AcceptedJournals, Furthest;
  }

  /** One of two files goes on from the other in bytes and in envelopes, or they are the same. */
  predicate InStep(parse: Parser, runId: string, f: Bytes, g: Bytes)
    requires ReduceFile(parse, runId, f).Some? && ReduceFile(parse, runId, g).Some?
  {
    var m, n := SequenceOf(ReduceFile(parse, runId, f).value), SequenceOf(ReduceFile(parse, runId, g).value);
    f == g || (f < g && m < n) || (g < f && n < m)
  }

  /** Which journals a restore accepts side by side: with a live owner those in step, otherwise only equal ones. */
  lemma CompatibleExactly(parse: Parser, runId: string, ownerLive: bool, f: Bytes, g: Bytes)
    requires ReduceFile(parse, runId, f).Some? && ReduceFile(parse, runId, g).Some?
    ensures Compatible(parse, runId, ownerLive, f, g) <==> if ownerLive then InStep(parse, runId, f, g) else f == g
  {
    hide ReduceFile;
  }

  // ---- Soundness ----

  lemma {:induction false} FurthestIsFold(parse: Parser, runId: string, journals: seq<Bytes>)
    requires forall f :: f in journals ==> ReduceFile(parse, runId, f).Some?
    ensures Furthest(parse, runId, journals).Some? <==> journals != []
    ensures Furthest(parse, runId, journals).Some? ==>
              exists f :: f in journals && ReduceFile(parse, runId, f) == Furthest(parse, runId, journals)
    ensures forall f :: f in journals ==> SequenceOf(ReduceFile(parse, runId, f).value) <= SequenceOf(Furthest(parse,
        runId, journals).value)
  {
    hide ReduceFile;
    if journals != [] {
      FurthestIsFold(parse, runId, journals[..|journals| - 1]);
      assert journals[|journals| - 1] in journals;
    }
  }

  /**
   Success is restored only from a journal that a run of accepted envelopes wrote, and only with a verified artifact.
   */
  lemma SucceededIsReplayed(parse: Parser, runId: string, files: seq<Option<Bytes>>, snapshotFile: SnapshotFile,
                            artifactAccepted: ResultRef -> bool, ownerLive: bool)
    requires var r := RestoreOutcome(parse, runId, files, snapshotFile, artifactAccepted, ownerLive);
             r.Some? && r.value.status.Succeeded?
    ensures var s := RestoreOutcome(parse, runId, files, snapshotFile, artifactAccepted, ownerLive).value;
            && (exists f :: Some(f) in files && ReduceFile(parse, runId, f) == Some(s))
            && Reachable(s) && s.runId == runId
            && (s.result.Some? ==> artifactAccepted(s.result.value))
  {
    hide ReduceFile, Furthest, AcceptedJournals;
    var journals := AcceptedJournals(parse, runId, ownerLive, files).value;
    FurthestIsFold(parse, runId, journals);
    var f :| f in journals && ReduceFile(parse, runId, f) == Furthest(parse, runId, journals);
    AcceptedJournal(parse, runId, f);
  }

  /** Without a live owner, whatever snapshot.json claims, the outcome is terminal or orphaned. */
  lemma UnownedIsFinished(parse: Parser, runId: string, files: seq<Option<Bytes>>, snapshotFile: SnapshotFile,
                          artifactAccepted: ResultRef -> bool)
    requires RestoreOutcome(parse, runId, files, snapshotFile, artifactAccepted, false).Some?
    ensures IsTerminal(RestoreOutcome(parse, runId, files, snapshotFile, artifactAccepted, false).value.status)
  {
  }

  /** Without a live owner, a restore accepts only journals that are equal byte for byte. */
  lemma {:induction false} UnownedJournalsAreEqual(parse: Parser, runId: string, files: seq<Option<Bytes>>, f: Bytes,
                                                   g: Bytes)
    requires AcceptedJournals(parse, runId, false, files).Some?
    requires f in AcceptedJournals(parse, runId, false, files).value
             && g in AcceptedJournals(parse, runId, false, files).value
    ensures f == g
  {
    hide ReduceFile;
    var init, last := files[..|files| - 1], files[|files| - 1];
    var prior := AcceptedJournals(parse, runId, false, init).value;
    if f in prior && g in prior {
      UnownedJournalsAreEqual(parse, runId, init, f, g);
    }
  }

  /** A terminal journal decides: the outcome is its fold, whatever snapshot.json and the other journals hold. */
  lemma TerminalJournalDecides(parse: Parser, runId: string, files: seq<Option<Bytes>>, snapshotFile: SnapshotFile,
                               artifactAccepted: ResultRef -> bool, ownerLive: bool, f: Bytes)
    requires RestoreOutcome(parse, runId, files, snapshotFile, artifactAccepted, ownerLive).Some?
    requires Some(f) in files && ReduceFile(parse, runId, f).Some?
             && IsTerminal(ReduceFile(parse, runId, f).value.status)
    ensures RestoreOutcome(parse, runId, files, snapshotFile, artifactAccepted, ownerLive)
            == ReduceFile(parse, runId, f)
  {
    hide ReduceFile, Furthest, AcceptedJournals;
    var journals := AcceptedJournals(parse, runId, ownerLive, files).value;
    PresentIsAccepted(parse, runId, ownerLive, files, f);
    FurthestIsFold(parse, runId, journals);
    var g :| g in journals && ReduceFile(parse, runId, g) == Furthest(parse, runId, journals);
    AcceptedAgree(parse, runId, ownerLive, files, f, g);
  }

  lemma {:induction false} PresentIsAccepted(parse: Parser, runId: string, ownerLive: bool, files: seq<Option<Bytes>>,
                                             f: Bytes)
    requires AcceptedJournals(parse, runId, ownerLive, files).Some? && Some(f) in files
    ensures f in AcceptedJournals(parse, runId, ownerLive, files).value
  {
    hide ReduceFile, Compatible;
    var init := files[..|files| - 1];
    if Some(f) in init { PresentIsAccepted(parse, runId, ownerLive, init, f); }
  }

  /** Of two accepted journals, a terminal one that is not ahead equals the other. */
  lemma {:induction false} AcceptedAgree(parse: Parser, runId: string, ownerLive: bool, files: seq<Option<Bytes>>,
                                         f: Bytes, g: Bytes)
    requires AcceptedJournals(parse, runId, ownerLive, files).Some?
    requires f in AcceptedJournals(parse, runId, ownerLive, files).value
             && g in AcceptedJournals(parse, runId, ownerLive, files).value
    requires IsTerminal(ReduceFile(parse, runId, f).value.status)
    requires SequenceOf(ReduceFile(parse, runId, f).value) <= SequenceOf(ReduceFile(parse, runId, g).value)
    ensures f == g
  {
    hide ReduceFile;
    var init, last := files[..|files| - 1], files[|files| - 1];
    var prior := AcceptedJournals(parse, runId, ownerLive, init).value;
    if f in prior && g in prior {
      AcceptedAgree(parse, runId, ownerLive, init, f, g);
    } else {
      assert forall h :: h in prior && last.Some? ==> Compatible(parse, runId, ownerLive, h, last.value);
      CompatibleAgree(parse, runId, ownerLive, f, g);
    }
  }

  lemma CompatibleAgree(parse: Parser, runId: string, ownerLive: bool, f: Bytes, g: Bytes)
    requires ReduceFile(parse, runId, f).Some? && ReduceFile(parse, runId, g).Some?
    requires f == g || Compatible(parse, runId, ownerLive, f, g) || Compatible(parse, runId, ownerLive, g, f)
    requires IsTerminal(ReduceFile(parse, runId, f).value.status)
    requires SequenceOf(ReduceFile(parse, runId, f).value) <= SequenceOf(ReduceFile(parse, runId, g).value)
    ensures f == g
  {
    hide ReduceFile;
    if Compatible(parse, runId, ownerLive, f, g) || Compatible(parse, runId, ownerLive, g, f) {
      JournalsAgree(parse, runId, f, g);
    }
  }
}
