/** The descriptors of a session spawn: three streams and the owner lock (runtime/cbits/process_spawn.c). */
module SpawnSession {
  import opened Prelude

  // ---- Descriptor tables ----

  /** An open file description: one that existed before, or one end of a pipe. */
  datatype File = Original(id: nat) | ReadEnd(pipe: nat) | WriteEnd(pipe: nat)

  datatype Descriptor = Descriptor(file: File, cloexec: bool)

  type FdTable = map<int, Descriptor>

  predicate AllUsed(used: set<int>, from: int, to: int) { forall k: int | from <= k < to :: k in used }

  /** The lowest number, from a given one on, that is not in use. */
  function LowestFree(used: set<int>, from: nat): (n: nat)
    ensures from <= n && n !in used && AllUsed(used, from, n)
    decreases |used|
  {
    if from !in used then from
    else
      var n := LowestFree(used - {from}, from + 1);
      UsedFromHere(used, from, n);
      n
  }

  lemma UsedFromHere(used: set<int>, from: int, to: int)
    requires from in used && AllUsed(used - {from}, from + 1, to)
    ensures AllUsed(used, from, to)
  {
    forall k: int | from <= k < to
      ensures k in used
    {
      assert k == from || k in used - {from};
    }
  }

  function FilesOf(table: FdTable): map<int, File> { map fd | fd in table :: table[fd].file }

  // ---- File actions: they run in order on a copy of the parent's table, and what they do not name is closed ----

  datatype Action = Dup2(source: int, target: int) | Inherit(fd: int)

  /** The table of a child under construction, and the numbers that the actions have named. */
  datatype Child = Child(files: map<int, File>, named: set<int>)

  function RunAction(child: Child, action: Action): Option<Child> {
    match action
    case Dup2(source, target) =>
      if source in child.files then Some(Child(child.files[target := child.files[source]], child.named + {target}))
      else None
    case Inherit(fd) => if fd in child.files then Some(child.(named := child.named + {fd})) else None
  }

  function RunActions(child: Child, actions: seq<Action>): Option<Child> {
    if actions == [] then Some(child)
    else
      match RunActions(child, actions[..|actions| - 1])
      case None => None
      case Some(before) => RunAction(before, actions[|actions| - 1])
  }

  /** The descriptors that a child holds: only the named ones, and closed on exec by default. */
  function Kept(child: Child): map<int, File> { map fd | fd in child.files && fd in child.named :: child.files[fd] }

  lemma {:induction false} RunAppend(child: Child, a: seq<Action>, b: seq<Action>)
    ensures RunActions(child, a + b)
            == match RunActions(child, a) case None => None case Some(between) => RunActions(between, b)
  {
    if b == [] {
      assert a + b == a;
    } else {
      assert (a + b)[..|a + b| - 1] == a + b[..|b| - 1];
      RunAppend(child, a, b[..|b| - 1]);
    }
  }

  // ---- Streams ----

  const PIPE: int := -1
  const CLOSED: int := -2

  datatype Stream = Stream(mode: int, childEnd: int, parentEnd: int, closedInParent: bool)

  /** The action that names a standard descriptor, if any. */
  function NameStream(target: nat, stream: Stream): seq<Action>
    requires stream.mode == PIPE ==> stream.childEnd >= 0
    requires stream.mode != PIPE && stream.mode != CLOSED ==> stream.mode >= 0
  {
    if stream.mode == CLOSED then []
    else
      var source := if stream.mode == PIPE then stream.childEnd else stream.mode;
      if source != target then [Dup2(source, target)]
      else if stream.closedInParent then []
      else [Inherit(target)]
  }

  predicate IsMode(mode: int) { mode == PIPE || mode == CLOSED || mode >= 0 }

  /** The end of a pipe that a child holds as a standard descriptor, and the end that stays with the parent. */
  function ChildFile(index: nat, pipe: nat): File { if index == 0 then ReadEnd(pipe) else WriteEnd(pipe) }

  function ParentFile(index: nat, pipe: nat): File { if index == 0 then WriteEnd(pipe) else ReadEnd(pipe) }

  /** The numbers that a stream's pipe took; without the parent's, only the child's. */
  function StreamEnds(stream: Stream, parentToo: bool): set<int> {
    (if stream.childEnd >= 0 then {stream.childEnd} else {})
      + (if parentToo && stream.parentEnd >= 0 then {stream.parentEnd} else {})
  }

  function EndsOf(streams: seq<Stream>, parentToo: bool): set<int> {
    if streams == [] then {}
    else EndsOf(streams[..|streams| - 1], parentToo) + StreamEnds(streams[|streams| - 1], parentToo)
  }

  lemma {:induction false} EndsOfMember(streams: seq<Stream>, parentToo: bool, fd: int) returns (i: nat)
    requires fd in EndsOf(streams, parentToo)
    ensures i < |streams| && fd in StreamEnds(streams[i], parentToo)
  {
    if fd in StreamEnds(streams[|streams| - 1], parentToo) { i := |streams| - 1; }
    else { i := EndsOfMember(streams[..|streams| - 1], parentToo, fd); }
  }

  lemma {:induction false} EndsOfContains(streams: seq<Stream>, parentToo: bool, i: nat)
    requires i < |streams|
    ensures StreamEnds(streams[i], parentToo) <= EndsOf(streams, parentToo)
  {
    if i < |streams| - 1 { EndsOfContains(streams[..|streams| - 1], parentToo, i); }
  }

  /** The three streams once their pipes are open, in a table that extends the one before. */
  ghost predicate Opened(before: FdTable, after: FdTable, modes: seq<int>, streams: seq<Stream>, pipes: seq<nat>,
                         first: nat)
  {
    && |modes| == 3 && |pipes| == 3 && |streams| <= 3
    && after.Keys == before.Keys + EndsOf(streams, true)
    && (forall fd :: fd in before ==> fd in after && after[fd] == before[fd])
    && (forall i :: 0 <= i < |streams| ==>
          OpenedStream(before, after, modes, streams[i], pipes[i], i) && (modes[i] == PIPE ==> first <= pipes[i]))
    && (forall i, j :: 0 <= i < j < |streams| && modes[i] == PIPE && modes[j] == PIPE ==>
          EndsDiffer(streams[i], streams[j]) && pipes[i] != pipes[j])
    && (forall i :: 0 <= i < |streams| && modes[i] == PIPE ==> 0 in after && 1 in after)
  }

  predicate EndsDiffer(a: Stream, b: Stream) {
    a.childEnd != b.childEnd && a.childEnd != b.parentEnd && a.parentEnd != b.childEnd && a.parentEnd != b.parentEnd
  }

  predicate OpenedStream(before: FdTable, after: FdTable, modes: seq<int>, stream: Stream, pipe: nat, index: nat)
    requires index < |modes|
  {
    && stream.mode == modes[index] && IsMode(stream.mode)
    && stream.closedInParent == (modes[index] == index && index !in before)
    && if modes[index] != PIPE then stream.childEnd == -1 && stream.parentEnd == -1
       else
         && stream.childEnd >= 0 && stream.parentEnd >= 0 && stream.childEnd != stream.parentEnd
         && stream.childEnd !in before && stream.parentEnd !in before
         && stream.childEnd in after && after[stream.childEnd] == Descriptor(ChildFile(index, pipe), true)
         && stream.parentEnd in after && after[stream.parentEnd] == Descriptor(ParentFile(index, pipe), true)
         && LowEnd(before, modes, stream, index)
  }

  /**
   Where a child end takes a number below its own stream's: only stream 2, on number 1, and exactly when 0 and 1 are
   both free until then.
   */
  predicate LowEnd(before: FdTable, modes: seq<int>, stream: Stream, index: nat)
    requires index < |modes|
  {
    && (stream.childEnd < index ==> index == 2 && stream.childEnd == 1)
    && (stream.childEnd < index <==> index == 2 && 0 !in before && 1 !in before && modes[0] != PIPE && modes[1] != PIPE)
  }

  // ---- What each standard descriptor should be ----

  /** A mode that names another number than its own. */
  predicate IsForeign(modes: seq<int>, index: nat)
    requires index < |modes|
  {
    modes[index] >= 0 && modes[index] != index
  }

  /** The file that stream `index` should be in the child; `None` is closed. */
  function Wanted(before: FdTable, modes: seq<int>, pipes: seq<nat>, index: nat): Option<File>
    requires index < |modes| == |pipes| && IsMode(modes[index])
  {
    if modes[index] == PIPE then Some(ChildFile(index, pipes[index]))
    else if modes[index] == CLOSED || modes[index] !in before then None
    else Some(before[modes[index]].file)
  }

  /**
   Stream `index` leaves its own number as it is in the parent: it is closed, or is given the file that is there anyway.
   */
  predicate LeavesAlone(before: FdTable, modes: seq<int>, index: nat)
    requires index < |modes|
  {
    modes[index] == CLOSED || (modes[index] >= 0 && modes[index] in before && index in before
                               && before[modes[index]].file == before[index].file)
  }

  /**
   A foreign descriptor must be open, and if it is a standard number below, the stream of that number must leave it
   alone.
   */
  predicate ForeignIsSafe(before: FdTable, modes: seq<int>, index: nat)
    requires index < |modes|
  {
    IsForeign(modes, index) ==>
      modes[index] in before && (modes[index] < index ==> LeavesAlone(before, modes, modes[index]))
  }

  /** The pipe of stream 2 lands on number 1 just when a foreign descriptor of stream 1 overwrites it. */
  predicate PipeIsClobbered(before: FdTable, modes: seq<int>)
    requires |modes| == 3
  {
    modes[2] == PIPE && IsForeign(modes, 1) && modes[0] != PIPE && 0 !in before && 1 !in before
  }

  predicate StreamIsSafe(before: FdTable, modes: seq<int>, index: nat)
    requires index < |modes| == 3
  {
    ForeignIsSafe(before, modes, index) && (index == 2 ==> !PipeIsClobbered(before, modes))
  }

  predicate SafeModes(before: FdTable, modes: seq<int>) {
    |modes| == 3 && forall i :: 0 <= i < 3 ==> IsMode(modes[i]) && StreamIsSafe(before, modes, i)
  }

  /** The owner lock must be open, and no stream may put another file on its number. */
  predicate LockIsSafe(before: FdTable, modes: seq<int>, inherited: int)
    requires |modes| == 3
  {
    inherited >= 0 ==> inherited in before && (inherited < 3 ==> LeavesAlone(before, modes, inherited))
  }

  /**
   Pipes, closed streams and inherited own numbers are always safe, whatever the parent has closed, and so is an open
   lock from 3 on.
   */
  lemma OwnNumbersAreSafe(before: FdTable, modes: seq<int>, inherited: int)
    requires |modes| == 3 && forall i :: 0 <= i < 3 ==> modes[i] == PIPE || modes[i] == CLOSED || modes[i] == i
    requires inherited >= 0 ==> inherited >= 3 && inherited in before
    ensures SafeModes(before, modes) && LockIsSafe(before, modes, inherited)
  {
  }

  // ---- The child's table ----

  /** The actions of the first streams. */
  function Naming(streams: seq<Stream>): seq<Action>
    requires forall i :: 0 <= i < |streams| ==>
               IsMode(streams[i].mode) && (streams[i].mode == PIPE ==> streams[i].childEnd >= 0)
  {
    if streams == [] then []
    else
      assert IsMode(streams[|streams| - 1].mode);
      Naming(streams[..|streams| - 1]) + NameStream(|streams| - 1, streams[|streams| - 1])
  }

  /** After the actions of the first `n` streams: those are as wanted, every other number still as in the parent. */
  ghost predicate NamedSoFar(before: FdTable, after: FdTable, modes: seq<int>, pipes: seq<nat>, child: Child, n: nat)
    requires |modes| == |pipes| == 3 && n <= 3 && forall i :: 0 <= i < 3 ==> IsMode(modes[i])
  {
    && (forall fd :: fd in child.named ==> 0 <= fd < n && fd in child.files)
    && (forall i :: 0 <= i < n ==>
          var wanted := Wanted(before, modes, pipes, i);
          if wanted.None? then i !in child.named else i in child.named && child.files[i] == wanted.value)
    && (forall fd :: fd !in child.named ==>
          (fd in child.files <==> fd in after) && (fd in after ==> child.files[fd] == after[fd].file))
  }

  lemma NextStreamIsNamed(before: FdTable, after: FdTable, modes: seq<int>, streams: seq<Stream>, pipes: seq<nat>,
                          first: nat, child: Child, n: nat)
    requires Opened(before, after, modes, streams, pipes, first) && |streams| == 3 && n < 3
    requires forall i :: 0 <= i < 3 ==> IsMode(modes[i])
    requires forall i :: 0 <= i <= n ==> StreamIsSafe(before, modes, i)
    requires NamedSoFar(before, after, modes, pipes, child, n)
    ensures IsMode(streams[n].mode) && (streams[n].mode == PIPE ==> streams[n].childEnd >= 0)
    ensures var next := RunActions(child, NameStream(n, streams[n]));
            next.Some? && NamedSoFar(before, after, modes, pipes, next.value, n + 1)
  {
    var stream := streams[n];
    assert OpenedStream(before, after, modes, stream, pipes[n], n);
    SourceIsIntact(before, after, modes, streams, pipes, first, child, n);
    hide Opened, StreamIsSafe, LowEnd;
    var wanted := Wanted(before, modes, pipes, n);
    var actions := NameStream(n, stream);
    if actions == [] {
      assert wanted.None?;
      NothingNamed(before, after, modes, pipes, child, n);
    } else {
      OneAction(child, actions[0]);
      assert actions == [actions[0]];
      assert wanted.Some?;
      NamedNext(before, after, modes, pipes, child, RunAction(child, actions[0]).value, n);
    }
  }

  lemma OneAction(child: Child, action: Action)
    ensures RunActions(child, [action]) == RunAction(child, action)
  {
    assert [action][..0] == [];
  }

  lemma NothingNamed(before: FdTable, after: FdTable, modes: seq<int>, pipes: seq<nat>, child: Child, n: nat)
    requires |modes| == |pipes| == 3 && n < 3 && forall i :: 0 <= i < 3 ==> IsMode(modes[i])
    requires NamedSoFar(before, after, modes, pipes, child, n) && Wanted(before, modes, pipes, n).None?
    ensures NamedSoFar(before, after, modes, pipes, child, n + 1)
  {
    hide Wanted;
  }

  lemma NamedNext(before: FdTable, after: FdTable, modes: seq<int>, pipes: seq<nat>, child: Child, next: Child, n: nat)
    requires |modes| == |pipes| == 3 && n < 3 && forall i :: 0 <= i < 3 ==> IsMode(modes[i])
    requires NamedSoFar(before, after, modes, pipes, child, n) && next.named == child.named + {n as int}
    requires n in next.files && Wanted(before, modes, pipes, n) == Some(next.files[n])
    requires forall fd :: fd != n ==>
               (fd in next.files <==> fd in child.files) && (fd in next.files ==> next.files[fd] == child.files[fd])
    ensures NamedSoFar(before, after, modes, pipes, next, n + 1)
  {
    hide Wanted;
  }

  /** What stream `n` copies or keeps has not been overwritten by the streams before it. */
  lemma SourceIsIntact(before: FdTable, after: FdTable, modes: seq<int>, streams: seq<Stream>, pipes: seq<nat>,
                       first: nat, child: Child, n: nat)
    requires Opened(before, after, modes, streams, pipes, first) && |streams| == 3 && n < 3
    requires forall i :: 0 <= i < 3 ==> IsMode(modes[i])
    requires forall i :: 0 <= i <= n ==> StreamIsSafe(before, modes, i)
    requires NamedSoFar(before, after, modes, pipes, child, n)
    ensures modes[n] == PIPE ==>
              streams[n].childEnd in child.files && child.files[streams[n].childEnd] == ChildFile(n, pipes[n])
    ensures modes[n] >= 0 && modes[n] in before ==>
              modes[n] in child.files && child.files[modes[n]] == before[modes[n]].file
    ensures IsForeign(modes, n) ==> modes[n] in before
  {
    var stream := streams[n];
    assert OpenedStream(before, after, modes, stream, pipes[n], n);
    assert StreamIsSafe(before, modes, n);
    if modes[n] == PIPE && stream.childEnd < n {
      // Only number 1 under stream 2: stream 1 is closed, or inherits a number that the parent holds closed.
      assert Wanted(before, modes, pipes, 1).None?;
    }
    if 0 <= modes[n] < n && modes[n] in before {
      assert Wanted(before, modes, pipes, modes[n])
             == if modes[modes[n]] == CLOSED then None else Some(before[modes[n]].file);
    }
  }

  lemma {:induction false} StreamsAreNamed(before: FdTable, after: FdTable, modes: seq<int>, streams: seq<Stream>,
                                           pipes: seq<nat>, first: nat, n: nat)
    requires Opened(before, after, modes, streams, pipes, first) && |streams| == 3 && n <= 3
    requires forall i :: 0 <= i < 3 ==> IsMode(modes[i])
    requires forall i :: 0 <= i < n ==> StreamIsSafe(before, modes, i)
    ensures forall i :: 0 <= i < n ==> IsMode(streams[i].mode) && (streams[i].mode == PIPE ==> streams[i].childEnd >= 0)
    ensures var child := RunActions(Child(FilesOf(after), {}), Naming(streams[..n]));
            child.Some? && NamedSoFar(before, after, modes, pipes, child.value, n)
  {
    StreamsAreWellFormed(before, after, modes, streams, pipes, first);
    if n > 0 {
      StreamsAreNamed(before, after, modes, streams, pipes, first, n - 1);
      var child := RunActions(Child(FilesOf(after), {}), Naming(streams[..n - 1])).value;
      NextStreamIsNamed(before, after, modes, streams, pipes, first, child, n - 1);
      assert streams[..n][..n - 1] == streams[..n - 1];
      RunAppend(Child(FilesOf(after), {}), Naming(streams[..n - 1]), NameStream(n - 1, streams[n - 1]));
    }
  }

  lemma StreamsAreWellFormed(before: FdTable, after: FdTable, modes: seq<int>, streams: seq<Stream>, pipes: seq<nat>,
                             first: nat)
    requires Opened(before, after, modes, streams, pipes, first)
    ensures forall i :: 0 <= i < |streams| ==>
              IsMode(streams[i].mode) && (streams[i].mode == PIPE ==> streams[i].childEnd >= 0)
  {
    forall i | 0 <= i < |streams|
      ensures IsMode(streams[i].mode) && (streams[i].mode == PIPE ==> streams[i].childEnd >= 0)
    {
      assert OpenedStream(before, after, modes, streams[i], pipes[i], i);
    }
  }

  function LockAction(inherited: int): seq<Action> { if inherited >= 0 then [Inherit(inherited)] else [] }

  // ---- The child that is started ----

  /**
   The child holds its three streams as they should be, the parent's owner lock under the same number, and nothing else.
   A foreign descriptor that the parent holds closed cannot be a stream.
   */
  predicate ChildIsRight(before: FdTable, modes: seq<int>, pipes: seq<nat>, inherited: int, kept: map<int, File>)
    requires |modes| == |pipes| == 3 && forall i :: 0 <= i < 3 ==> IsMode(modes[i])
  {
    && (forall i :: 0 <= i < 3 ==>
          var wanted := Wanted(before, modes, pipes, i);
          && (IsForeign(modes, i) ==> wanted.Some?)
          && if wanted.None? then i !in kept || i == inherited else i in kept && kept[i] == wanted.value)
    && (inherited >= 0 ==> inherited in before && inherited in kept && kept[inherited] == before[inherited].file)
    && (forall fd :: fd in kept ==> 0 <= fd < 3 || (fd == inherited && inherited >= 0))
  }

  /** What the started child holds; `None` when one of its actions fails. */
  function ChildOf(after: FdTable, streams: seq<Stream>, inherited: int): Option<map<int, File>>
    requires forall i :: 0 <= i < |streams| ==>
               IsMode(streams[i].mode) && (streams[i].mode == PIPE ==> streams[i].childEnd >= 0)
  {
    match RunActions(Child(FilesOf(after), {}), Naming(streams) + LockAction(inherited))
    case None => None
    case Some(child) => Some(Kept(child))
  }

  /** Whatever numbers the pipes took: with safe modes and a safe lock, the child is started and is right. */
  lemma ChildIsAsWanted(before: FdTable, after: FdTable, modes: seq<int>, streams: seq<Stream>, pipes: seq<nat>,
                        first: nat, inherited: int)
    requires Opened(before, after, modes, streams, pipes, first) && |streams| == 3
    requires SafeModes(before, modes) && LockIsSafe(before, modes, inherited)
    ensures forall i :: 0 <= i < 3 ==> IsMode(streams[i].mode) && (streams[i].mode == PIPE ==> streams[i].childEnd >= 0)
    ensures var kept := ChildOf(after, streams, inherited);
            kept.Some? && ChildIsRight(before, modes, pipes, inherited, kept.value)
  {
    StreamsAreNamed(before, after, modes, streams, pipes, first, 3);
    assert streams[..3] == streams;
    var start := Child(FilesOf(after), {});
    var child := RunActions(start, Naming(streams)).value;
    RunAppend(start, Naming(streams), LockAction(inherited));
    assert forall fd :: fd in before ==> fd in after && after[fd] == before[fd];
    hide Opened, Naming;
    LockIsNamed(before, after, modes, pipes, child, inherited);
  }

  lemma LockIsNamed(before: FdTable, after: FdTable, modes: seq<int>, pipes: seq<nat>, child: Child, inherited: int)
    requires |modes| == |pipes| == 3 && SafeModes(before, modes) && LockIsSafe(before, modes, inherited)
    requires NamedSoFar(before, after, modes, pipes, child, 3)
    requires forall fd :: fd in before ==> fd in after && after[fd] == before[fd]
    ensures var final := RunActions(child, LockAction(inherited));
            final.Some? && ChildIsRight(before, modes, pipes, inherited, Kept(final.value))
  {
    if inherited >= 0 {
      OneAction(child, Inherit(inherited));
      if inherited < 3 {
        assert Wanted(before, modes, pipes, inherited)
               == if modes[inherited] == CLOSED then None else Some(before[inherited].file);
      }
      assert inherited in child.files && child.files[inherited] == before[inherited].file;
    }
  }

  // ---- When something is overwritten or missing ----

  /** The files of a table that are ends of pipes belong to pipes made earlier. */
  predicate Known(table: FdTable, first: nat) {
    forall fd :: fd in table ==> (table[fd].file.Original? || table[fd].file.pipe < first)
  }

  /** A standard descriptor that a child holds as something else than its stream. */
  predicate HoldsWrongly(before: FdTable, modes: seq<int>, pipes: seq<nat>, child: Child, n: nat)
    requires |modes| == |pipes| == 3 && n < 3 && IsMode(modes[n])
  {
    n in child.named && n in child.files && Wanted(before, modes, pipes, n).Some?
      && Wanted(before, modes, pipes, n) != Some(child.files[n])
  }

  /** The first unsafe stream: it names a closed descriptor, or its action fails, or gives the child something else. */
  lemma UnsafeStream(before: FdTable, after: FdTable, modes: seq<int>, streams: seq<Stream>, pipes: seq<nat>,
                     first: nat, child: Child, n: nat)
    requires Opened(before, after, modes, streams, pipes, first) && |streams| == 3 && n < 3 && Known(before, first)
    requires forall i :: 0 <= i < 3 ==> IsMode(modes[i])
    requires (forall i :: 0 <= i < n ==> StreamIsSafe(before, modes, i)) && !StreamIsSafe(before, modes, n)
    requires NamedSoFar(before, after, modes, pipes, child, n)
    ensures IsMode(streams[n].mode) && (streams[n].mode == PIPE ==> streams[n].childEnd >= 0)
    ensures var next := RunActions(child, NameStream(n, streams[n]));
            (IsForeign(modes, n) && modes[n] !in before) || next.None?
              || HoldsWrongly(before, modes, pipes, next.value, n)
  {
    var stream := streams[n];
    assert OpenedStream(before, after, modes, stream, pipes[n], n);
    var actions := NameStream(n, stream);
    if !ForeignIsSafe(before, modes, n) {
      var m := modes[n];
      assert actions == [Dup2(m, n)];
      OneAction(child, Dup2(m, n));
      if m in before {
        assert StreamIsSafe(before, modes, m);
        assert Wanted(before, modes, pipes, m).Some? && Wanted(before, modes, pipes, m) != Some(before[m].file);
      }
    } else {
      assert StreamIsSafe(before, modes, 1);
      assert Wanted(before, modes, pipes, 1) == Some(before[modes[1]].file);
      assert actions == [Dup2(1, 2)];
      OneAction(child, Dup2(1, 2));
    }
  }

  /** Actions that do not copy onto a number leave it as it is. */
  lemma {:induction false} LaterActionsKeep(child: Child, actions: seq<Action>, n: int)
    requires n in child.named && n in child.files && forall i :: 0 <= i < |actions| ==> actions[i].Dup2? ==>
               actions[i].target != n
    ensures var next := RunActions(child, actions);
            next.Some? ==> n in next.value.named && n in next.value.files && next.value.files[n] == child.files[n]
  {
    if actions != [] { LaterActionsKeep(child, actions[..|actions| - 1], n); }
  }

  lemma {:induction false} LaterTargets(streams: seq<Stream>, n: nat)
    requires n <= |streams|
    requires forall i :: 0 <= i < |streams| ==>
               IsMode(streams[i].mode) && (streams[i].mode == PIPE ==> streams[i].childEnd >= 0)
    ensures Naming(streams[..n]) <= Naming(streams)
    ensures forall k :: |Naming(streams[..n])| <= k < |Naming(streams)| ==> Naming(streams)[k].Dup2? ==>
              Naming(streams)[k].target >= n
    decreases |streams|
  {
    if n == |streams| {
      assert streams[..n] == streams;
    } else {
      var init := streams[..|streams| - 1];
      LaterTargets(init, n);
      assert init[..n] == streams[..n];
    }
  }

  lemma WrongForGood(before: FdTable, modes: seq<int>, pipes: seq<nat>, inherited: int, reached: Child,
                     later: seq<Action>, n: nat)
    requires |modes| == |pipes| == 3 && n < 3 && forall i :: 0 <= i < 3 ==> IsMode(modes[i])
    requires HoldsWrongly(before, modes, pipes, reached, n)
    requires forall i :: 0 <= i < |later| ==> later[i].Dup2? ==> later[i].target != n
    ensures var final := RunActions(reached, later);
            final.Some? ==> !ChildIsRight(before, modes, pipes, inherited, Kept(final.value))
  {
    hide Wanted, RunActions;
    LaterActionsKeep(reached, later, n);
  }

  lemma ClosedForeign(before: FdTable, modes: seq<int>, pipes: seq<nat>, inherited: int, kept: map<int, File>, n: nat)
    requires |modes| == |pipes| == 3 && n < 3 && forall i :: 0 <= i < 3 ==> IsMode(modes[i])
    requires IsForeign(modes, n) && modes[n] !in before
    ensures !ChildIsRight(before, modes, pipes, inherited, kept)
  {
    assert Wanted(before, modes, pipes, n).None?;
  }

  /** The actions after the first streams' ones. */
  lemma LaterPart(streams: seq<Stream>, inherited: int, n: nat) returns (later: seq<Action>)
    requires n <= |streams|
    requires forall i :: 0 <= i < |streams| ==>
               IsMode(streams[i].mode) && (streams[i].mode == PIPE ==> streams[i].childEnd >= 0)
    ensures Naming(streams) + LockAction(inherited) == Naming(streams[..n]) + later
    ensures forall i :: 0 <= i < |later| ==> later[i].Dup2? ==> later[i].target >= n
  {
    LaterTargets(streams, n);
    hide Naming;
    var all := Naming(streams) + LockAction(inherited);
    later := all[|Naming(streams[..n])|..];
    assert all == Naming(streams[..n]) + later;
  }

  /** Whatever comes after the first unsafe stream, the child is not right. */
  lemma UnsafeChild(before: FdTable, after: FdTable, modes: seq<int>, streams: seq<Stream>, pipes: seq<nat>, first: nat,
                    inherited: int, n: nat)
    requires Opened(before, after, modes, streams, pipes, first) && |streams| == 3 && n < 3 && Known(before, first)
    requires |modes| == |pipes| == 3 && forall i :: 0 <= i < 3 ==> IsMode(modes[i])
    requires (forall i :: 0 <= i < n ==> StreamIsSafe(before, modes, i)) && !StreamIsSafe(before, modes, n)
    ensures forall i :: 0 <= i < 3 ==> IsMode(streams[i].mode) && (streams[i].mode == PIPE ==> streams[i].childEnd >= 0)
    ensures var kept := ChildOf(after, streams, inherited);
            kept.Some? ==> !ChildIsRight(before, modes, pipes, inherited, kept.value)
  {
    hide Opened, Naming, StreamIsSafe, NamedSoFar, Known, RunActions, Wanted, NameStream, ChildIsRight, HoldsWrongly,
         FilesOf, Kept;
    StreamsAreWellFormed(before, after, modes, streams, pipes, first);
    StreamsAreNamed(before, after, modes, streams, pipes, first, n);
    var start := Child(FilesOf(after), {});
    var child := RunActions(start, Naming(streams[..n])).value;
    UnsafeStream(before, after, modes, streams, pipes, first, child, n);
    NamingNext(streams, n);
    RunAppend(start, Naming(streams[..n]), NameStream(n, streams[n]));
    var later := LaterPart(streams, inherited, n + 1);
    RunAppend(start, Naming(streams[..n + 1]), later);
    var kept := ChildOf(after, streams, inherited);
    if kept.Some? {
      if IsForeign(modes, n) && modes[n] !in before {
        ClosedForeign(before, modes, pipes, inherited, kept.value, n);
      } else {
        WrongForGood(before, modes, pipes, inherited, RunActions(start, Naming(streams[..n + 1])).value, later, n);
      }
    }
  }

  lemma NamingNext(streams: seq<Stream>, n: nat)
    requires n < |streams|
    requires forall i :: 0 <= i < |streams| ==>
               IsMode(streams[i].mode) && (streams[i].mode == PIPE ==> streams[i].childEnd >= 0)
    ensures Naming(streams[..n + 1]) == Naming(streams[..n]) + NameStream(n, streams[n])
  {
    assert streams[..n + 1][..n] == streams[..n];
  }

  /** A lock on a number that a stream gives another file is not the lock. */
  lemma UnsafeLock(before: FdTable, after: FdTable, modes: seq<int>, streams: seq<Stream>, pipes: seq<nat>, first: nat,
                   inherited: int)
    requires Opened(before, after, modes, streams, pipes, first) && |streams| == 3 && Known(before, first)
    requires SafeModes(before, modes) && !LockIsSafe(before, modes, inherited)
    ensures forall i :: 0 <= i < 3 ==> IsMode(streams[i].mode) && (streams[i].mode == PIPE ==> streams[i].childEnd >= 0)
    ensures var kept := ChildOf(after, streams, inherited);
            kept.Some? ==> !ChildIsRight(before, modes, pipes, inherited, kept.value)
  {
    StreamsAreWellFormed(before, after, modes, streams, pipes, first);
    if inherited in before {
      assert StreamIsSafe(before, modes, inherited);
      assert OpenedStream(before, after, modes, streams[inherited], pipes[inherited], inherited);
      assert Wanted(before, modes, pipes, inherited).Some?
             && Wanted(before, modes, pipes, inherited) != Some(before[inherited].file);
    }
  }

  /**
   Over all modes and all locks: the spawned child is right if and only if the modes and the lock are safe, which can be
   told from the parent's table before the spawn.
   */
  lemma ChildIsRightExactly(before: FdTable, after: FdTable, modes: seq<int>, streams: seq<Stream>, pipes: seq<nat>,
                            first: nat, inherited: int)
    requires Opened(before, after, modes, streams, pipes, first) && |streams| == 3 && Known(before, first)
    requires forall i :: 0 <= i < 3 ==> IsMode(modes[i])
    ensures forall i :: 0 <= i < 3 ==> IsMode(streams[i].mode) && (streams[i].mode == PIPE ==> streams[i].childEnd >= 0)
    ensures var kept := ChildOf(after, streams, inherited);
            kept.Some? && ChildIsRight(before, modes, pipes, inherited, kept.value)
            <==> SafeModes(before, modes) && LockIsSafe(before, modes, inherited)
  {
    StreamsAreWellFormed(before, after, modes, streams, pipes, first);
    hide Opened, StreamIsSafe, LockIsSafe, ChildIsRight, ChildOf, Known, OpenedStream;
    if !StreamIsSafe(before, modes, 0) {
      UnsafeChild(before, after, modes, streams, pipes, first, inherited, 0);
    } else if !StreamIsSafe(before, modes, 1) {
      UnsafeChild(before, after, modes, streams, pipes, first, inherited, 1);
    } else if !StreamIsSafe(before, modes, 2) {
      UnsafeChild(before, after, modes, streams, pipes, first, inherited, 2);
    } else if !LockIsSafe(before, modes, inherited) {
      UnsafeLock(before, after, modes, streams, pipes, first, inherited);
    } else {
      ChildIsAsWanted(before, after, modes, streams, pipes, first, inherited);
    }
  }
}
