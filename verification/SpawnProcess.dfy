/**
 The session spawn as it runs on a process's descriptor table (`open_stream`, `close_stream`, `agentic_spawn_session`).
 */
module SpawnProcess {
  import opened Prelude
  import opened SpawnSession

  /** The steps that may fail. */
  datatype Step =
    | PipeStep(index: nat) | FlagsStep(index: nat) | ActionsInit | AttributesInit | SetFlags | ChangeDirectory
    | NamingStep(index: nat) | LockStep | FindExecutable

  /** Which steps fail. */
  type Plan = Step -> bool

  /** The pipes that are asked for can be made and set up. */
  predicate PipesWork(plan: Plan, modes: seq<int>) {
    forall i :: 0 <= i < |modes| && modes[i] == PIPE ==> PipeWorks(plan, i)
  }

  predicate PipeWorks(plan: Plan, index: nat) { !plan(PipeStep(index)) && !plan(FlagsStep(index)) }

  predicate NamingWorks(plan: Plan, inherited: int) {
    !plan(NamingStep(0)) && !plan(NamingStep(1)) && !plan(NamingStep(2)) && (inherited >= 0 ==> !plan(LockStep))
  }

  /** The steps after the pipes that may fail by themselves do not. */
  predicate StepsWork(plan: Plan, inherited: int, changesDirectory: bool, executable: Option<Errno>) {
    && !plan(ActionsInit) && !plan(AttributesInit) && !plan(SetFlags) && (changesDirectory ==> !plan(ChangeDirectory))
    && NamingWorks(plan, inherited) && (executable.Some? ==> !plan(FindExecutable))
  }

  class Process {
    var table: FdTable
    // Open file descriptions with O_NONBLOCK set.
    var nonblocking: set<File>
    // The number of pipes made so far.
    var pipes: nat
    // The descriptors of the children started, in order.
    var children: seq<map<int, File>>

    ghost predicate Valid()
      reads this
    {
      Known(table, pipes) && forall file :: file in nonblocking ==> file.Original? || file.pipe < pipes
    }

    method Close(fd: int)
      modifies this`table
      ensures table == old(table) - {fd}
    {
      table := table - {fd};
    }

    /** A new pipe takes the two lowest free numbers. */
    method Pipe() returns (readEnd: nat, writeEnd: nat)
      requires Valid()
      modifies this`table, this`pipes
      ensures Valid() && pipes == old(pipes) + 1
      ensures readEnd < writeEnd && readEnd !in old(table) && writeEnd !in old(table)
      ensures forall k: int :: 0 <= k < writeEnd && k != readEnd ==> k in old(table)
      ensures table == old(table)[readEnd as int := Descriptor(ReadEnd(old(pipes)), false)]
                                 [writeEnd as int := Descriptor(WriteEnd(old(pipes)), false)]
    {
      readEnd := LowestFree(table.Keys, 0);
      writeEnd := LowestFree(table.Keys + {readEnd as int}, 0);
      table := table[readEnd as int := Descriptor(ReadEnd(pipes), false)]
                    [writeEnd as int := Descriptor(WriteEnd(pipes), false)];
      pipes := pipes + 1;
    }

    /** Open the pipe of a stream, if it has one; a failure closes what was full. */
    method OpenStream(index: nat, mode: int, closedInParent: bool, plan: Plan) returns (ok: bool, stream: Stream)
      requires Valid() && index < 3 && IsMode(mode)
      modifies this
      ensures Valid() && children == old(children) && old(pipes) <= pipes
      ensures ok <==> (mode == PIPE ==> PipeWorks(plan, index))
      ensures !ok ==> table == old(table) && nonblocking == old(nonblocking)
      ensures stream.mode == mode && stream.closedInParent == closedInParent
      ensures ok && mode != PIPE ==>
                table == old(table) && nonblocking == old(nonblocking) && stream.childEnd == -1
                && stream.parentEnd == -1
      ensures ok && mode == PIPE ==> NewEnds(old(table), table, stream, index, old(pipes))
      ensures ok && mode == PIPE ==>
                nonblocking == old(nonblocking) + {ParentFile(index, old(pipes))} && pipes == old(pipes) + 1
    {
      stream := Stream(mode, -1, -1, closedInParent);
      if mode != PIPE { return true, stream; }
      if plan(PipeStep(index)) { return false, stream; }
      var readEnd, writeEnd := Pipe();
      var childEnd, parentEnd := if index == 0 then readEnd else writeEnd, if index == 0 then writeEnd else readEnd;
      if plan(FlagsStep(index)) {
        Close(readEnd);
        Close(writeEnd);
        assert table == old(table);
        return false, stream;
      }
      table := table[childEnd as int := table[childEnd as int].(cloexec := true)];
      table := table[parentEnd as int := table[parentEnd as int].(cloexec := true)];
      nonblocking := nonblocking + {table[parentEnd as int].file};
      stream := stream.(childEnd := childEnd, parentEnd := parentEnd);
      ok := true;
    }

    method CloseStream(stream: Stream, parentToo: bool)
      modifies this`table
      ensures table == old(table) - StreamEnds(stream, parentToo)
    {
      if stream.childEnd >= 0 { Close(stream.childEnd); }
      if parentToo && stream.parentEnd >= 0 { Close(stream.parentEnd); }
    }

    /** Start a child: the file actions run in order on a copy of the table, and what they do not name is closed. */
    method PosixSpawn(actions: seq<Action>, fails: bool) returns (started: bool)
      modifies this`children
      ensures started <==> !fails && RunActions(Child(FilesOf(table), {}), actions).Some?
      ensures children
              == if started then old(children) + [Kept(RunActions(Child(FilesOf(table), {}), actions).value)]
                 else old(children)
    {
      var child := RunActions(Child(FilesOf(table), {}), actions);
      started := !fails && child.Some?;
      if started { children := children + [Kept(child.value)]; }
    }
  }

  // ---- Opening and closing the three streams ----

  /** The two lowest free numbers became the ends of a new pipe. */
  ghost predicate NewEnds(table: FdTable, next: FdTable, stream: Stream, index: nat, pipe: nat) {
    && stream.childEnd >= 0 && stream.parentEnd >= 0 && stream.childEnd != stream.parentEnd
    && stream.childEnd !in table && stream.parentEnd !in table
    && (forall k: int :: 0 <= k < stream.childEnd && k != stream.parentEnd ==> k in table)
    && (forall k: int :: 0 <= k < stream.parentEnd && k != stream.childEnd ==> k in table)
    && (index > 0 ==> stream.parentEnd < stream.childEnd)
    && next == table[stream.childEnd := Descriptor(ChildFile(index, pipe), true)]
                    [stream.parentEnd := Descriptor(ParentFile(index, pipe), true)]
  }

  lemma NewEndsAreLow(before: FdTable, table: FdTable, next: FdTable, modes: seq<int>, streams: seq<Stream>,
                      stream: Stream, made: seq<nat>, first: nat, pipe: nat)
    requires Opened(before, table, modes, streams, made, first) && |streams| < 3 && modes[|streams|] == PIPE
    requires NewEnds(table, next, stream, |streams|, pipe)
    ensures LowEnd(before, modes, stream, |streams|)
    ensures 0 in next && 1 in next
  {
    if |streams| == 2 && 0 !in before && 1 !in before && modes[0] != PIPE && modes[1] != PIPE {
      NoPipesYet(before, table, modes, streams, made, first);
    }
  }

  /** While no stream is a pipe, the table is still the one before. */
  lemma NoPipesYet(before: FdTable, table: FdTable, modes: seq<int>, streams: seq<Stream>, made: seq<nat>, first: nat)
    requires Opened(before, table, modes, streams, made, first) && forall i :: 0 <= i < |streams| ==> modes[i] != PIPE
    ensures table.Keys == before.Keys
  {
    forall i | 0 <= i < |streams|
      ensures streams[i].childEnd < 0 && streams[i].parentEnd < 0
    {
      assert OpenedStream(before, table, modes, streams[i], made[i], i);
    }
    NoEnds(streams);
  }

  lemma {:induction false} NoEnds(streams: seq<Stream>)
    requires forall i :: 0 <= i < |streams| ==> streams[i].childEnd < 0 && streams[i].parentEnd < 0
    ensures EndsOf(streams, true) == {}
  {
    if streams != [] { NoEnds(streams[..|streams| - 1]); }
  }

  lemma OpenedNext(before: FdTable, table: FdTable, next: FdTable, modes: seq<int>, streams: seq<Stream>,
                   stream: Stream, made: seq<nat>, first: nat, pipe: nat)
    requires Opened(before, table, modes, streams, made, first) && |streams| < 3 && IsMode(modes[|streams|])
    requires first <= pipe && forall j :: 0 <= j < |streams| && modes[j] == PIPE ==> made[j] < pipe
    requires stream.mode == modes[|streams|] && stream.closedInParent
             == (modes[|streams|] == |streams| && |streams| !in before)
    requires modes[|streams|] != PIPE ==> next == table && stream.childEnd == -1 && stream.parentEnd == -1
    requires modes[|streams|] == PIPE ==> NewEnds(table, next, stream, |streams|, pipe)
    ensures Opened(before, next, modes, streams + [stream], made[|streams| := pipe], first)
  {
    hide OpenedStream, NewEnds, EndsDiffer, EndsOf, StreamEnds;
    var index := |streams|;
    EarlierStreams(before, table, next, modes, streams, stream, made, first, pipe);
    LastStream(before, table, next, modes, streams, stream, made, first, pipe);
    EndsOfNext(streams, stream);
    assert next.Keys == before.Keys + EndsOf(streams + [stream], true);
  }

  lemma EarlierStreams(before: FdTable, table: FdTable, next: FdTable, modes: seq<int>, streams: seq<Stream>,
                       stream: Stream, made: seq<nat>, first: nat, pipe: nat)
    requires Opened(before, table, modes, streams, made, first) && |streams| < 3
    requires modes[|streams|] != PIPE ==> next == table
    requires modes[|streams|] == PIPE ==> NewEnds(table, next, stream, |streams|, pipe)
    ensures forall i :: 0 <= i < |streams| ==>
              && OpenedStream(before, next, modes, streams[i], made[i], i)
              && (modes[i] == PIPE && modes[|streams|] == PIPE ==> EndsDiffer(streams[i], stream))
  {
    forall i | 0 <= i < |streams|
      ensures OpenedStream(before, next, modes, streams[i], made[i], i)
      ensures modes[i] == PIPE && modes[|streams|] == PIPE ==> EndsDiffer(streams[i], stream)
    {
      StreamStaysOpen(before, table, next, modes, streams[i], made[i], i);
      if modes[i] == PIPE && modes[|streams|] == PIPE {
        NewEndsDiffer(before, table, next, modes, streams[i], made[i], i, stream, |streams|, pipe);
      }
    }
  }

  lemma LastStream(before: FdTable, table: FdTable, next: FdTable, modes: seq<int>, streams: seq<Stream>,
                   stream: Stream, made: seq<nat>, first: nat, pipe: nat)
    requires Opened(before, table, modes, streams, made, first) && |streams| < 3 && IsMode(modes[|streams|])
    requires stream.mode == modes[|streams|] && stream.closedInParent
             == (modes[|streams|] == |streams| && |streams| !in before)
    requires modes[|streams|] != PIPE ==> next == table && stream.childEnd == -1 && stream.parentEnd == -1
    requires modes[|streams|] == PIPE ==> NewEnds(table, next, stream, |streams|, pipe)
    ensures OpenedStream(before, next, modes, stream, pipe, |streams|)
    ensures next.Keys == table.Keys + StreamEnds(stream, true)
    ensures forall fd :: fd in table ==> fd in next && next[fd] == table[fd]
    ensures modes[|streams|] == PIPE ==> 0 in next && 1 in next
  {
    if modes[|streams|] == PIPE { NewEndsAreLow(before, table, next, modes, streams, stream, made, first, pipe); }
    hide LowEnd;
  }

  lemma EndsOfNext(streams: seq<Stream>, stream: Stream)
    ensures EndsOf(streams + [stream], true) == EndsOf(streams, true) + StreamEnds(stream, true)
  {
    assert (streams + [stream])[..|streams|] == streams;
  }

  lemma NewEndsDiffer(before: FdTable, table: FdTable, next: FdTable, modes: seq<int>, earlier: Stream, made: nat,
                      i: nat, stream: Stream, index: nat, pipe: nat)
    requires i < |modes| && modes[i] == PIPE && OpenedStream(before, table, modes, earlier, made, i)
             && NewEnds(table, next, stream, index, pipe)
    ensures EndsDiffer(earlier, stream)
  {
    hide LowEnd;
  }

  lemma StreamStaysOpen(before: FdTable, table: FdTable, next: FdTable, modes: seq<int>, stream: Stream, pipe: nat,
                        index: nat)
    requires index < |modes| && OpenedStream(before, table, modes, stream, pipe, index)
    requires forall fd :: fd in table ==> fd in next && next[fd] == table[fd]
    ensures OpenedStream(before, next, modes, stream, pipe, index)
  {
    hide LowEnd;
  }

  /** The numbers of the parent's ends. */
  function ParentNumbers(modes: seq<int>, parentEnds: seq<int>): set<int>
    requires |modes| == |parentEnds|
  {
    set i | 0 <= i < |modes| && modes[i] == PIPE :: parentEnds[i]
  }

  /** The parent's ends, and nothing else, are added to the table. */
  ghost predicate OnlyParentEnds(before: FdTable, after: FdTable, modes: seq<int>, made: seq<nat>, parentEnds: seq<int>)
  {
    && |modes| == |made| == |parentEnds| == 3
    && after.Keys == before.Keys + ParentNumbers(modes, parentEnds)
    && (forall fd :: fd in before ==> fd in after && after[fd] == before[fd])
    && (forall i :: 0 <= i < 3 ==>
          if modes[i] == PIPE then
            parentEnds[i] !in before && parentEnds[i] in after
              && after[parentEnds[i]] == Descriptor(ParentFile(i, made[i]), true)
          else parentEnds[i] == -1)
    && (forall i, j :: 0 <= i < j < 3 && modes[i] == PIPE && modes[j] == PIPE ==>
          parentEnds[i] != parentEnds[j] && made[i] != made[j])
  }

  /** Close the child ends, and on a failure the parent ends too. */
  method CloseStreams(process: Process, streams: seq<Stream>, failed: bool)
    modifies process`table
    ensures process.table == old(process.table) - EndsOf(streams, failed)
  {
    for index := 0 to |streams|
      invariant process.table == old(process.table) - EndsOf(streams[..index], failed)
    {
      process.CloseStream(streams[index], failed);
      assert streams[..index + 1][..index] == streams[..index];
      assert EndsOf(streams[..index + 1], failed)
             == EndsOf(streams[..index], failed) + StreamEnds(streams[index], failed);
    }
    assert streams[..|streams|] == streams;
  }

  lemma AllClosed(before: FdTable, full: FdTable, modes: seq<int>, streams: seq<Stream>, made: seq<nat>, first: nat)
    requires Opened(before, full, modes, streams, made, first)
    ensures full - EndsOf(streams, true) == before
  {
    forall fd | fd in EndsOf(streams, true)
      ensures fd !in before
    {
      var i := EndsOfMember(streams, true, fd);
      assert OpenedStream(before, full, modes, streams[i], made[i], i);
    }
    hide EndsOf, OpenedStream;
    var after := full - EndsOf(streams, true);
    assert after.Keys == before.Keys;
    assert forall fd :: fd in before ==> after[fd] == before[fd];
  }

  lemma EndsOfThree(streams: seq<Stream>, parentToo: bool)
    requires |streams| == 3
    ensures EndsOf(streams, parentToo) == StreamEnds(streams[0], parentToo) + StreamEnds(streams[1], parentToo)
            + StreamEnds(streams[2], parentToo)
  {
    var two, one := streams[..2], streams[..1];
    assert two[..1] == one && one[..0] == [];
    assert EndsOf(one, parentToo) == StreamEnds(streams[0], parentToo);
    assert EndsOf(two, parentToo) == EndsOf(one, parentToo) + StreamEnds(streams[1], parentToo);
  }

  function ParentEnds(streams: seq<Stream>): seq<int>
    requires |streams| == 3
  {
    [streams[0].parentEnd, streams[1].parentEnd, streams[2].parentEnd]
  }

  lemma ParentEndsRemain(before: FdTable, full: FdTable, modes: seq<int>, streams: seq<Stream>, made: seq<nat>,
                         first: nat)
    requires Opened(before, full, modes, streams, made, first) && |streams| == 3
    ensures OnlyParentEnds(before, full - EndsOf(streams, false), modes, made, ParentEnds(streams))
  {
    var ends, closed := ParentEnds(streams), EndsOf(streams, false);
    StreamFacts(before, full, modes, streams, made, first);
    ClosedFacts(before, full, modes, streams, made, first);
    ParentKeys(modes, streams);
    assert full.Keys == before.Keys + EndsOf(streams, true) && forall fd :: fd in before ==>
             fd in full && full[fd] == before[fd];
    assert |modes| == |made| == 3;
    hide EndsOf, OpenedStream, EndsDiffer, Opened, ParentEnds;
    assert forall fd :: fd in closed ==> fd !in ParentNumbers(modes, ends);
    hide ParentNumbers;
    var all := EndsOf(streams, true);
    assert all - closed == ParentNumbers(modes, ends);
    assert forall fd :: fd in full && fd !in closed <==> fd in full - closed;
    assert forall fd :: fd in before.Keys + ParentNumbers(modes, ends) <==> fd in full && fd !in closed;
    assert (full - closed).Keys == before.Keys + ParentNumbers(modes, ends);
  }

  lemma StreamFacts(before: FdTable, full: FdTable, modes: seq<int>, streams: seq<Stream>, made: seq<nat>, first: nat)
    requires Opened(before, full, modes, streams, made, first) && |streams| == 3
    ensures forall i :: 0 <= i < 3 ==>
              (modes[i] == PIPE <==> streams[i].childEnd >= 0) && (modes[i] == PIPE <==> streams[i].parentEnd >= 0)
    ensures forall i, j :: 0 <= i < 3 && 0 <= j < 3 && modes[i] == PIPE && modes[j] == PIPE ==>
              streams[i].childEnd != streams[j].parentEnd
    ensures var ends := ParentEnds(streams);
            && (forall i :: 0 <= i < 3 ==>
                  if modes[i] == PIPE then ends[i] !in before && ends[i] in full
                     && full[ends[i]] == Descriptor(ParentFile(i, made[i]), true)
                  else ends[i] == -1)
            && (forall i, j :: 0 <= i < j < 3 && modes[i] == PIPE && modes[j] == PIPE ==>
                  ends[i] != ends[j] && made[i] != made[j])
  {
    var ends := ParentEnds(streams);
    forall i | 0 <= i < 3
      ensures (modes[i] == PIPE <==> streams[i].childEnd >= 0) && (modes[i] == PIPE <==> streams[i].parentEnd >= 0)
      ensures if modes[i] == PIPE then ends[i] !in before && ends[i] in full
              && full[ends[i]] == Descriptor(ParentFile(i, made[i]), true)
              else ends[i] == -1
    {
      assert OpenedStream(before, full, modes, streams[i], made[i], i);
    }
    forall i, j | 0 <= i < j < 3 && modes[i] == PIPE && modes[j] == PIPE
      ensures ends[i] != ends[j] && made[i] != made[j]
    {
      assert EndsDiffer(streams[i], streams[j]);
    }
    ChildEndIsNoParentEnd(before, full, modes, streams, made, first, 0);
    ChildEndIsNoParentEnd(before, full, modes, streams, made, first, 1);
    ChildEndIsNoParentEnd(before, full, modes, streams, made, first, 2);
  }

  /** What is closed on success: nothing of the table before, and no parent end. */
  lemma ClosedFacts(before: FdTable, full: FdTable, modes: seq<int>, streams: seq<Stream>, made: seq<nat>, first: nat)
    requires Opened(before, full, modes, streams, made, first) && |streams| == 3
    ensures forall fd :: fd in EndsOf(streams, false) ==>
              fd !in before && forall i :: 0 <= i < 3 && modes[i] == PIPE ==> fd != ParentEnds(streams)[i]
  {
    StreamFacts(before, full, modes, streams, made, first);
    forall fd | fd in EndsOf(streams, false)
      ensures fd !in before && forall i :: 0 <= i < 3 && modes[i] == PIPE ==> fd != ParentEnds(streams)[i]
    {
      var j := EndsOfMember(streams, false, fd);
      ChildEndIsNoParentEnd(before, full, modes, streams, made, first, j);
    }
  }

  lemma ParentKeys(modes: seq<int>, streams: seq<Stream>)
    requires |modes| == |streams| == 3
    requires forall i :: 0 <= i < 3 ==>
               (modes[i] == PIPE <==> streams[i].childEnd >= 0) && (modes[i] == PIPE <==> streams[i].parentEnd >= 0)
    requires forall i, j :: 0 <= i < 3 && 0 <= j < 3 && modes[i] == PIPE && modes[j] == PIPE ==>
               streams[i].childEnd != streams[j].parentEnd
    ensures EndsOf(streams, true) - EndsOf(streams, false) == ParentNumbers(modes, ParentEnds(streams))
  {
    EndsOfThree(streams, true);
    EndsOfThree(streams, false);
    hide EndsOf;
    var ends := ParentNumbers(modes, ParentEnds(streams));
    assert modes[0] == PIPE ==> ParentEnds(streams)[0] in ends;
    assert modes[1] == PIPE ==> ParentEnds(streams)[1] in ends;
    assert modes[2] == PIPE ==> ParentEnds(streams)[2] in ends;
  }

  lemma ChildEndIsNoParentEnd(before: FdTable, full: FdTable, modes: seq<int>, streams: seq<Stream>, made: seq<nat>,
                              first: nat, j: nat)
    requires Opened(before, full, modes, streams, made, first) && |streams| == 3 && j < 3
    ensures streams[j].childEnd !in before || modes[j] != PIPE
    ensures forall i :: 0 <= i < 3 && modes[i] == PIPE && modes[j] == PIPE ==>
              streams[j].childEnd != streams[i].parentEnd
  {
    assert OpenedStream(before, full, modes, streams[j], made[j], j);
    forall i | 0 <= i < 3 && modes[i] == PIPE && modes[j] == PIPE
      ensures streams[j].childEnd != streams[i].parentEnd
    {
      if i < j {
        assert EndsDiffer(streams[i], streams[j]);
      } else if j < i {
        assert EndsDiffer(streams[j], streams[i]);
      }
    }
  }

  // ---- The spawn ----

  /** Open the three streams; on a failure the streams opened before it are handed back. */
  method OpenStreams(process: Process, modes: seq<int>, plan: Plan) returns (ok: bool, streams: seq<Stream>,
                                                                             ghost made: seq<nat>)
    requires process.Valid() && |modes| == 3 && forall i :: 0 <= i < 3 ==> IsMode(modes[i])
    modifies process
    ensures process.Valid() && process.children == old(process.children)
    ensures Opened(old(process.table), process.table, modes, streams, made, old(process.pipes))
    ensures (ok <==> |streams| == 3) && (ok <==> PipesWork(plan, modes))
    ensures NonblockingEnds(modes, streams, made, old(process.nonblocking), process.nonblocking)
  {
    ghost var first := process.pipes;
    var before := process.table;
    var closedInParent := seq(3, i requires 0 <= i < 3 => modes[i] == i && i !in before);
    streams, made := [], [0, 0, 0];
    assert Opened(before, process.table, modes, streams, made, first);
    assert NonblockingEnds(modes, streams, made, old(process.nonblocking), process.nonblocking);
    hide Opened, NonblockingEnds, NewEnds, Known, PipeWorks;
    for opening := 0 to 3
      invariant process.Valid() && process.children == old(process.children)
      invariant |streams| == opening && first <= process.pipes
      invariant Opened(before, process.table, modes, streams, made, first)
      invariant forall j :: 0 <= j < opening && modes[j] == PIPE ==> made[j] < process.pipes
      invariant forall j :: 0 <= j < opening && modes[j] == PIPE ==> PipeWorks(plan, j)
      invariant NonblockingEnds(modes, streams, made, old(process.nonblocking), process.nonblocking)
    {
      ghost var table, pipe, files := process.table, process.pipes, process.nonblocking;
      var opens, stream := process.OpenStream(opening, modes[opening], closedInParent[opening], plan);
      if !opens { return false, streams, made; }
      OpenedNext(before, table, process.table, modes, streams, stream, made, first, pipe);
      NonblockingNext(modes, streams, stream, made, old(process.nonblocking), files, pipe);
      streams, made := streams + [stream], made[opening := pipe];
    }
    ok := true;
  }

  /** Exactly the parent ends of the new pipes were made nonblocking. */
  ghost predicate NonblockingEnds(modes: seq<int>, streams: seq<Stream>, made: seq<nat>, before: set<File>,
                                  after: set<File>)
    requires |streams| <= |modes| == |made|
  {
    after == before + set i | 0 <= i < |streams| && modes[i] == PIPE :: ParentFile(i, made[i])
  }

  lemma NonblockingNext(modes: seq<int>, streams: seq<Stream>, stream: Stream, made: seq<nat>, before: set<File>,
                        after: set<File>, pipe: nat)
    requires |streams| < |modes| == |made| && NonblockingEnds(modes, streams, made, before, after)
    ensures NonblockingEnds(modes, streams + [stream], made[|streams| := pipe], before,
                            if modes[|streams|] == PIPE then after + {ParentFile(|streams|, pipe)} else after)
  {
    var n, numbers := |streams|, made[|streams| := pipe];
    var ends := set i | 0 <= i < n && modes[i] == PIPE :: ParentFile(i, made[i]);
    var all := set i | 0 <= i < n + 1 && modes[i] == PIPE :: ParentFile(i, numbers[i]);
    assert ends == set i | 0 <= i < n && modes[i] == PIPE :: ParentFile(i, numbers[i]);
    assert all == if modes[n] == PIPE then ends + {ParentFile(n, pipe)} else ends by {
      assert modes[n] == PIPE ==> ParentFile(n, numbers[n]) in all;
    }
  }

  /** Name the three standard descriptors in order, and then the owner lock. */
  method NameAll(streams: seq<Stream>, inherited: int, plan: Plan) returns (ok: bool, actions: seq<Action>)
    requires |streams| == 3 && forall i :: 0 <= i < 3 ==>
               IsMode(streams[i].mode) && (streams[i].mode == PIPE ==> streams[i].childEnd >= 0)
    ensures ok <==> NamingWorks(plan, inherited)
    ensures ok ==> actions == Naming(streams) + LockAction(inherited)
  {
    actions := [];
    for target := 0 to 3
      invariant actions == Naming(streams[..target]) && forall i :: 0 <= i < target ==> !plan(NamingStep(i))
    {
      if plan(NamingStep(target)) { return false, actions; }
      assert streams[..target + 1][..target] == streams[..target];
      actions := actions + NameStream(target, streams[target]);
    }
    assert streams[..3] == streams;
    if inherited >= 0 {
      if plan(LockStep) { return false, actions; }
      actions := actions + [Inherit(inherited)];
    }
    ok := true;
  }

  // ---- The search for an executable ----

  datatype Errno = Success | NameError | NotExecutableFormat | ResourceError | AccessError | OtherError

  /** One candidate: what posix_spawn reports for it and for the shell, and whether the file exists. */
  datatype Candidate = Candidate(tooLong: bool, error: Errno, shell: Errno, present: bool)

  /** What a spawn reports: an error of the file actions comes after the name was found. */
  function Reported(error: Errno, actionsWork: bool): Errno {
    if error == Success && !actionsWork then OtherError else error
  }

  /** The outcome of the search: the first candidate that starts or stops it. */
  function Search(candidates: seq<Candidate>, actionsWork: bool, denied: bool): Errno {
    if candidates == [] then if denied then AccessError else NameError
    else
      var c, rest := candidates[0], candidates[1..];
      if c.tooLong then Search(rest, actionsWork, denied)
      else
        match Reported(c.error, actionsWork)
        case Success => Success
        case NameError => Search(rest, actionsWork, denied)
        case NotExecutableFormat => Reported(c.shell, actionsWork)
        case ResourceError => ResourceError
        case AccessError => Search(rest, actionsWork, denied || c.present)
        case OtherError => if c.present then OtherError else Search(rest, actionsWork, denied)
  }

  /** A candidate that the search goes past: it cannot be named, it is not there, or it may not be executed. */
  predicate PassedOver(c: Candidate, actionsWork: bool) {
    c.tooLong || (c.error == Success && !actionsWork && !c.present) || c.error.NameError? || c.error.AccessError?
    || (c.error.OtherError? && !c.present)
  }

  /** What the search reports at a candidate that it does not go past. */
  function Stopped(c: Candidate, actionsWork: bool): Errno {
    if c.error.NotExecutableFormat? then
      // The shell is tried once, and its outcome stands.
      if c.shell == Success && !actionsWork then OtherError else c.shell
    else if c.error == Success && !actionsWork then OtherError
    else c.error
  }

  /** The first candidate that is not passed over decides; without one, access was denied or there is no such name. */
  lemma {:induction false} FirstDecides(candidates: seq<Candidate>, actionsWork: bool, denied: bool, k: nat)
    requires k <= |candidates| && forall j :: 0 <= j < k ==> PassedOver(candidates[j], actionsWork)
    requires k < |candidates| ==> !PassedOver(candidates[k], actionsWork)
    ensures Search(candidates, actionsWork, denied)
            == if k < |candidates| then Stopped(candidates[k], actionsWork)
               else if denied || DeniedBy(candidates) then AccessError
               else NameError
  {
    if candidates != [] && k > 0 {
      FirstDecides(candidates[1..], actionsWork, denied || Denies(candidates[0]), k - 1);
      assert DeniedBy(candidates) <==> Denies(candidates[0]) || DeniedBy(candidates[1..]) by {
        DeniedUnfolds(candidates);
      }
    }
  }

  predicate Denies(c: Candidate) { !c.tooLong && c.error.AccessError? && c.present }

  predicate DeniedBy(candidates: seq<Candidate>) { exists i :: 0 <= i < |candidates| && Denies(candidates[i]) }

  lemma DeniedUnfolds(candidates: seq<Candidate>)
    requires candidates != []
    ensures DeniedBy(candidates) <==> Denies(candidates[0]) || DeniedBy(candidates[1..])
  {
    if DeniedBy(candidates) {
      var i :| 0 <= i < |candidates| && Denies(candidates[i]);
      assert i > 0 ==> candidates[1..][i - 1] == candidates[i];
    }
    if DeniedBy(candidates[1..]) {
      var i :| 0 <= i < |candidates[1..]| && Denies(candidates[1..][i]);
      assert candidates[i + 1] == candidates[1..][i];
    }
  }

  /** Whether something is started, when the file actions work. */
  predicate Starts(executable: Option<Errno>, candidates: seq<Candidate>) {
    match executable
    case Some(error) => error == Success
    case None => Search(candidates, true, false) == Success
  }

  /** Try the candidates in order; at most one child is started, and exactly when the search succeeds. */
  method SpawnSearching(process: Process, actions: seq<Action>, candidates: seq<Candidate>) returns (result: Errno)
    modifies process`children
    ensures result == Search(candidates, RunActions(Child(FilesOf(process.table), {}), actions).Some?, false)
    ensures result != Success ==> process.children == old(process.children)
    ensures result == Success ==>
              var child := RunActions(Child(FilesOf(process.table), {}), actions);
              child.Some? && process.children == old(process.children) + [Kept(child.value)]
  {
    var denied := false;
    ghost var works := RunActions(Child(FilesOf(process.table), {}), actions).Some?;
    for index := 0 to |candidates|
      invariant process.children == old(process.children)
      invariant Search(candidates[index..], works, denied) == Search(candidates, works, false)
    {
      var c := candidates[index];
      assert candidates[index..][1..] == candidates[index + 1..];
      if c.tooLong { continue; }
      var started := process.PosixSpawn(actions, c.error != Success);
      if started { return Success; }
      var error := if c.error == Success then OtherError else c.error;
      match error
      case NameError =>
      case NotExecutableFormat =>
        var shell := process.PosixSpawn(actions, c.shell != Success);
        return if shell then Success else if c.shell == Success then OtherError else c.shell;
      case ResourceError => return ResourceError;
      case _ =>
        if c.present {
          if error == AccessError { denied := true; } else { return error; }
        }
    }
    result := if denied then AccessError else NameError;
  }

  /**
   Spawn in a new session. Whatever numbers are closed in the parent: a success starts one child and leaves the parent
   only its own pipe ends; the child holds exactly its streams and the owner lock if and only if the modes and the lock
   were safe; and with those the spawn succeeds exactly when no step fails and something can be started. A failure at
   any step starts no child and leaves the parent's table as it was.
   */
  method SpawnNewSession(process: Process, modes: seq<int>, inherited: int, changesDirectory: bool,
                         executable: Option<Errno>,
                         candidates: seq<Candidate>, plan: Plan)
    returns (ok: bool, parentEnds: seq<int>, ghost made: seq<nat>)
    requires process.Valid() && |modes| == 3 && forall i :: 0 <= i < 3 ==> IsMode(modes[i])
    modifies process
    ensures !ok ==> process.table == old(process.table) && process.children == old(process.children)
    ensures ok ==>
              && |process.children| == |old(process.children)| + 1 && old(process.children) <= process.children
              && OnlyParentEnds(old(process.table), process.table, modes, made, parentEnds)
              && (forall i :: 0 <= i < 3 && modes[i] == PIPE ==> made[i] >= old(process.pipes))
              && process.nonblocking
                 == old(process.nonblocking) + set i | 0 <= i < 3 && modes[i] == PIPE :: ParentFile(i, made[i])
    ensures ok ==> (ChildIsRight(old(process.table), modes, made, inherited, process.children[|old(process.children)|])
                    <==> SafeModes(old(process.table), modes) && LockIsSafe(old(process.table), modes, inherited))
    ensures var works := PipesWork(plan, modes) && StepsWork(plan, inherited, changesDirectory, executable)
            && Starts(executable, candidates);
            && (ok ==> works)
            && (works && SafeModes(old(process.table), modes) && LockIsSafe(old(process.table), modes, inherited)
                ==> ok)
  {
    hide ChildIsRight, SafeModes, LockIsSafe, PipesWork, StepsWork, Starts;
    var opens, streams;
    opens, streams, made := OpenStreams(process, modes, plan);
    ghost var before, full, first := old(process.table), process.table, old(process.pipes);
    ok, parentEnds := false, [-1, -1, -1];
    if opens {
      ok := StartChild(process, streams, inherited, changesDirectory, executable, candidates, plan, before, modes, made,
                       first);
    }
    CloseStreams(process, streams, !ok);
    if !ok {
      AllClosed(before, full, modes, streams, made, first);
    } else {
      ParentEndsRemain(before, full, modes, streams, made, first);
      parentEnds := ParentEnds(streams);
    }
  }

  /** The steps between the pipes and their closing. */
  method StartChild(process: Process, streams: seq<Stream>, inherited: int, changesDirectory: bool,
                    executable: Option<Errno>,
                    candidates: seq<Candidate>, plan: Plan, ghost before: FdTable, ghost modes: seq<int>,
                    ghost made: seq<nat>, ghost first: nat)
    returns (ok: bool)
    requires Opened(before, process.table, modes, streams, made, first) && |streams| == 3 && Known(before, first)
    requires |modes| == |made| == 3 && forall i :: 0 <= i < 3 ==> IsMode(modes[i])
    modifies process`children
    ensures !ok ==> process.children == old(process.children)
    ensures ok ==> |process.children| == |old(process.children)| + 1 && old(process.children) <= process.children
    ensures ok ==> (ChildIsRight(before, modes, made, inherited, process.children[|old(process.children)|])
                    <==> SafeModes(before, modes) && LockIsSafe(before, modes, inherited))
    ensures var works := StepsWork(plan, inherited, changesDirectory, executable) && Starts(executable, candidates);
            (ok ==> works) && (works && SafeModes(before, modes) && LockIsSafe(before, modes, inherited) ==> ok)
  {
    hide Opened, ChildIsRight, SafeModes, LockIsSafe, Known, NamingWorks, RunActions, Search, Naming;
    StreamsAreWellFormed(before, process.table, modes, streams, made, first);
    ChildIsRightExactly(before, process.table, modes, streams, made, first, inherited);
    if plan(ActionsInit) || plan(AttributesInit) || plan(SetFlags) || (changesDirectory && plan(ChangeDirectory)) {
      return false;
    }
    var named, actions := NameAll(streams, inherited, plan);
    if !named { return false; }
    if executable.Some? {
      if plan(FindExecutable) { return false; }
      ok := process.PosixSpawn(actions, executable.value != Success);
    } else {
      var result := SpawnSearching(process, actions, candidates);
      ok := result == Success;
    }
  }
}
