/** The monitor: the order of occurrences, the selection and the viewport (ext-pi/src/monitor.ts). */
module Monitor {
  import opened Prelude
  import opened Snapshots
  import opened Reducer
  import Lifecycle
  import RunTheorems

  // ---- The order of occurrences ----

  /** The names of a sequence that another one lacks, in order. */
  function Missing(s: seq<string>, present: seq<string>): seq<string> {
    if s == [] then [] else (if s[0] in present then [] else [s[0]]) + Missing(s[1..], present)
  }

  function OccurrenceIds(s: Snapshot): seq<string> { s.authoredOrder + Missing(s.occurrences.order, s.authoredOrder) }

  lemma {:induction false} MissingIs(s: seq<string>, present: seq<string>)
    requires Distinct(s)
    ensures Distinct(Missing(s, present)) && forall id :: id in Missing(s, present) <==> id in s && id !in present
  {
    if s != [] {
      MissingIs(s[1..], present);
      assert s[0] !in s[1..];
    }
  }

  /** Every occurrence of a reachable snapshot is listed exactly once, the recorded trace first. */
  lemma OccurrencesAreListedOnce(s: Snapshot)
    requires Reachable(s)
    ensures Distinct(OccurrenceIds(s)) && |OccurrenceIds(s)| == |s.occurrences.order|
    ensures forall id :: id in OccurrenceIds(s) <==> id in s.occurrences.at
    ensures s.authoredOrder <= OccurrenceIds(s)
  {
    hide Missing, Lifecycle.OccurrenceOk, Lifecycle.LedgerOk, Lifecycle.BoundsOk, Reachable;
    Lifecycle.ReachableIsOk(s);
    MissingIs(s.occurrences.order, s.authoredOrder);
    var ids := OccurrenceIds(s);
    DistinctAppend(s.authoredOrder, Missing(s.occurrences.order, s.authoredOrder));
    DistinctSize(ids);
    DistinctSize(s.occurrences.order);
    assert (set id | id in ids) == (set id | id in s.occurrences.order);
  }

  /**
   The occurrences that the trace does not name follow in the order in which they started; without a trace, all of them
   do.
   */
  lemma RestIsInOrder(s: Snapshot, i: nat, j: nat) returns (k: nat, l: nat)
    requires |s.authoredOrder| <= i < j < |OccurrenceIds(s)|
    ensures k < l < |s.occurrences.order|
    ensures s.occurrences.order[k] == OccurrenceIds(s)[i] && s.occurrences.order[l] == OccurrenceIds(s)[j]
    ensures s.authoredOrder == [] ==> OccurrenceIds(s) == s.occurrences.order
  {
    var n := |s.authoredOrder|;
    k, l := MissingInOrder(s.occurrences.order, s.authoredOrder, i - n, j - n);
    if s.authoredOrder == [] { NothingMissing(s.occurrences.order); }
  }

  lemma {:induction false} NothingMissing(s: seq<string>)
    ensures Missing(s, []) == s
  {
    if s != [] { NothingMissing(s[1..]); }
  }

  lemma {:induction false} MissingAt(s: seq<string>, present: seq<string>, i: nat) returns (k: nat)
    requires i < |Missing(s, present)|
    ensures k < |s| && s[k] == Missing(s, present)[i]
  {
    if s[0] in present {
      var rest := MissingAt(s[1..], present, i);
      k := rest + 1;
    } else if i == 0 {
      k := 0;
    } else {
      var rest := MissingAt(s[1..], present, i - 1);
      k := rest + 1;
    }
  }

  lemma {:induction false} MissingInOrder(s: seq<string>, present: seq<string>, i: nat, j: nat) returns (k: nat, l: nat)
    requires i < j < |Missing(s, present)|
    ensures k < l < |s| && s[k] == Missing(s, present)[i] && s[l] == Missing(s, present)[j]
  {
    if s[0] in present {
      k, l := MissingInOrder(s[1..], present, i, j);
      k, l := k + 1, l + 1;
    } else if i == 0 {
      var rest := MissingAt(s[1..], present, j - 1);
      k, l := 0, rest + 1;
    } else {
      k, l := MissingInOrder(s[1..], present, i - 1, j - 1);
      k, l := k + 1, l + 1;
    }
  }

  lemma DistinctAppend(a: seq<string>, b: seq<string>)
    requires Distinct(a) && Distinct(b) && forall x :: x in a ==> x !in b
    ensures Distinct(a + b)
  {
    forall i, j | 0 <= i < j < |a + b|
      ensures (a + b)[i] != (a + b)[j]
    {
      if i < |a| <= j { assert a[i] in a && b[j - |a|] in b; }
    }
  }

  /** An occurrence that is listed stays listed in every continuation of the run. */
  lemma ListedForGood(s: Snapshot, run: seq<Envelope>, id: string)
    requires Reachable(s) && Replay(s, run).Ok? && id in OccurrenceIds(s)
    ensures id in OccurrenceIds(Replay(s, run).value)
  {
    hide *;
    ContinuationIsReachable(s, run);
    StaysPresent(s, run, id);
    OccurrencesAreListedOnce(s);
    OccurrencesAreListedOnce(Replay(s, run).value);
  }

  lemma ContinuationIsReachable(s: Snapshot, run: seq<Envelope>)
    requires Reachable(s) && Replay(s, run).Ok?
    ensures Reachable(Replay(s, run).value)
  {
    var runId, before :| Replay(InitialSnapshot(runId), before) == Ok(s);
    ReplayAppend(InitialSnapshot(runId), before, run);
    hide Replay, InitialSnapshot;
  }

  lemma StaysPresent(s: Snapshot, run: seq<Envelope>, id: string)
    requires Reachable(s) && Replay(s, run).Ok?
    ensures id in s.occurrences.at ==> id in Replay(s, run).value.occurrences.at
  {
    hide Replay, Reachable, Lifecycle.RunOk;
    Lifecycle.ReachableIsOk(s);
    RunTheorems.ReplayAdvances(s, run);
  }

  // ---- Rows ----

  function Rows(blocks: seq<seq<string>>): seq<string> {
    if blocks == [] then [] else Rows(blocks[..|blocks| - 1]) + blocks[|blocks| - 1]
  }

  lemma {:induction false} RowsOf(blocks: seq<seq<string>>, i: nat)
    requires i < |blocks|
    ensures var start := |Rows(blocks[..i])|;
            start + |blocks[i]| <= |Rows(blocks)| && Rows(blocks)[start..start + |blocks[i]|] == blocks[i]
  {
    var init := blocks[..|blocks| - 1];
    if i < |blocks| - 1 {
      RowsOf(init, i);
      assert init[..i] == blocks[..i];
      var start := |Rows(blocks[..i])|;
      SliceOfPrefix(Rows(init), blocks[|blocks| - 1], start, start + |blocks[i]|);
    } else {
      assert blocks[..i] == init;
    }
  }

  lemma SliceOfPrefix(a: seq<string>, b: seq<string>, i: nat, j: nat)
    requires i <= j <= |a|
    ensures (a + b)[i..j] == a[i..j]
  {
  }

  lemma SliceOfSuffix(a: seq<string>, b: seq<string>, i: nat, j: nat)
    requires i <= j <= |b|
    ensures (a + b)[|a| + i..|a| + j] == b[i..j]
  {
  }

  lemma SliceOfSlice(s: seq<string>, a: nat, b: nat, i: nat, j: nat)
    requires a <= b <= |s| && i <= j <= b - a
    ensures s[a..b][i..j] == s[a + i..a + j]
  {
    var t := s[a..b];
    assert |t[i..j]| == |s[a + i..a + j]|;
    assert forall k :: 0 <= k < j - i ==> t[i..j][k] == t[i + k] == s[a + i + k] == s[a + i..a + j][k];
  }

  function Max(a: int, b: int): int { if a < b then b else a }

  function Min(a: int, b: int): int { if a < b then a else b }

  /** The first row shown, of `total` rows in a window of `room`, for a block at `start` of `length` rows. */
  function Offset(start: nat, length: nat, total: nat, room: nat): nat {
    Max(0, Min(start, Min(start + length - room, Max(0, total - room))))
  }

  /** The window wastes no row, and shows the whole block if it fits, otherwise the block from its first row. */
  lemma WindowShowsBlock(start: nat, length: nat, total: nat, room: nat)
    requires start + length <= total && room >= 1
    ensures var offset := Offset(start, length, total, room);
            && offset <= start
            && (if length <= room then start + length <= offset + room else offset == start)
            && (total <= room ==> offset == 0)
            && (total >= room ==> offset + room <= total)
  {
  }

  /**
   The layout of lines: how a text is fitted to a width, and the rows of an occurrence, of which there is at least one.
   */
  datatype Layout = Layout(fit: (string, nat) -> string, block: (Snapshot, string, nat, bool, bool) -> seq<string>,
                           title: Snapshot -> string, failure: Snapshot -> string, control: ControlAck -> string,
                           help: string)

  /** The rows above the occurrences: the failure, and the last three controls in the order of their table. */
  function Prefix(layout: Layout, s: Snapshot, width: nat): seq<string> {
    (if s.failure.Some? && s.failure.value != "" then [layout.fit(layout.failure(s), width)] else [])
    + ControlRows(layout, LastThree(s.controlAcks.order), s.controlAcks.at, width)
  }

  function LastThree(order: seq<string>): (r: seq<string>)
    ensures forall id :: id in r ==> id in order
  {
    if |order| <= 3 then order else order[|order| - 3..]
  }

  function ControlRows(layout: Layout, ids: seq<string>, acks: map<string, ControlAck>, width: nat): (r: seq<string>)
    requires forall id :: id in ids ==> id in acks
    ensures |r| == |ids|
  {
    seq(|ids|, i requires 0 <= i < |ids| => assert ids[i] in ids; layout.fit(layout.control(acks[ids[i]]), width))
  }

  function BlocksOf(layout: Layout, s: Snapshot, ids: seq<string>, width: nat, selected: Option<string>,
                    collapsed: set<string>): (r: seq<seq<string>>)
    ensures |r| == |ids|
    ensures forall i :: 0 <= i < |ids| ==>
              r[i] == layout.block(s, ids[i], width, Some(ids[i]) == selected, ids[i] in collapsed)
  {
    seq(|ids|, i requires 0 <= i < |ids| => layout.block(s, ids[i], width, Some(ids[i]) == selected,
                                                         ids[i] in collapsed))
  }

  // ---- The selection ----

  function IndexOf(s: seq<string>, x: string): (i: int)
    ensures x in s ==> 0 <= i < |s| && s[i] == x && x !in s[..i]
    ensures x !in s ==> i == -1
  {
    if s == [] then -1
    else if s[0] == x then 0
    else
      var i := IndexOf(s[1..], x);
      if i < 0 then -1
      else
        assert s[..i + 1] == [s[0]] + s[1..][..i];
        i + 1
  }

  class MonitorModel {
    var snapshot: Snapshot
    var selectedId: Option<string>
    var collapsed: set<string>

    /** Something is selected exactly when something is listed, and what is selected is listed. */
    ghost predicate Valid()
      reads this
    {
      var ids := OccurrenceIds(snapshot);
      if selectedId.Some? then selectedId.value in ids else ids == []
    }

    constructor (initial: Snapshot)
      ensures Valid() && snapshot == initial && collapsed == {}
      ensures OccurrenceIds(initial) != [] ==> selectedId == Some(OccurrenceIds(initial)[0])
    {
      var ids := OccurrenceIds(initial);
      snapshot, collapsed := initial, {};
      selectedId := if ids == [] then None else Some(ids[0]);
    }

    /** The selection survives an update while it is still listed. */
    method Update(next: Snapshot)
      requires Valid()
      modifies this`snapshot, this`selectedId
      ensures Valid() && snapshot == next
      ensures selectedId
              == if old(selectedId).Some? && old(selectedId).value in OccurrenceIds(next) then old(selectedId)
                 else if OccurrenceIds(next) == [] then None else Some(OccurrenceIds(next)[0])
    {
      snapshot := next;
      var ids := OccurrenceIds(next);
      if selectedId.None? || selectedId.value !in ids { selectedId := if ids == [] then None else Some(ids[0]); }
    }

    /** Move by a number of places, stopping at both ends. */
    method Move(delta: int)
      requires Valid()
      modifies this`selectedId
      ensures Valid()
      ensures var ids := OccurrenceIds(snapshot);
              ids != [] ==> selectedId == Some(ids[Max(0, Min(|ids| - 1, IndexOf(ids, old(selectedId).value) + delta))])
    {
      var ids := OccurrenceIds(snapshot);
      if ids == [] { return; }
      var current := Max(0, IndexOf(ids, selectedId.value));
      selectedId := Some(ids[Max(0, Min(|ids| - 1, current + delta))]);
    }

    method Toggle()
      requires Valid()
      modifies this`collapsed
      ensures Valid()
      ensures collapsed == if selectedId.None? then old(collapsed)
                           else if selectedId.value in old(collapsed) then old(collapsed) - {selectedId.value}
                           else old(collapsed) + {selectedId.value}
    {
      if selectedId.None? { return; }
      collapsed := if selectedId.value in collapsed then collapsed - {selectedId.value}
                   else collapsed + {selectedId.value};
    }

    /** The rows of the monitor: a header, a window of the rows, and a footer; the selected block is in the window. */
    method Render(layout: Layout, width: int, height: int) returns (rows: seq<string>)
      requires Valid()
      ensures var w, room := Max(20, width), Max(1, height - 2);
              var ids := OccurrenceIds(snapshot);
              var all := Prefix(layout, snapshot, w) + Rows(BlocksOf(layout, snapshot, ids, w, selectedId, collapsed));
              && |rows| == Min(room, |all|) + 2
              && rows[0] == layout.fit(layout.title(snapshot), w) && rows[|rows| - 1] == layout.fit(layout.help, w)
              && (exists offset: nat :: Shows(all, rows, offset))
      ensures selectedId.Some? ==>
                var block := layout.block(snapshot, selectedId.value, Max(20, width), true,
                                          selectedId.value in collapsed);
                if |block| <= Max(1, height - 2) then exists p: nat :: ShownAt(rows, block, p)
                else rows[1..|rows| - 1] == block[..Max(1, height - 2)]
    {
      var w := Max(20, width);
      var ids := OccurrenceIds(snapshot);
      var prefix := Prefix(layout, snapshot, w);
      var blocks := BlocksOf(layout, snapshot, ids, w, selectedId, collapsed);
      var selectedIndex := Max(0, if selectedId.Some? then IndexOf(ids, selectedId.value) else -1);
      var window := Viewport(prefix, blocks, selectedIndex, Max(1, height - 2));
      rows := [layout.fit(layout.title(snapshot), w)] + window + [layout.fit(layout.help, w)];
      assert rows[1..|rows| - 1] == window;
      WindowInRows(prefix + Rows(blocks), rows, window);
      if selectedId.Some? { BlockInRows(rows, window, blocks[selectedIndex], Max(1, height - 2)); }
    }
  }

  /** The rows in view: the block of the selection starts after the prefix and the blocks before it. */
  method Viewport(prefix: seq<string>, blocks: seq<seq<string>>, selectedIndex: nat,
                  room: nat) returns (window: seq<string>)
    requires room >= 1 && (selectedIndex < |blocks| || selectedIndex == 0)
    ensures |window| == Min(room, |prefix + Rows(blocks)|)
    ensures exists offset: nat :: InWindow(prefix + Rows(blocks), window, offset)
    ensures selectedIndex < |blocks| ==> InView(window, blocks[selectedIndex], room)
  {
    var start := |prefix|;
    var index := 0;
    while index < selectedIndex
      invariant 0 <= index <= selectedIndex <= |blocks|
      invariant start == |prefix| + |Rows(blocks[..index])|
    {
      assert blocks[..index + 1][..index] == blocks[..index];
      start := start + |blocks[index]|;
      index := index + 1;
    }
    var length := if selectedIndex < |blocks| then |blocks[selectedIndex]| else 0;
    var all := prefix + Rows(blocks);
    if selectedIndex < |blocks| {
      RowsOf(blocks, selectedIndex);
      SliceOfSuffix(prefix, Rows(blocks), start - |prefix|, start - |prefix| + length);
    }
    var offset := Offset(start, length, |all|, room);
    WindowShowsBlock(start, length, |all|, room);
    window := all[offset..Min(offset + room, |all|)];
    assert InWindow(all, window, offset);
    ViewOfWindow(all, window, offset, start, length, room);
  }

  predicate InWindow(all: seq<string>, window: seq<string>, offset: nat) {
    offset + |window| <= |all| && window == all[offset..offset + |window|]
  }

  /** A block that fits is in the window whole; otherwise the window is the block's first rows. */
  ghost predicate InView(window: seq<string>, block: seq<string>, room: nat) {
    if |block| <= room then exists p: nat :: PlacedAt(window, block, p) else window == block[..room]
  }

  predicate PlacedAt(window: seq<string>, block: seq<string>, p: nat) {
    p + |block| <= |window| && window[p..p + |block|] == block
  }

  /** The rows between header and footer are a stretch of all rows. */
  predicate Shows(all: seq<string>, rows: seq<string>, offset: nat) {
    |rows| >= 2 && offset + |rows| - 2 <= |all| && rows[1..|rows| - 1] == all[offset..offset + |rows| - 2]
  }

  /** A block appears whole between header and footer. */
  predicate ShownAt(rows: seq<string>, block: seq<string>, p: nat) {
    1 <= p && p + |block| <= |rows| - 1 && rows[p..p + |block|] == block
  }

  lemma ViewOfWindow(all: seq<string>, window: seq<string>, offset: nat, start: nat, length: nat, room: nat)
    requires room >= 1 && start + length <= |all| && offset == Offset(start, length, |all|, room)
    requires window == all[offset..Min(offset + room, |all|)]
    ensures InView(window, all[start..start + length], room)
  {
    WindowShowsBlock(start, length, |all|, room);
    hide Offset;
    if length <= room {
      SliceOfSlice(all, offset, Min(offset + room, |all|), start - offset, start - offset + length);
      assert PlacedAt(window, all[start..start + length], start - offset);
    } else {
      SliceOfSlice(all, start, start + length, 0, room);
    }
  }

  lemma WindowInRows(all: seq<string>, rows: seq<string>, window: seq<string>)
    requires |rows| == |window| + 2 && rows[1..|rows| - 1] == window
             && exists offset: nat :: InWindow(all, window, offset)
    ensures exists offset: nat :: Shows(all, rows, offset)
  {
    var offset: nat :| InWindow(all, window, offset);
    assert Shows(all, rows, offset);
  }

  lemma BlockInRows(rows: seq<string>, window: seq<string>, block: seq<string>, room: nat)
    requires |rows| == |window| + 2 && rows[1..|rows| - 1] == window && InView(window, block, room)
    ensures if |block| <= room then exists p: nat :: ShownAt(rows, block, p) else rows[1..|rows| - 1] == block[..room]
  {
    if |block| <= room {
      var p: nat :| PlacedAt(window, block, p);
      SliceOfSlice(rows, 1, |rows| - 1, p, p + |block|);
      assert ShownAt(rows, block, p + 1);
    }
  }
}
