/** Which stored runs a restore prunes (`RunSupervisor.restore` and `isPrunable` of ext-pi/src/supervisor.ts). */
module Retention {
  import opened Prelude
  import opened Snapshots

  datatype Record = Record(runId: string, created: int, parentRunId: Option<string>, status: RunStatus)

  /** The policy: no cutoff when age pruning is off, and no count pruning when `maxRuns` is zero. */
  datatype Policy = Policy(cutoff: Option<int>, maxRuns: nat)

  /** Records come from distinct directories, named by their run ids, and have been sorted by age. */
  ghost predicate SortedRecords(records: seq<Record>) {
    && (forall i, j :: 0 <= i < j < |records| ==> records[i].created <= records[j].created)
    && (forall i, j :: 0 <= i < j < |records| ==> records[i].runId != records[j].runId)
  }

  function ParentsOf(records: seq<Record>): set<string> {
    set r | r in records && r.parentRunId.Some? :: r.parentRunId.value
  }

  predicate IsPrunable(r: Record, protectedParents: set<string>) {
    !r.status.Orphaned? && IsTerminal(r.status) && r.runId !in protectedParents
  }

  predicate IsAged(r: Record, policy: Policy) {
    policy.cutoff.Some? && r.created < policy.cutoff.value
  }

  /** The prunable records, oldest first. */
  function Prunables(records: seq<Record>, parents: set<string>): seq<Record> {
    if records == [] then []
    else
      var init, last := records[..|records| - 1], records[|records| - 1];
      Prunables(init, parents) + if IsPrunable(last, parents) then [last] else []
  }

  function AgedCount(candidates: seq<Record>, policy: Policy): nat {
    if candidates == [] then 0
    else
      AgedCount(candidates[..|candidates| - 1], policy)
      + if IsAged(candidates[|candidates| - 1], policy) then 1 else 0
  }

  function Excess(total: nat, candidates: nat, policy: Policy): nat {
    if policy.maxRuns == 0 || total <= policy.maxRuns then 0
    else if total - policy.maxRuns < candidates then total - policy.maxRuns
    else candidates
  }

  function Max(a: nat, b: nat): nat { if a < b then b else a }

  /** How many of the oldest prunable records are removed. */
  function PruneCount(records: seq<Record>, policy: Policy): nat {
    var candidates := Prunables(records, ParentsOf(records));
    Max(AgedCount(candidates, policy), Excess(|records|, |candidates|, policy))
  }

  ghost function IdsOf(candidates: seq<Record>, n: int): set<string> {
    set i | 0 <= i < n && i < |candidates| :: candidates[i].runId
  }

  /**
   Removing the oldest n candidates satisfies the policy: none past the cutoff is kept, and the count is met or no
   candidate is left.
   */
  ghost predicate Sufficient(records: seq<Record>, policy: Policy, n: nat) {
    var candidates := Prunables(records, ParentsOf(records));
    && n <= |candidates|
    && (forall i :: n <= i < |candidates| ==> !IsAged(candidates[i], policy))
    && (policy.maxRuns > 0 ==> |records| - n <= policy.maxRuns || n == |candidates|)
  }

  // ---- Facts about the candidates ----

  lemma {:induction false} PrunablesFacts(records: seq<Record>, parents: set<string>)
    requires SortedRecords(records)
    ensures var p := Prunables(records, parents);
            && |p| <= |records|
            && SortedRecords(p)
            && (forall r :: r in p <==> r in records && IsPrunable(r, parents))
  {
    hide IsPrunable;
    if records != [] {
      PrunablesFacts(records[..|records| - 1], parents);
      var p := Prunables(records[..|records| - 1], parents);
      forall i | 0 <= i < |p|
        ensures p[i].created <= records[|records| - 1].created && p[i].runId != records[|records| - 1].runId
      {
        assert p[i] in records[..|records| - 1];
        var j :| 0 <= j < |records| - 1 && records[j] == p[i];
      }
    }
  }

  lemma {:induction false} PrunablesPrefix(records: seq<Record>, parents: set<string>, i: nat)
    requires i <= |records|
    ensures Prunables(records[..i], parents) <= Prunables(records, parents)
    decreases |records|
  {
    if i < |records| {
      PrunablesPrefix(records[..|records| - 1], parents, i);
      assert records[..|records| - 1][..i] == records[..i];
    } else {
      assert records[..i] == records;
    }
  }

  /** Sorted candidates past the cutoff come first. */
  lemma {:induction false} AgedComeFirst(candidates: seq<Record>, policy: Policy)
    requires SortedRecords(candidates)
    ensures AgedCount(candidates, policy) <= |candidates|
    ensures forall i :: 0 <= i < |candidates| ==> (IsAged(candidates[i], policy) <==> i < AgedCount(candidates, policy))
  {
    if candidates != [] { AgedComeFirst(candidates[..|candidates| - 1], policy); }
  }

  lemma {:induction false} IdsSize(candidates: seq<Record>, n: nat)
    requires SortedRecords(candidates) && n <= |candidates|
    ensures |IdsOf(candidates, n)| == n
  {
    if n == 0 {
      assert IdsOf(candidates, 0) == {};
    } else {
      IdsSize(candidates, n - 1);
      assert IdsOf(candidates, n) == IdsOf(candidates, n - 1) + {candidates[n - 1].runId};
    }
  }

  // ---- The two passes ----

  /** Remove every aged candidate, then the oldest of the rest while too many records are kept. */
  method Prune(records: seq<Record>, policy: Policy) returns (remove: set<string>)
    requires SortedRecords(records)
    ensures remove == IdsOf(Prunables(records, ParentsOf(records)), PruneCount(records, policy))
  {
    var parents := ParentsOf(records);
    PrunablesFacts(records, parents);
    AgedComeFirst(Prunables(records, parents), policy);
    remove := RemoveAged(records, parents, policy);
    if policy.maxRuns > 0 {
      remove := RemoveOldest(records, parents, policy, remove, AgedCount(Prunables(records, parents), policy));
    }
  }

  /** The second pass: it stops as soon as few enough records are kept. */
  method RemoveOldest(records: seq<Record>, parents: set<string>, policy: Policy, marked: set<string>,
                      ghost aged: nat) returns (remove: set<string>)
    requires SortedRecords(records) && policy.maxRuns > 0 && parents == ParentsOf(records)
    requires aged == AgedCount(Prunables(records, parents), policy) <= |Prunables(records, parents)|
    requires marked == IdsOf(Prunables(records, parents), aged)
    ensures remove == IdsOf(Prunables(records, parents), PruneCount(records, policy))
  {
    hide IsPrunable, IdsOf, AgedCount, ParentsOf;
    ghost var p := Prunables(records, parents);
    PrunablesFacts(records, parents);
    remove := marked;
    ghost var seen := 0;
    for i := 0 to |records|
      invariant seen == |Prunables(records[..i], parents)| <= |p|
      invariant remove == IdsOf(p, Max(aged, seen))
      invariant seen > aged ==> seen <= |records| - policy.maxRuns
    {
      IdsSize(p, Max(aged, seen));
      if |records| - |remove| <= policy.maxRuns { return; }
      PrunablesPrefix(records, parents, i + 1);
      assert records[..i + 1][..i] == records[..i];
      if IsPrunable(records[i], parents) {
        assert p[seen] == records[i];
        AddCandidate(p, seen, Max(aged, seen));
        remove := remove + {records[i].runId};
        seen := seen + 1;
      }
    }
    assert records[..|records|] == records;
  }

  /** Adding candidate k to at least the first k changes nothing but the first k + 1. */
  lemma AddCandidate(p: seq<Record>, k: nat, n: nat)
    requires k < |p| && k <= n <= |p|
    ensures IdsOf(p, n) + {p[k].runId} == IdsOf(p, Max(n, k + 1))
  {
  }

  method RemoveAged(records: seq<Record>, parents: set<string>, policy: Policy) returns (remove: set<string>)
    requires SortedRecords(records)
    ensures remove == IdsOf(Prunables(records, parents), AgedCount(Prunables(records, parents), policy))
  {
    ghost var p := Prunables(records, parents);
    PrunablesFacts(records, parents);
    AgedComeFirst(p, policy);
    ghost var aged := AgedCount(p, policy);
    remove := {};
    ghost var seen := 0;
    for i := 0 to |records|
      invariant seen == |Prunables(records[..i], parents)| <= |p|
      invariant remove == IdsOf(p, if seen < aged then seen else aged)
    {
      PrunablesPrefix(records, parents, i + 1);
      assert records[..i + 1][..i] == records[..i];
      if IsPrunable(records[i], parents) {
        assert p[seen] == records[i];
        if IsAged(records[i], policy) {
          AddCandidate(p, seen, seen);
          remove := remove + {records[i].runId};
        }
        seen := seen + 1;
      }
    }
    assert records[..|records|] == records;
  }

  // ---- What the count means ----

  /** The pruned prefix is the shortest one that satisfies the policy. */
  lemma PruneIsLeast(records: seq<Record>, policy: Policy, n: nat)
    requires SortedRecords(records) && n <= |Prunables(records, ParentsOf(records))|
    ensures Sufficient(records, policy, n) <==> PruneCount(records, policy) <= n
  {
    var p := Prunables(records, ParentsOf(records));
    PrunablesFacts(records, ParentsOf(records));
    AgedComeFirst(p, policy);
    var aged := AgedCount(p, policy);
    if n < aged {
      assert IsAged(p[n], policy);
    }
  }

  /** No orphaned or unfinished run and no parent of a recorded run is removed. */
  lemma PruneKeeps(records: seq<Record>, policy: Policy, r: Record)
    requires SortedRecords(records) && r in records
    requires r.status.Orphaned? || !IsTerminal(r.status)
             || (exists child :: child in records && child.parentRunId == Some(r.runId))
    ensures r.runId !in IdsOf(Prunables(records, ParentsOf(records)), PruneCount(records, policy))
  {
    var p := Prunables(records, ParentsOf(records));
    PrunablesFacts(records, ParentsOf(records));
    forall i | 0 <= i < |p|
      ensures p[i].runId != r.runId
    {
      assert p[i] in p && p[i] in records;
      SameRunSameRecord(records, p[i], r);
    }
  }

  /** Whether a run may be pruned at all: it has ended, its outcome is known, and no recorded run goes back to it. */
  ghost predicate MayGo(records: seq<Record>, r: Record) {
    && r.status in {Succeeded, Failed, Cancelled}
    && forall child :: child in records ==> child.parentRunId != Some(r.runId)
  }

  lemma PrunableExactly(records: seq<Record>, r: Record)
    ensures IsPrunable(r, ParentsOf(records)) <==> MayGo(records, r)
  {
    if r.runId in ParentsOf(records) {
      var child :| child in records && child.parentRunId.Some? && child.parentRunId.value == r.runId;
    }
    forall child | child in records && child.parentRunId == Some(r.runId)
      ensures r.runId in ParentsOf(records)
    {
    }
  }

  /**
   What is removed, record by record. Only runs that may go; each of them from before the cutoff; another one only while
   more runs than the policy allows would be kept; and one that is kept although it may go is not past the cutoff,
   leaves no more runs than allowed, and is not older than any that is removed.
   */
  lemma PruneExactly(records: seq<Record>, policy: Policy, r: Record)
    requires SortedRecords(records) && r in records
    ensures var removed := IdsOf(Prunables(records, ParentsOf(records)), PruneCount(records, policy));
            var aged := policy.cutoff.Some? && r.created < policy.cutoff.value;
            && (r.runId in removed ==>
                  MayGo(records, r) && (aged || (policy.maxRuns > 0 && |records| - |removed| >= policy.maxRuns)))
            && (r.runId !in removed && MayGo(records, r) ==>
                  && !aged && (policy.maxRuns > 0 ==> |records| - |removed| <= policy.maxRuns)
                  && forall other :: other in records && other.runId in removed ==> other.created <= r.created)
  {
    hide IsAged, Prunables, ParentsOf, IsPrunable;
    var parents := ParentsOf(records);
    var p, n := Prunables(records, parents), PruneCount(records, policy);
    PrunablesFacts(records, parents);
    AgedComeFirst(p, policy);
    IdsSize(p, n);
    PrunableExactly(records, r);
    AgedIs(r, policy);
    var removed := IdsOf(p, n);
    hide IdsOf, SortedRecords;
    if r.runId in removed {
      var i := RemovedIs(records, p, n, r);
      assert IsAged(p[i], policy) <==> i < AgedCount(p, policy);
    } else if MayGo(records, r) {
      var i :| 0 <= i < |p| && p[i] == r;
      IdOf(p, n, i);
      assert IsAged(p[i], policy) <==> i < AgedCount(p, policy);
      forall other | other in records && other.runId in removed
        ensures other.created <= r.created
      {
        var j := RemovedIs(records, p, n, other);
        InOrder(p, j, i);
      }
    }
  }

  lemma RemovedIs(records: seq<Record>, p: seq<Record>, n: nat, r: Record) returns (i: nat)
    requires SortedRecords(records) && r in records && n <= |p| && (forall q :: q in p ==> q in records)
    requires r.runId in IdsOf(p, n)
    ensures i < n && p[i] == r
  {
    i :| 0 <= i < n && p[i].runId == r.runId;
    assert p[i] in p;
    SameRunSameRecord(records, p[i], r);
  }

  lemma IdOf(p: seq<Record>, n: nat, i: nat)
    requires i < |p| && n <= |p|
    ensures i < n ==> p[i].runId in IdsOf(p, n)
  {
  }

  lemma InOrder(p: seq<Record>, j: nat, i: nat)
    requires SortedRecords(p) && j <= i < |p|
    ensures p[j].created <= p[i].created
  {
  }

  lemma AgedIs(r: Record, policy: Policy)
    ensures IsAged(r, policy) <==> policy.cutoff.Some? && r.created < policy.cutoff.value
  {
  }

  lemma SameRunSameRecord(records: seq<Record>, a: Record, b: Record)
    requires SortedRecords(records) && a in records && b in records
    ensures a.runId == b.runId ==> a == b
  {
  }
}
