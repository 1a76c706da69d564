/** Which entries of `SEGMENTING` are left behind, and when. */
module SegmentingEntries {
  import opened SegmentingLock
  import opened SegmentingInvariant

  /** Two requests have tested the count of one lock and neither has dropped its handle. */
  ghost predicate ReleasesOverlap(s: State) {
    exists r, q, l ::
      r != q && PendingDrop(s, r, l) && PendingDrop(s, q, l)
  }

  ghost predicate PendingDrop(s: State, r: RequestId, l: LockId) {
    r in s.requests && s.requests[r].pc.Released? && Links(s.locks.handles, r, l)
  }

  /** `r` will still test `p`'s entry. */
  predicate WillTest(requests: Requests, p: Path, r: RequestId) {
    r in requests && NotReleased(requests[r].pc) && requests[r].path == p
  }

  ghost predicate NothingLeftBehind(s: State) {
    forall p :: p in s.locks.segmenting ==> exists r :: WillTest(s.requests, p, r)
  }

  predicate AllFinished(requests: Requests) {
    forall r :: r in requests ==> requests[r].pc.Finished?
  }

  lemma StepLeavesNothing(s: State, step: Step, t: State)
    requires Inv(s) && Inv(t) && Takes(s, step, t) && NothingLeftBehind(s) && !ReleasesOverlap(t)
    ensures NothingLeftBehind(t)
  {
    forall p | p in t.locks.segmenting
      ensures exists r :: WillTest(t.requests, p, r)
    {
      var r := step.r;
      if step.Clone? && p == t.requests[r].path {
        assert WillTest(t.requests, p, r);
      } else if step.Release? && p == t.requests[r].path {
        ReleaseLeavesNothing(s, r, t);
      } else {
        OldEntry(s, step, t, p);
      }
    }
  }

  lemma OldEntry(s: State, step: Step, t: State, p: Path)
    requires Takes(s, step, t) && NothingLeftBehind(s) && p in t.locks.segmenting
    requires p == t.requests[step.r].path ==> !step.Clone? && !step.Release?
    ensures exists r :: WillTest(t.requests, p, r)
  {
    assert p in s.locks.segmenting;
    var q :| WillTest(s.requests, p, q);
    assert WillTest(t.requests, p, q);
  }

  lemma ReleaseLeavesNothing(s: State, r: RequestId, t: State)
    requires Inv(s) && Takes(s, Release(r), t) && !ReleasesOverlap(t) && s.requests[r].path in t.locks.segmenting
    ensures exists q :: WillTest(t.requests, s.requests[r].path, q)
  {
    var k, l := s.locks, s.locks.handles[r];
    SmallCountMeansAlone(s.requests, k, r);
    assert r in Referrers(k.handles, l);
    var q :| q in Referrers(k.handles, l) && q != r;
    assert PendingDrop(t, r, l) && !PendingDrop(t, q, l);
    assert WillTest(t.requests, s.requests[r].path, q);
  }

  /** If no two releases of one lock ever overlapped, every entry still has a request that will test it. */
  lemma {:induction false} NoOverlapNothingLeft(run: seq<State>, i: nat)
    requires IsRun(run) && i < |run|
    requires forall j :: 0 <= j <= i ==> !ReleasesOverlap(run[j])
    ensures NothingLeftBehind(run[i])
  {
    hide Takes, Inv, ReleasesOverlap;
    if i > 0 {
      NoOverlapNothingLeft(run, i - 1);
      var step := StepOfRun(run, i - 1);
      RunInv(run, i - 1);
      RunInv(run, i);
      StepLeavesNothing(run[i - 1], step, run[i]);
    }
  }

  /** In particular the map is empty once every request has finished. */
  lemma NoOverlapMapEmpties(run: seq<State>, i: nat)
    requires IsRun(run) && i < |run|
    requires forall j :: 0 <= j <= i ==> !ReleasesOverlap(run[j])
    requires AllFinished(run[i].requests)
    ensures run[i].locks.segmenting == map[]
  {
    NoOverlapNothingLeft(run, i);
    assert forall p :: p !in run[i].locks.segmenting;
  }

  /** ... and when the releases of the last two holders do overlap, the entry stays with nobody left to
      remove it: the map's guard is dropped before the handle. */
  lemma OverlapLeavesEntry(s: State, r: RequestId, q: RequestId, t1: State, t2: State, t3: State, t4: State)
    requires Inv(s) && r != q && r in s.requests && q in s.requests && s.requests[r].path == s.requests[q].path
    requires s.requests[r].pc.Unlocked? && s.requests[q].pc.Unlocked?
    requires forall o :: Links(s.locks.handles, o, s.locks.handles[r]) ==> o == r || o == q
    requires Takes(s, Release(r), t1) && Takes(t1, Release(q), t2) && Takes(t2, Drop(r), t3) && Takes(t3, Drop(q), t4)
    ensures Links(t4.locks.segmenting, s.requests[r].path, s.locks.handles[r])
    ensures forall o :: !Links(t4.locks.handles, o, s.locks.handles[r])
  {
    var l := s.locks.handles[r];
    BothHold(s, r, q);
    TwoHoldersKeep(s.requests, s.locks, r, q);
    TwoHoldersKeep(s.requests, s.locks, q, r);
    hide Inv, TestAndForget, Takes;
    ReleaseTakes(s, r, t1);
    ReleaseTakes(t1, q, t2);
    DropTakes(t2, r, t3);
    DropTakes(t3, q, t4);
    forall o ensures !Links(t4.locks.handles, o, l) {
      assert Links(s.locks.handles, o, l) ==> o == r || o == q;
    }
  }

  lemma ReleaseTakes(s: State, r: RequestId, t: State)
    requires Takes(s, Release(r), t)
    ensures r in s.locks.handles && t.locks == TestAndForget(s.locks, r, s.requests[r].path)
    ensures forall o <- s.requests :: o in t.requests && t.requests[o].path == s.requests[o].path
  {
    hide TestAndForget;
  }

  lemma DropTakes(s: State, r: RequestId, t: State)
    requires Takes(s, Drop(r), t)
    ensures t.locks.handles == s.locks.handles - {r} && t.locks.segmenting == s.locks.segmenting
  {
  }

  lemma BothHold(s: State, r: RequestId, q: RequestId)
    requires Inv(s) && r in s.requests && q in s.requests && s.requests[r].path == s.requests[q].path
    requires s.requests[r].pc.Unlocked? && s.requests[q].pc.Unlocked?
    ensures r in s.locks.handles && q in s.locks.handles && s.locks.handles[q] == s.locks.handles[r]
    ensures Links(s.locks.segmenting, s.requests[r].path, s.locks.handles[r])
    ensures Links(s.locks.handles, q, s.locks.handles[r]) && Links(s.locks.handles, r, s.locks.handles[q])
    ensures CountsInv(s.locks) && MapInv(s.requests, s.locks.handles, s.locks.segmenting)
  {
    hide CountsInv, OwnersInv, DirsInv, BalanceInv, ServedInv, HandlesInv;
    assert NotReleased(s.requests[r].pc) && NotReleased(s.requests[q].pc);
  }

  // ----- Exactly which entries are left -----

  /** The run with the actions that make it up. */
  ghost predicate IsTrace(run: seq<State>, steps: seq<Step>) {
    && IsRun(run) && |steps| == |run| - 1
    && forall i :: 0 <= i < |steps| ==> Takes(run[i], steps[i], run[i + 1])
  }

  predicate ClonesFor(s: State, step: Step, p: Path) {
    step.Clone? && step.r in s.requests && s.requests[step.r].path == p
  }

  predicate ReleasesFor(s: State, step: Step, p: Path) {
    step.Release? && step.r in s.requests && s.requests[step.r].path == p
  }

  /** Another request has a handle on `r`'s lock, be it only to drop it. */
  ghost predicate FindsAnother(s: State, r: RequestId) {
    r in s.locks.handles && exists q :: q != r && Links(s.locks.handles, q, s.locks.handles[r])
  }

  /** The last release for `p` among the first `i` actions found another handle, or a clone came after it. */
  ghost predicate LastLeavesEntry(run: seq<State>, steps: seq<Step>, i: nat, p: Path)
    requires i < |run| && |steps| == |run| - 1
  {
    i > 0 &&
    if ClonesFor(run[i - 1], steps[i - 1], p) then true
    else if ReleasesFor(run[i - 1], steps[i - 1], p) then FindsAnother(run[i - 1], steps[i - 1].r)
    else LastLeavesEntry(run, steps, i - 1, p)
  }

  lemma ReleaseEntry(s: State, r: RequestId, t: State)
    requires CountsInv(s.locks) && MapInv(s.requests, s.locks.handles, s.locks.segmenting)
    requires Takes(s, Release(r), t)
    ensures s.requests[r].path in t.locks.segmenting <==> FindsAnother(s, r)
  {
    var k := s.locks;
    SmallCountMeansAlone(s.requests, k, r);
    assert k.handles[r] in k.counts && s.requests[r].path in k.segmenting;
    assert t.locks == TestAndForget(k, r, s.requests[r].path);
    hide Takes, CountsInv, MapInv;
    assert forall q :: q in Referrers(k.handles, k.handles[r]) <==> Links(k.handles, q, k.handles[r]);
    assert r in Referrers(k.handles, k.handles[r]);
    assert Referrers(k.handles, k.handles[r]) == {r}
      <==> forall q :: q in Referrers(k.handles, k.handles[r]) ==> q == r;
  }

  lemma OtherEntry(s: State, step: Step, t: State, p: Path)
    requires Takes(s, step, t) && !ReleasesFor(s, step, p)
    ensures p in t.locks.segmenting <==> ClonesFor(s, step, p) || p in s.locks.segmenting
  {
  }

  /** In every state of every run, the map has an entry exactly if the last release for it found another handle, or
      a clone came after that release. */
  lemma {:induction false} EntryIff(run: seq<State>, steps: seq<Step>, i: nat, p: Path)
    requires IsTrace(run, steps) && i < |run|
    ensures p in run[i].locks.segmenting <==> LastLeavesEntry(run, steps, i, p)
  {
    hide Takes, FindsAnother;
    if i > 0 {
      EntryIff(run, steps, i - 1, p);
      RunInv(run, i - 1);
      var s, step := run[i - 1], steps[i - 1];
      assert CountsInv(s.locks) && MapInv(s.requests, s.locks.handles, s.locks.segmenting);
      hide Inv;
      if ReleasesFor(s, step, p) {
        ReleaseEntry(s, step.r, run[i]);
      } else {
        OtherEntry(s, step, run[i], p);
      }
    }
  }

  /** Who has cloned a handle releases it before finishing. */
  lemma {:induction false} CloneIsReleased(run: seq<State>, steps: seq<Step>, j: nat, i: nat, r: RequestId)
    requires IsTrace(run, steps) && j < i < |run| && steps[j].Clone? && steps[j].r == r
    requires forall m :: j < m < i ==> steps[m] != Release(r)
    ensures r in run[j].requests && r in run[i].requests && run[i].requests[r].path == run[j].requests[r].path
    ensures NotReleased(run[i].requests[r].pc)
  {
    assert Takes(run[i - 1], steps[i - 1], run[i]);
    if j < i - 1 {
      CloneIsReleased(run, steps, j, i - 1, r);
      StaysUnreleased(run[i - 1], steps[i - 1], run[i], r);
    }
  }

  lemma StaysUnreleased(s: State, step: Step, t: State, r: RequestId)
    requires Takes(s, step, t) && step != Release(r) && r in s.requests && NotReleased(s.requests[r].pc)
    ensures r in t.requests && t.requests[r].path == s.requests[r].path && NotReleased(t.requests[r].pc)
  {
  }

  predicate Concerns(s: State, step: Step, p: Path) {
    ClonesFor(s, step, p) || ReleasesFor(s, step, p)
  }

  lemma {:induction false} LastConcern(run: seq<State>, steps: seq<Step>, i: nat, p: Path) returns (j: int)
    requires i < |run| && |steps| == |run| - 1
    ensures -1 <= j < i && forall k :: j < k < i ==> !Concerns(run[k], steps[k], p)
    ensures j >= 0 ==> Concerns(run[j], steps[j], p)
    ensures LastLeavesEntry(run, steps, i, p) <==>
      j >= 0 && (ClonesFor(run[j], steps[j], p) || FindsAnother(run[j], steps[j].r))
  {
    hide ClonesFor, ReleasesFor, FindsAnother;
    if i == 0 {
      j := -1;
    } else if Concerns(run[i - 1], steps[i - 1], p) {
      j := i - 1;
    } else {
      j := LastConcern(run, steps, i - 1, p);
    }
  }

  /** `steps[j]` is the last release for `p`. */
  ghost predicate IsLastRelease(run: seq<State>, steps: seq<Step>, p: Path, j: nat)
    requires |steps| == |run| - 1
  {
    j < |steps| && ReleasesFor(run[j], steps[j], p) && forall k :: j < k < |steps| ==> !ReleasesFor(run[k], steps[k], p)
  }

  /** Once all requests have finished, an entry is left exactly if the last release for it found another handle, that
      of a request which had tested the count before and not dropped it yet. */
  lemma LeftBehindIff(run: seq<State>, steps: seq<Step>, p: Path)
    requires IsTrace(run, steps) && AllFinished(run[|run| - 1].requests)
    ensures p in run[|run| - 1].locks.segmenting <==>
      exists j: nat :: IsLastRelease(run, steps, p, j) && FindsAnother(run[j], steps[j].r)
  {
    var n := |run| - 1;
    EntryIff(run, steps, n, p);
    var j := LastConcern(run, steps, n, p);
    hide Takes, FindsAnother, LastLeavesEntry, IsTrace, AllFinished, ClonesFor, ReleasesFor;
    forall k | j < k < n ensures !ReleasesFor(run[k], steps[k], p) {
      assert !Concerns(run[k], steps[k], p);
    }
    if j >= 0 && ClonesFor(run[j], steps[j], p) {
      CloneComesBefore(run, steps, p, j);
    } else if j >= 0 {
      assert IsLastRelease(run, steps, p, j);
      assert forall i: nat :: IsLastRelease(run, steps, p, i) ==> i == j;
    }
  }

  lemma CloneComesBefore(run: seq<State>, steps: seq<Step>, p: Path, j: nat)
    requires IsTrace(run, steps) && AllFinished(run[|run| - 1].requests)
    requires j < |steps| && ClonesFor(run[j], steps[j], p)
    ensures exists m :: j < m < |steps| && ReleasesFor(run[m], steps[m], p)
  {
    var r := steps[j].r;
    if forall m :: j < m < |steps| ==> steps[m] != Release(r) {
      CloneIsReleased(run, steps, j, |run| - 1, r);
    } else {
      var m := FirstRelease(run, steps, j, r);
      CloneIsReleased(run, steps, j, m, r);
    }
  }

  lemma FirstRelease(run: seq<State>, steps: seq<Step>, j: nat, r: RequestId) returns (m: nat)
    requires exists m :: j < m < |steps| && steps[m] == Release(r)
    ensures j < m < |steps| && steps[m] == Release(r) && forall k :: j < k < m ==> steps[k] != Release(r)
  {
    m :| j < m < |steps| && steps[m] == Release(r);
    while exists k :: j < k < m && steps[k] == Release(r)
      invariant j < m < |steps| && steps[m] == Release(r)
      decreases m
    {
      var k :| j < k < m && steps[k] == Release(r);
      m := k;
    }
  }
}
