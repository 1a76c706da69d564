/** What the lock protocol promises, over whole runs. */
module SegmentingPromises {
  import opened SegmentingLock
  import opened SegmentingInvariant

  /** At most one request per rendition is inside `segment_exclusively` with the lock. */
  lemma MutualExclusion(run: seq<State>, i: nat, r: RequestId, q: RequestId)
    requires IsRun(run) && i < |run|
    requires Inside(run[i].requests, r) && Inside(run[i].requests, q)
    requires run[i].requests[r].path == run[i].requests[q].path
    ensures r == q
  {
    RunInv(run, i);
    CriticalIsExclusive(run[i], r, q);
  }

  /** The strong count is the map's reference, if any, plus every live handle, released or not. */
  lemma CountIsExact(run: seq<State>, i: nat, l: LockId)
    requires IsRun(run) && i < |run| && l in run[i].locks.counts
    ensures run[i].locks.counts[l]
            == |Referrers(run[i].locks.handles, l)| + if l in run[i].locks.segmenting.Values then 1 else 0
  {
    RunInv(run, i);
    var segmenting := run[i].locks.segmenting;
    if l in segmenting.Values {
      var p: Path :| p in segmenting && segmenting[p] == l;
      assert Referrers(segmenting, l) == {p};
    } else {
      assert Referrers(segmenting, l) == {};
    }
  }

  /** No waiter is orphaned: whoever still needs the entry and whoever clones next share one lock. */
  lemma NewcomersJoin(run: seq<State>, i: nat, r: RequestId, newLock: LockId, q: RequestId)
    requires IsRun(run) && i + 1 < |run| && Takes(run[i], Clone(r, newLock), run[i + 1])
    requires q in run[i].requests && NotReleased(run[i].requests[q].pc)
    requires run[i].requests[q].path == run[i].requests[r].path
    ensures q in run[i].locks.handles
    ensures Links(run[i + 1].locks.handles, q, run[i].locks.handles[q])
    ensures Links(run[i + 1].locks.handles, r, run[i].locks.handles[q])
  {
    RunInv(run, i);
  }

  /** The `<= 2` test, exactly: the entry goes if and only if no other request has a handle on the lock. */
  lemma ReleaseForgetsIff(run: seq<State>, i: nat, r: RequestId)
    requires IsRun(run) && i + 1 < |run| && Takes(run[i], Release(r), run[i + 1])
    ensures run[i].requests[r].path !in run[i + 1].locks.segmenting
            <==> forall q :: q != r ==> !Links(run[i].locks.handles, q, run[i].locks.handles[r])
  {
    RunInv(run, i);
    SmallCountMeansAlone(run[i].requests, run[i].locks, r);
    var k := run[i].locks;
    assert forall q :: q in Referrers(k.handles, k.handles[r]) <==> Links(k.handles, q, k.handles[r]);
    assert r in Referrers(k.handles, k.handles[r]);
    assert Referrers(k.handles, k.handles[r]) == {r}
      <==> forall q :: q in Referrers(k.handles, k.handles[r]) ==> q == r;
  }

  /** Nothing but a release for the same rendition ever takes an entry out of the map. */
  lemma OnlyReleaseForgets(s: State, step: Step, t: State, p: Path)
    requires Takes(s, step, t) && p in s.locks.segmenting && p !in t.locks.segmenting
    ensures step.Release? && s.requests[step.r].path == p
  {
  }

  /** A visible directory is complete, unless an eviction has begun on it since it was renamed into place. */
  lemma NeverHalfMade(run: seq<State>, i: nat, p: Path)
    requires IsRun(run) && i < |run| && Final(p) in run[i].files.dirs
    ensures run[i].files.dirs[Final(p)] == COMPLETE || p in run[i].files.hurt
    ensures p in run[i].files.hurt ==> Tally(run[i].files.evictions, p) > 0
  {
    RunInv(run, i);
    assert Balanced(run[i].files, p);
  }

  /** Renames and begun evictions balance; with no eviction of the rendition, it is renamed at most once. */
  lemma PublishedOncePerEviction(run: seq<State>, i: nat, p: Path)
    requires IsRun(run) && i < |run|
    ensures Tally(run[i].files.renames, p)
         == Tally(run[i].files.evictions, p)
          + if Final(p) in run[i].files.dirs && p !in run[i].files.hurt then 1 else 0
  {
    RunInv(run, i);
    assert Balanced(run[i].files, p);
  }

  /** Thanks to the lock the rename never finds another request's directory in its way: it publishes a complete
      directory exactly unless an eviction has left files behind, and no playlist. */
  lemma RenameSucceedsIff(run: seq<State>, i: nat, r: RequestId, cleaned: bool)
    requires IsRun(run) && i + 1 < |run| && Takes(run[i], Do(r, Rename(cleaned)), run[i + 1])
    ensures var p := run[i].requests[r].path;
      && (At(run[i + 1].requests, r, Published) <==> !IsInTheWay(run[i].files, p))
      && (At(run[i + 1].requests, r, Published) ==>
            Links(run[i + 1].files.dirs, Final(p), COMPLETE) && p !in run[i + 1].files.hurt)
      && (IsInTheWay(run[i].files, p) ==> p in run[i].files.hurt && !PlaylistExists(run[i].files, p))
  {
    RunInv(run, i);
  }

  /** Whoever answers `Ok` does so after the directory was published, and, evictions aside, while it is there. */
  lemma ServedAfterPublished(run: seq<State>, i: nat, r: RequestId)
    requires IsRun(run) && i < |run| && At(run[i].requests, r, Finished(Served))
    ensures exists j :: 0 <= j <= i && Links(run[j].files.dirs, Final(run[i].requests[r].path), COMPLETE)
    ensures Tally(run[i].files.evictions, run[i].requests[r].path) == 0
            ==> Links(run[i].files.dirs, Final(run[i].requests[r].path), COMPLETE)
  {
    RunInv(run, i);
    var p := run[i].requests[r].path;
    PublishedOncePerEviction(run, i, p);
    RenamedMeansPublished(run, i, p);
  }

  lemma {:induction false} RenamedMeansPublished(run: seq<State>, i: nat, p: Path)
    requires IsRun(run) && i < |run| && Tally(run[i].files.renames, p) > 0
    ensures exists j :: 0 <= j <= i && Links(run[j].files.dirs, Final(p), COMPLETE)
  {
    hide *;
    if i == 0 {
      NoRenameAtFirst(run, p);
    } else if Tally(run[i - 1].files.renames, p) > 0 {
      RenamedMeansPublished(run, i - 1, p);
    } else {
      RunInv(run, i - 1);
      DirectoriesHold(run[i - 1]);
      var step := StepOfRun(run, i - 1);
      FirstRename(run[i - 1], step, run[i], p);
    }
  }

  lemma NoRenameAtFirst(run: seq<State>, p: Path)
    requires IsRun(run)
    ensures Tally(run[0].files.renames, p) == 0
  {
  }

  lemma DirectoriesHold(s: State)
    requires Inv(s)
    ensures DirsInv(s.requests, s.files)
  {
    hide DirsInv;
  }

  lemma FirstRename(s: State, step: Step, t: State, p: Path)
    requires DirsInv(s.requests, s.files) && Takes(s, step, t)
    requires Tally(s.files.renames, p) == 0 && Tally(t.files.renames, p) > 0
    ensures Links(t.files.dirs, Final(p), COMPLETE)
  {
  }

  /** The remains of an eviction: files, but no playlist. */
  predicate IsBlocked(f: Files, p: Path) {
    IsInTheWay(f, p) && !PlaylistExists(f, p)
  }

  predicate Evicts(step: Step, p: Path) {
    step.Do? && (step.work.RemoveFile? || step.work.RemoveDir?) && step.work.victim == p
  }

  lemma StepStaysBlocked(s: State, step: Step, t: State, p: Path)
    requires Takes(s, step, t) && IsBlocked(s.files, p) && !Evicts(step, p)
    ensures IsBlocked(t.files, p) && Tally(t.files.renames, p) == Tally(s.files.renames, p)
    ensures forall r :: r in t.requests && t.requests[r].path == p && SawPublished(t.requests[r].pc) ==>
      r in s.requests && SawPublished(s.requests[r].pc)
  {
  }

  /** Until an eviction comes by again, such remains stay, and no request for the rendition is served any more. */
  lemma {:induction false} BlockedUntilEvicted(run: seq<State>, i: nat, j: nat, p: Path)
    requires IsRun(run) && i <= j < |run| && IsBlocked(run[i].files, p)
    requires forall k, step :: i <= k < j && Takes(run[k], step, run[k + 1]) ==> !Evicts(step, p)
    ensures IsBlocked(run[j].files, p) && Tally(run[j].files.renames, p) == Tally(run[i].files.renames, p)
    ensures forall r :: r in run[j].requests && run[j].requests[r].path == p && SawPublished(run[j].requests[r].pc) ==>
      r in run[i].requests && SawPublished(run[i].requests[r].pc)
  {
    hide Takes, IsBlocked, SawPublished;
    if i < j {
      BlockedUntilEvicted(run, i, j - 1, p);
      var step := StepOfRun(run, j - 1);
      StepStaysBlocked(run[j - 1], step, run[j], p);
      PathsStay(run[j - 1], step, run[j]);
    }
  }

  lemma PathsStay(s: State, step: Step, t: State)
    requires Takes(s, step, t)
    ensures forall r :: r in s.requests ==> r in t.requests && t.requests[r].path == s.requests[r].path
  {
  }

  // ----- Progress -----

  /** Some action of `q` is possible. */
  ghost predicate CanAct(s: State, q: RequestId) {
    exists step, t :: Takes(s, step, t) && step.r == q && !step.Arrive?
  }

  lemma {:induction false} UnusedLock(used: set<LockId>) returns (l: LockId)
    ensures forall u :: u in used ==> u < l
  {
    l := 0;
    if used != {} {
      var u :| u in used;
      var m := UnusedLock(used - {u});
      assert forall v :: v in used ==> v == u || v in used - {u};
      l := if u < m then m else u + 1;
    }
  }

  lemma ActsMeansCanAct(s: State, step: Step, pc': Pc, k': Locks, f': Files)
    requires step.r in s.requests && !step.Arrive?
    requires Acts(s.locks, s.files, step, s.requests[step.r].path, s.requests[step.r].pc, pc', k', f')
    ensures CanAct(s, step.r)
  {
    var t := State(s.requests[step.r := Request(s.requests[step.r].path, pc')], k', f');
    assert Takes(s, step, t);
  }

  lemma WorkerCanAct(s: State, r: RequestId, work: Work, pc': Pc, f': Files)
    requires r in s.requests && Works(s.files, r, s.requests[r].path, s.requests[r].pc, work, pc', f')
    ensures CanAct(s, r)
  {
    ActsMeansCanAct(s, Do(r, work), pc', s.locks, f');
  }

  lemma InsiderCanAct(s: State, r: RequestId)
    requires HandlesInv(s.requests, s.locks.handles) && Inside(s.requests, r)
    ensures CanAct(s, r)
  {
    var p, k, f := s.requests[r].path, s.locks, s.files;
    match s.requests[r].pc
    case Checking => WorkerCanAct(s, r, Recheck, if PlaylistExists(f, p) then Leaving(Served) else Probing, f);
    case Probing => WorkerCanAct(s, r, Probe(true), Transcoding, f);
    case Transcoding => WorkerCanAct(s, r, AbortTemp(true), Leaving(Failed), WithoutTemp(f, p, r));
    case Transcoded => WorkerCanAct(s, r, AbortTemp(true), Leaving(Failed), WithoutTemp(f, p, r));
    case Published => WorkerCanAct(s, r, StopEvicting, Leaving(Served), f);
    case Leaving(o) => ActsMeansCanAct(s, Unlock(r), Unlocked(o), k.(owners := k.owners - {k.handles[r]}), f);
  }

  lemma OutsiderCanAct(s: State, r: RequestId)
    requires HandlesInv(s.requests, s.locks.handles) && r in s.requests && !Inside(s.requests, r)
    requires !s.requests[r].pc.Waiting? && !s.requests[r].pc.Finished?
    ensures CanAct(s, r)
  {
    var p, k, f := s.requests[r].path, s.locks, s.files;
    match s.requests[r].pc
    case Arrived =>
      ActsMeansCanAct(s, FastCheck(r), if PlaylistExists(f, p) then Finished(Served) else Missed, k, f);
    case Missed =>
      var newLock := UnusedLock(k.counts.Keys);
      ActsMeansCanAct(s, Clone(r, newLock), Waiting, CloneHandle(k, r, p, newLock), f);
    case Unlocked(o) => ActsMeansCanAct(s, Release(r), Released(o), TestAndForget(k, r, p), f);
    case Released(o) => ActsMeansCanAct(s, Drop(r), Finished(o), DropHandle(k, r), f);
  }

  /** No request is ever stuck: it can act, or the holder of the lock it waits for can. */
  lemma NobodyIsStuck(run: seq<State>, i: nat, r: RequestId)
    requires IsRun(run) && i < |run| && r in run[i].requests && !run[i].requests[r].pc.Finished?
    ensures CanAct(run[i], r)
            || (r in run[i].locks.handles && run[i].locks.handles[r] in run[i].locks.owners
                && CanAct(run[i], run[i].locks.owners[run[i].locks.handles[r]]))
  {
    RunInv(run, i);
    var s := run[i];
    if Inside(s.requests, r) {
      InsiderCanAct(s, r);
    } else if !s.requests[r].pc.Waiting? {
      OutsiderCanAct(s, r);
    } else if s.locks.handles[r] in s.locks.owners {
      var q := s.locks.owners[s.locks.handles[r]];
      assert Links(s.locks.owners, s.locks.handles[r], q);
      InsiderCanAct(s, q);
    } else {
      ActsMeansCanAct(s, Acquire(r), Checking, s.locks.(owners := s.locks.owners[s.locks.handles[r] := r]), s.files);
    }
  }
}
