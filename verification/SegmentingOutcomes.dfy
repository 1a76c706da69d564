/** Which requests are answered `Ok` and which fail, over whole runs. */
module SegmentingOutcomes {
  import opened SegmentingLock
  import opened SegmentingInvariant
  import opened SegmentingPromises

  predicate HasOutcome(pc: Pc, outcome: Outcome) {
    (pc.Leaving? || pc.Unlocked? || pc.Released? || pc.Finished?) && pc.outcome == outcome
  }

  predicate HasFailed(requests: Requests, r: RequestId) {
    r in requests && HasOutcome(requests[r].pc, Failed)
  }

  predicate HasSucceeded(requests: Requests, r: RequestId) {
    r in requests && SawPublished(requests[r].pc)
  }

  predicate IsReady(f: Files, p: Path) {
    Final(p) in f.dirs && f.dirs[Final(p)].playlist
  }

  /** What an eviction may leave and no rename replaces: segments without their playlist. */
  predicate HasRemains(f: Files, p: Path) {
    Final(p) in f.dirs && !f.dirs[Final(p)].playlist && !f.dirs[Final(p)].segments.Nothing?
  }

  /** The request's own action that makes it fail: its probe or download, its `ffmpeg`, or its rename, and that only
      if an eviction has left segments in the way. */
  ghost predicate IsFailure(s: State, step: Step, r: RequestId) {
    step.Do? && step.r == r && r in s.requests
    && match step.work
       case Probe(ok) => !ok
       case AbortTemp(_) => true
       case Rename(_) => HasRemains(s.files, s.requests[r].path)
       case _ => false
  }

  /** The request's own action that makes it succeed: a look that finds the playlist, with the lock or before, or a
      rename that nothing is in the way of. */
  ghost predicate IsSuccess(s: State, step: Step, r: RequestId) {
    step.r == r && r in s.requests
    && match step
       case FastCheck(_) => IsReady(s.files, s.requests[r].path)
       case Do(_, Recheck) => IsReady(s.files, s.requests[r].path)
       case Do(_, Rename(_)) => !HasRemains(s.files, s.requests[r].path)
       case _ => false
  }

  ghost predicate FailsAt(run: seq<State>, j: nat, r: RequestId)
    requires j + 1 < |run|
  {
    exists step :: Takes(run[j], step, run[j + 1]) && IsFailure(run[j], step, r)
  }

  ghost predicate SucceedsAt(run: seq<State>, j: nat, r: RequestId)
    requires j + 1 < |run|
  {
    exists step :: Takes(run[j], step, run[j + 1]) && IsSuccess(run[j], step, r)
  }

  lemma FailureStep(s: State, step: Step, t: State, r: RequestId)
    requires DirsInv(s.requests, s.files) && Takes(s, step, t)
    ensures HasFailed(t.requests, r) <==> HasFailed(s.requests, r) || IsFailure(s, step, r)
  {
    hide CloneHandle, TestAndForget, DropHandle, Shrinks;
  }

  lemma SuccessStep(s: State, step: Step, t: State, r: RequestId)
    requires DirsInv(s.requests, s.files) && Takes(s, step, t)
    ensures HasSucceeded(t.requests, r) <==> HasSucceeded(s.requests, r) || IsSuccess(s, step, r)
  {
    hide CloneHandle, TestAndForget, DropHandle, Shrinks;
  }

  lemma NobodyAtFirst(run: seq<State>, r: RequestId)
    requires IsRun(run)
    ensures !HasFailed(run[0].requests, r) && !HasSucceeded(run[0].requests, r)
  {
  }

  lemma OneStep(run: seq<State>, i: nat, r: RequestId)
    requires IsRun(run) && i + 1 < |run|
    ensures HasFailed(run[i + 1].requests, r) <==> HasFailed(run[i].requests, r) || FailsAt(run, i, r)
    ensures HasSucceeded(run[i + 1].requests, r) <==> HasSucceeded(run[i].requests, r) || SucceedsAt(run, i, r)
  {
    hide Takes, IsRun, Inv, DirsInv, HasFailed, HasSucceeded, IsFailure, IsSuccess;
    RunInv(run, i);
    DirectoriesHold(run[i]);
    var taken := StepOfRun(run, i);
    FailureStep(run[i], taken, run[i + 1], r);
    SuccessStep(run[i], taken, run[i + 1], r);
    forall step | Takes(run[i], step, run[i + 1])
      ensures HasFailed(run[i + 1].requests, r) <==> HasFailed(run[i].requests, r) || IsFailure(run[i], step, r)
      ensures HasSucceeded(run[i + 1].requests, r) <==> HasSucceeded(run[i].requests, r) || IsSuccess(run[i], step, r)
    {
      FailureStep(run[i], step, run[i + 1], r);
      SuccessStep(run[i], step, run[i + 1], r);
    }
  }

  /** A request fails exactly by an action of its own that is a failure: no other request's doing fails it. */
  lemma {:induction false} FailedIff(run: seq<State>, i: nat, r: RequestId)
    requires IsRun(run) && i < |run|
    ensures HasFailed(run[i].requests, r) <==> exists j :: 0 <= j < i && FailsAt(run, j, r)
  {
    hide IsRun, HasFailed, FailsAt;
    if i == 0 {
      NobodyAtFirst(run, r);
    } else {
      FailedIff(run, i - 1, r);
      OneStep(run, i - 1, r);
    }
  }

  /** And it succeeds exactly by finding the playlist, or publishing it. */
  lemma {:induction false} SucceededIff(run: seq<State>, i: nat, r: RequestId)
    requires IsRun(run) && i < |run|
    ensures HasSucceeded(run[i].requests, r) <==> exists j :: 0 <= j < i && SucceedsAt(run, j, r)
  {
    hide IsRun, HasSucceeded, SucceedsAt;
    if i == 0 {
      NobodyAtFirst(run, r);
    } else {
      SucceededIff(run, i - 1, r);
      OneStep(run, i - 1, r);
    }
  }

  lemma FinishedMeans(requests: Requests, r: RequestId)
    requires r in requests && requests[r].pc.Finished?
    ensures requests[r].pc == Finished(Failed) <==> HasFailed(requests, r)
    ensures requests[r].pc == Finished(Served) <==> HasSucceeded(requests, r)
    ensures HasFailed(requests, r) <==> !HasSucceeded(requests, r)
  {
  }

  /** So the answer of a request that has finished is settled by its own actions, and by exactly one kind of them. */
  lemma AnswerIff(run: seq<State>, i: nat, r: RequestId)
    requires IsRun(run) && i < |run| && r in run[i].requests && run[i].requests[r].pc.Finished?
    ensures At(run[i].requests, r, Finished(Served)) <==> exists j :: 0 <= j < i && SucceedsAt(run, j, r)
    ensures At(run[i].requests, r, Finished(Failed)) <==> exists j :: 0 <= j < i && FailsAt(run, j, r)
    ensures (exists j :: 0 <= j < i && SucceedsAt(run, j, r)) <==> !exists j :: 0 <= j < i && FailsAt(run, j, r)
  {
    hide IsRun, HasFailed, HasSucceeded, FailsAt, SucceedsAt;
    FailedIff(run, i, r);
    SucceededIff(run, i, r);
    FinishedMeans(run[i].requests, r);
  }

  // ----- Whoever finds the directory ready -----

  /** Before a look at the directory: the fast check, or the re-check with the lock. */
  predicate IsLooking(requests: Requests, r: RequestId) {
    At(requests, r, Arrived) || At(requests, r, Checking)
  }

  lemma LookingStep(s: State, step: Step, t: State, r: RequestId)
    requires Takes(s, step, t) && IsLooking(s.requests, r) && IsReady(s.files, s.requests[r].path)
    ensures t.requests[r].path == s.requests[r].path
    ensures (IsLooking(t.requests, r) && t.requests[r].pc == s.requests[r].pc) || HasSucceeded(t.requests, r)
  {
    hide CloneHandle, TestAndForget, DropHandle, Shrinks;
  }

  lemma SuccessStays(run: seq<State>, i: nat, j: nat, r: RequestId)
    requires IsRun(run) && i <= j < |run| && HasSucceeded(run[i].requests, r)
    ensures HasSucceeded(run[j].requests, r)
  {
    hide IsRun, HasSucceeded, SucceedsAt;
    SucceededIff(run, i, r);
    SucceededIff(run, j, r);
  }

  /** A request that is about to look is answered `Ok` whenever it finishes, if the playlist is there for as long as it
      has not looked: whoever waited for the lock shares the pass of the one that had it. */
  lemma {:induction false} ReadyMeansServed(run: seq<State>, i: nat, j: nat, r: RequestId)
    requires IsRun(run) && i <= j < |run| && IsLooking(run[i].requests, r)
    requires forall k :: i <= k <= j && At(run[k].requests, r, run[i].requests[r].pc) ==>
      IsReady(run[k].files, run[i].requests[r].path)
    ensures At(run[j].requests, r, run[i].requests[r].pc) || HasSucceeded(run[j].requests, r)
    ensures r in run[j].requests && (run[j].requests[r].pc.Finished? ==> At(run[j].requests, r, Finished(Served)))
    decreases j - i
  {
    hide IsRun, Takes, IsReady;
    if i < j {
      var step := StepOfRun(run, i);
      LookingStep(run[i], step, run[i + 1], r);
      if HasSucceeded(run[i + 1].requests, r) {
        SuccessStays(run, i + 1, j, r);
      } else {
        ReadyMeansServed(run, i + 1, j, r);
      }
    }
  }

  // ----- One rendition by itself -----

  lemma EvictsOthers(s: State, step: Step, t: State, p: Path)
    requires Takes(s, step, t) && forall r <- s.requests :: s.requests[r].path == p
    ensures Tally(t.files.evictions, p) == Tally(s.files.evictions, p)
    ensures forall r <- s.requests :: r in t.requests && t.requests[r].path == p
  {
    hide CloneHandle, TestAndForget, DropHandle, Shrinks;
  }

  /** A request evicts only other renditions: where all requests are for one, its segments are made and published at
      most once, and then stay. */
  lemma {:induction false} OnePass(run: seq<State>, i: nat, p: Path)
    requires IsRun(run) && i < |run| && forall r <- run[i].requests :: run[i].requests[r].path == p
    ensures Tally(run[i].files.evictions, p) == 0 && Tally(run[i].files.renames, p) <= 1
    ensures Tally(run[i].files.renames, p) == 1 <==> Links(run[i].files.dirs, Final(p), COMPLETE)
  {
    hide IsRun, Takes, Inv;
    NoEviction(run, i, p);
    PublishedOncePerEviction(run, i, p);
    if Final(p) in run[i].files.dirs {
      NeverHalfMade(run, i, p);
    }
  }

  lemma {:induction false} NoEviction(run: seq<State>, i: nat, p: Path)
    requires IsRun(run) && i < |run| && forall r <- run[i].requests :: run[i].requests[r].path == p
    ensures Tally(run[i].files.evictions, p) == 0
  {
    hide Takes;
    if i > 0 {
      var step := StepOfRun(run, i - 1);
      PathsStay(run[i - 1], step, run[i]);
      NoEviction(run, i - 1, p);
      EvictsOthers(run[i - 1], step, run[i], p);
    }
  }

  // ----- Temporary directories -----

  /** The request's failure was the end of its pass, and its attempt to remove its temporary directory failed too. */
  ghost predicate LeftBehind(run: seq<State>, j: nat, r: RequestId)
    requires j + 1 < |run|
  {
    exists step ::
      Takes(run[j], step, run[j + 1]) && IsFailure(run[j], step, r)
      && (step.work == AbortTemp(false) || step.work == Rename(false))
  }

  ghost predicate HasTemp(s: State, p: Path, r: RequestId) {
    Temp(p, r) in s.files.dirs
  }

  predicate IsWriting(requests: Requests, r: RequestId, p: Path) {
    r in requests && requests[r].path == p && (requests[r].pc.Transcoding? || requests[r].pc.Transcoded?)
  }

  lemma TempStep(s: State, step: Step, t: State, p: Path, r: RequestId)
    requires DirsInv(s.requests, s.files) && Takes(s, step, t)
    requires HasTemp(t, p, r) && !IsWriting(t.requests, r, p)
    ensures HasTemp(s, p, r)
    ensures !IsWriting(s.requests, r, p)
         || (IsFailure(s, step, r) && (step.work == AbortTemp(false) || step.work == Rename(false)))
  {
    hide CloneHandle, TestAndForget, DropHandle, Shrinks;
  }

  /** A temporary directory outlives its request's work on it only if removing it has failed. */
  lemma {:induction false} TempsAreRemoved(run: seq<State>, i: nat, p: Path, r: RequestId)
    requires IsRun(run) && i < |run| && HasTemp(run[i], p, r)
    ensures IsWriting(run[i].requests, r, p) || exists j :: 0 <= j < i && LeftBehind(run, j, r)
  {
    hide Takes, HasTemp, IsWriting, IsFailure, Inv, DirsInv;
    if i == 0 {
      NoTempAtFirst(run, p, r);
    } else if !IsWriting(run[i].requests, r, p) {
      RunInv(run, i - 1);
      DirectoriesHold(run[i - 1]);
      var step := StepOfRun(run, i - 1);
      TempStep(run[i - 1], step, run[i], p, r);
      if IsWriting(run[i - 1].requests, r, p) {
        assert LeftBehind(run, i - 1, r);
      } else {
        TempsAreRemoved(run, i - 1, p, r);
      }
    }
  }

  lemma NoTempAtFirst(run: seq<State>, p: Path, r: RequestId)
    requires IsRun(run)
    ensures !HasTemp(run[0], p, r)
  {
  }

  lemma LeftBehindFails(run: seq<State>, i: nat, j: nat, r: RequestId)
    requires IsRun(run) && j < i < |run| && LeftBehind(run, j, r)
    ensures HasFailed(run[i].requests, r)
  {
    hide Takes, IsFailure, IsRun, HasFailed;
    assert FailsAt(run, j, r);
    FailedIff(run, i, r);
  }

  predicate IsWhole(f: Files, d: Dir) {
    d in f.dirs && f.dirs[d].segments.Whole?
  }

  lemma WholeStep(s: State, step: Step, t: State, p: Path, r: RequestId)
    requires Takes(s, step, t) && At(t.requests, r, Transcoding) && t.requests[r].path == p
    ensures At(s.requests, r, Transcoding) || At(s.requests, r, Probing)
    ensures s.requests[r].path == p && (IsWhole(t.files, Temp(p, r)) ==> IsWhole(s.files, Temp(p, r)))
  {
    hide CloneHandle, TestAndForget, DropHandle, Shrinks;
  }

  lemma NotWriting(requests: Requests, r: RequestId, p: Path)
    requires At(requests, r, Probing)
    ensures !IsWriting(requests, r, p) && !HasFailed(requests, r)
  {
  }

  /** While its `ffmpeg` is running, a request's temporary directory lacks segments, whether it has a playlist or not:
      which is what the rename afterwards is for. */
  lemma {:induction false} NotWholeBefore(run: seq<State>, i: nat, p: Path, r: RequestId)
    requires IsRun(run) && i < |run| && At(run[i].requests, r, Transcoding) && run[i].requests[r].path == p
    ensures !IsWhole(run[i].files, Temp(p, r))
  {
    hide Takes, IsWriting, HasFailed, LeftBehind;
    if i > 0 {
      var step := StepOfRun(run, i - 1);
      WholeStep(run[i - 1], step, run[i], p, r);
      if At(run[i - 1].requests, r, Transcoding) {
        NotWholeBefore(run, i - 1, p, r);
      } else if HasTemp(run[i - 1], p, r) {
        NotWriting(run[i - 1].requests, r, p);
        TempsAreRemoved(run, i - 1, p, r);
        var j :| 0 <= j < i - 1 && LeftBehind(run, j, r);
        LeftBehindFails(run, i - 1, j, r);
      }
    }
  }

  /** Even with a playlist: it may be written before the last segment. */
  lemma PlaylistBeforeSegments(run: seq<State>, i: nat, r: RequestId, playlist: bool)
    requires IsRun(run) && i + 1 < |run| && Takes(run[i], Do(r, WriteTemp(playlist)), run[i + 1])
    ensures var d := Temp(run[i].requests[r].path, r);
      d in run[i + 1].files.dirs && (run[i + 1].files.dirs[d].playlist <==> playlist) && !IsWhole(run[i + 1].files, d)
  {
    NotWholeBefore(run, i + 1, run[i].requests[r].path, r);
  }

  // ----- Which directories there are -----

  ghost predicate Publishes(s: State, step: Step, p: Path) {
    step.Do? && step.r in s.requests && s.requests[step.r].path == p && step.work.Rename? && !HasRemains(s.files, p)
  }

  ghost predicate Removes(step: Step, p: Path) {
    step.Do? && step.work == RemoveDir(p)
  }

  ghost predicate Writes(s: State, step: Step, p: Path, r: RequestId) {
    step.Do? && step.r == r && r in s.requests && s.requests[r].path == p
    && (step.work.WriteTemp? || step.work.CompleteTemp?)
  }

  /** The temporary directory is renamed or removed. */
  ghost predicate Clears(s: State, step: Step, p: Path, r: RequestId) {
    step.Do? && step.r == r && r in s.requests && s.requests[r].path == p
    && (step.work == AbortTemp(true) || step.work == Rename(true) || (step.work.Rename? && !HasRemains(s.files, p)))
  }

  ghost predicate PublishedAt(run: seq<State>, j: nat, p: Path)
    requires j + 1 < |run|
  {
    exists step :: Takes(run[j], step, run[j + 1]) && Publishes(run[j], step, p)
  }

  ghost predicate RemovedAt(run: seq<State>, j: nat, p: Path)
    requires j + 1 < |run|
  {
    exists step :: Takes(run[j], step, run[j + 1]) && Removes(step, p)
  }

  ghost predicate WrittenAt(run: seq<State>, j: nat, p: Path, r: RequestId)
    requires j + 1 < |run|
  {
    exists step :: Takes(run[j], step, run[j + 1]) && Writes(run[j], step, p, r)
  }

  ghost predicate ClearedAt(run: seq<State>, j: nat, p: Path, r: RequestId)
    requires j + 1 < |run|
  {
    exists step :: Takes(run[j], step, run[j + 1]) && Clears(run[j], step, p, r)
  }

  lemma VisibleStep(s: State, step: Step, t: State, p: Path)
    requires DirsInv(s.requests, s.files) && Takes(s, step, t)
    ensures Final(p) in t.files.dirs <==> Publishes(s, step, p) || (Final(p) in s.files.dirs && !Removes(step, p))
    ensures !(Publishes(s, step, p) && Removes(step, p))
  {
    hide CloneHandle, TestAndForget, DropHandle, Shrinks;
  }

  lemma TemporaryStep(s: State, step: Step, t: State, p: Path, r: RequestId)
    requires DirsInv(s.requests, s.files) && Takes(s, step, t)
    ensures HasTemp(t, p, r) <==> Writes(s, step, p, r) || (HasTemp(s, p, r) && !Clears(s, step, p, r))
    ensures !(Writes(s, step, p, r) && Clears(s, step, p, r))
  {
    hide CloneHandle, TestAndForget, DropHandle, Shrinks;
  }

  lemma VisibleNext(run: seq<State>, i: nat, p: Path)
    requires IsRun(run) && i + 1 < |run|
    ensures Final(p) in run[i + 1].files.dirs
       <==> PublishedAt(run, i, p) || (Final(p) in run[i].files.dirs && !RemovedAt(run, i, p))
  {
    hide Takes, IsRun, Inv, DirsInv, Publishes, Removes;
    RunInv(run, i);
    DirectoriesHold(run[i]);
    var taken := StepOfRun(run, i);
    VisibleStep(run[i], taken, run[i + 1], p);
    if step :| Takes(run[i], step, run[i + 1]) && Publishes(run[i], step, p) {
      VisibleStep(run[i], step, run[i + 1], p);
    }
    if step :| Takes(run[i], step, run[i + 1]) && Removes(step, p) {
      VisibleStep(run[i], step, run[i + 1], p);
    }
  }

  lemma TemporaryNext(run: seq<State>, i: nat, p: Path, r: RequestId)
    requires IsRun(run) && i + 1 < |run|
    ensures HasTemp(run[i + 1], p, r)
       <==> WrittenAt(run, i, p, r) || (HasTemp(run[i], p, r) && !ClearedAt(run, i, p, r))
  {
    hide Takes, IsRun, Inv, DirsInv, Writes, Clears, HasTemp;
    RunInv(run, i);
    DirectoriesHold(run[i]);
    var taken := StepOfRun(run, i);
    TemporaryStep(run[i], taken, run[i + 1], p, r);
    if step :| Takes(run[i], step, run[i + 1]) && Writes(run[i], step, p, r) {
      TemporaryStep(run[i], step, run[i + 1], p, r);
    }
    if step :| Takes(run[i], step, run[i + 1]) && Clears(run[i], step, p, r) {
      TemporaryStep(run[i], step, run[i + 1], p, r);
    }
  }

  /** A rendition's directory is there exactly from a rename that nothing was in the way of to its removal, when it was
      empty, by an eviction. */
  lemma {:induction false} VisibleIff(run: seq<State>, i: nat, p: Path)
    requires IsRun(run) && i < |run|
    ensures Final(p) in run[i].files.dirs
       <==> exists j :: 0 <= j < i && PublishedAt(run, j, p) && forall k :: j < k < i ==> !RemovedAt(run, k, p)
  {
    hide Takes, PublishedAt, RemovedAt;
    if i > 0 {
      VisibleIff(run, i - 1, p);
      VisibleNext(run, i - 1, p);
      hide IsRun;
    }
  }

  predicate HasAllSegments(f: Files, p: Path) {
    Final(p) in f.dirs && f.dirs[Final(p)].segments.Whole?
  }

  lemma ReadyStep(s: State, step: Step, t: State, p: Path)
    requires DirsInv(s.requests, s.files) && Takes(s, step, t)
    ensures IsReady(t.files, p) && !IsReady(s.files, p) ==> Publishes(s, step, p)
    ensures HasAllSegments(t.files, p) && !HasAllSegments(s.files, p) ==> Publishes(s, step, p)
  {
    hide CloneHandle, TestAndForget, DropHandle;
  }

  /** What an eviction has taken from a directory is back only after another publication. */
  lemma {:induction false} BackOnlyByPublishing(run: seq<State>, i: nat, j: nat, p: Path)
    requires IsRun(run) && i <= j < |run|
    requires forall k :: i <= k < j ==> !PublishedAt(run, k, p)
    ensures IsReady(run[j].files, p) ==> IsReady(run[i].files, p)
    ensures HasAllSegments(run[j].files, p) ==> HasAllSegments(run[i].files, p)
    decreases j
  {
    hide IsRun, Takes, IsReady, HasAllSegments, Publishes, Inv, DirsInv;
    if i < j {
      BackOnlyByPublishing(run, i, j - 1, p);
      RunInv(run, j - 1);
      DirectoriesHold(run[j - 1]);
      var step := StepOfRun(run, j - 1);
      ReadyStep(run[j - 1], step, run[j], p);
      assert !PublishedAt(run, j - 1, p);
    }
  }

  /** A temporary directory is there exactly from the first write to its renaming or removal. */
  lemma {:induction false} TemporaryIff(run: seq<State>, i: nat, p: Path, r: RequestId)
    requires IsRun(run) && i < |run|
    ensures HasTemp(run[i], p, r)
       <==> exists j :: 0 <= j < i && WrittenAt(run, j, p, r) && forall k :: j < k < i ==> !ClearedAt(run, k, p, r)
  {
    hide Takes, WrittenAt, ClearedAt, HasTemp;
    if i == 0 {
      NoTempAtFirst(run, p, r);
    } else {
      TemporaryIff(run, i - 1, p, r);
      TemporaryNext(run, i - 1, p, r);
      hide IsRun;
    }
  }
}
