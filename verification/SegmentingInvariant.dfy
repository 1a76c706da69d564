/** The lock protocol's invariant: every action of every request keeps it.

    It has a part for each table of the state: handles, counts, the map of locks, owners, directories, the balance of
    renames and evictions, and what the requests served have seen.  Each part is shown to be kept by the actions that
    write to the table; `InvKept` puts them together and `RunInv` carries them over runs. */
module SegmentingInvariant {
  import opened SegmentingLock

  /** Two requests for one path are never both inside. */
  lemma CriticalIsExclusive(s: State, r: RequestId, q: RequestId)
    requires MapInv(s.requests, s.locks.handles, s.locks.segmenting)
    requires OwnersInv(s.requests, s.locks.handles, s.locks.owners)
    requires Inside(s.requests, r) && Inside(s.requests, q) && s.requests[r].path == s.requests[q].path
    ensures r == q
  {
    var l := s.locks.handles[r];
    assert Links(s.locks.handles, r, l) && Links(s.locks.handles, q, l);
    assert Links(s.locks.owners, l, r) && Links(s.locks.owners, l, q);
  }

  // ----- Reference counting -----

  lemma AddedReferrer<K>(table: map<K, LockId>, k: K, l: LockId, l': LockId)
    requires k !in table
    ensures |Referrers(table[k := l], l')| == |Referrers(table, l')| + if l' == l then 1 else 0
  {
    if l' == l {
      assert Referrers(table[k := l], l') == Referrers(table, l') + {k};
    } else {
      assert Referrers(table[k := l], l') == Referrers(table, l');
    }
  }

  lemma RemovedReferrer<K>(table: map<K, LockId>, k: K, l': LockId)
    requires k in table
    ensures |Referrers(table, l')| == |Referrers(table - {k}, l')| + if l' == table[k] then 1 else 0
  {
    if l' == table[k] {
      assert Referrers(table, l') == Referrers(table - {k}, l') + {k};
    } else {
      assert Referrers(table, l') == Referrers(table - {k}, l');
    }
  }

  lemma OneReferrer<K>(table: map<K, LockId>, k: K)
    requires k in table
    ensures |Referrers(table, table[k])| >= 1
    ensures |Referrers(table, table[k])| == 1 <==> Referrers(table, table[k]) == {k}
  {
    RemovedReferrer(table, k, table[k]);
    assert Referrers(table, table[k]) == Referrers(table - {k}, table[k]) + {k};
  }

  /** A count of at most two, seen by a request that has not released: nobody else has a handle. */
  lemma SmallCountMeansAlone(requests: Requests, k: Locks, r: RequestId)
    requires CountsInv(k) && MapInv(requests, k.handles, k.segmenting)
    requires r in requests && NotReleased(requests[r].pc)
    ensures r in k.handles && k.handles[r] in k.counts
    ensures k.counts[k.handles[r]] <= 2 <==> Referrers(k.handles, k.handles[r]) == {r}
  {
    OneReferrer(k.handles, r);
    OneReferrer(k.segmenting, requests[r].path);
    assert Referrers(k.segmenting, k.handles[r]) == {requests[r].path};
  }

  /** While another request has a handle, the count is above two and the entry stays. */
  lemma TwoHoldersKeep(requests: Requests, k: Locks, r: RequestId, q: RequestId)
    requires CountsInv(k) && MapInv(requests, k.handles, k.segmenting)
    requires r in requests && NotReleased(requests[r].pc) && q != r && r in k.handles
    requires Links(k.handles, q, k.handles[r])
    ensures TestAndForget(k, r, requests[r].path) == k
  {
    SmallCountMeansAlone(requests, k, r);
    assert q in Referrers(k.handles, k.handles[r]);
  }

  lemma CloneCounts(k: Locks, r: RequestId, p: Path, newLock: LockId)
    requires CountsInv(k) && r !in k.handles && newLock !in k.counts
    ensures CountsInv(CloneHandle(k, r, p, newLock))
  {
    var k' := CloneHandle(k, r, p, newLock);
    forall l | l in k'.counts
      ensures k'.counts[l] == |Referrers(k'.handles, l)| + |Referrers(k'.segmenting, l)|
    {
      AddedReferrer(k.handles, r, k'.segmenting[p], l);
      if p !in k.segmenting {
        AddedReferrer(k.segmenting, p, newLock, l);
        assert Referrers(k.handles, newLock) == {} && Referrers(k.segmenting, newLock) == {};
      }
    }
  }

  lemma ReleaseCounts(k: Locks, r: RequestId, p: Path)
    requires CountsInv(k) && r in k.handles
    ensures CountsInv(TestAndForget(k, r, p))
  {
    var k' := TestAndForget(k, r, p);
    if p in k.segmenting {
      forall l | l in k'.counts
        ensures k'.counts[l] == |Referrers(k'.handles, l)| + |Referrers(k'.segmenting, l)|
      {
        RemovedReferrer(k.segmenting, p, l);
      }
    }
  }

  lemma DropCounts(k: Locks, r: RequestId)
    requires CountsInv(k) && r in k.handles
    ensures CountsInv(DropHandle(k, r))
  {
    var k' := DropHandle(k, r);
    forall l | l in k'.counts
      ensures k'.counts[l] == |Referrers(k'.handles, l)| + |Referrers(k'.segmenting, l)|
    {
      RemovedReferrer(k.handles, r, l);
    }
  }

  // ----- One lemma per clause of the invariant -----

  lemma HandlesKept(s: State, step: Step, t: State)
    requires HandlesInv(s.requests, s.locks.handles) && Takes(s, step, t)
    ensures HandlesInv(t.requests, t.locks.handles)
  {
  }

  lemma CountsKept(s: State, step: Step, t: State)
    requires HandlesInv(s.requests, s.locks.handles) && CountsInv(s.locks) && Takes(s, step, t)
    ensures CountsInv(t.locks)
  {
    match step
    case Clone(r, newLock) => CloneCounts(s.locks, r, s.requests[r].path, newLock);
    case Release(r) => ReleaseCounts(s.locks, r, s.requests[r].path);
    case Drop(r) => DropCounts(s.locks, r);
    case _ =>
  }

  /** The other actions leave the map alone, and drop no handle before its release. */
  lemma MapUntouched(s: State, step: Step, t: State)
    requires MapInv(s.requests, s.locks.handles, s.locks.segmenting)
    requires Takes(s, step, t) && !step.Clone? && !step.Release?
    ensures MapInv(t.requests, t.locks.handles, t.locks.segmenting)
  {
    assert t.locks.segmenting == s.locks.segmenting;
    assert step.r in t.requests && NotReleased(t.requests[step.r].pc)
           ==> step.r in s.requests && NotReleased(s.requests[step.r].pc);
  }

  lemma CloneTakes(s: State, r: RequestId, newLock: LockId, t: State)
    requires Takes(s, Clone(r, newLock), t)
    ensures var p := s.requests[r].path;
      && newLock !in s.locks.counts && t.requests == s.requests[r := Request(p, Waiting)]
      && t.locks.segmenting
         == (if p in s.locks.segmenting then s.locks.segmenting else s.locks.segmenting[p := newLock])
      && t.locks.handles == s.locks.handles[r := t.locks.segmenting[p]]
      && !HasHandle(s.requests[r].pc)
  {
    hide Incremented;
  }

  lemma CloneMap(s: State, r: RequestId, newLock: LockId, t: State)
    requires HandlesInv(s.requests, s.locks.handles) && CountsInv(s.locks)
    requires MapInv(s.requests, s.locks.handles, s.locks.segmenting) && Takes(s, Clone(r, newLock), t)
    ensures MapInv(t.requests, t.locks.handles, t.locks.segmenting)
  {
    CloneTakes(s, r, newLock, t);
    hide Takes, HasHandle, InCriticalSection;
    assert forall p <- s.locks.segmenting :: s.locks.segmenting[p] != newLock;
  }

  /** The removal orphans nobody: a request still counting on the entry would share the handle. */
  lemma ReleaseMap(s: State, r: RequestId, t: State)
    requires CountsInv(s.locks) && MapInv(s.requests, s.locks.handles, s.locks.segmenting)
    requires Takes(s, Release(r), t)
    ensures MapInv(t.requests, t.locks.handles, t.locks.segmenting)
  {
    forall q | q in t.requests && NotReleased(t.requests[q].pc)
      ensures q in t.locks.handles && Links(t.locks.segmenting, t.requests[q].path, t.locks.handles[q])
    {
      if s.requests[q].path == s.requests[r].path {
        TwoHoldersKeep(s.requests, s.locks, r, q);
      }
    }
  }

  lemma OwnersKept(s: State, step: Step, t: State)
    requires HandlesInv(s.requests, s.locks.handles)
    requires OwnersInv(s.requests, s.locks.handles, s.locks.owners) && Takes(s, step, t)
    ensures OwnersInv(t.requests, t.locks.handles, t.locks.owners)
  {
    match step
    case Acquire(r) => AcquireOwners(s, r, t);
    case Unlock(r) => UnlockOwners(s, r, t);
    case _ => OwnersUntouched(s, step, t);
  }

  lemma OwnersUntouched(s: State, step: Step, t: State)
    requires HandlesInv(s.requests, s.locks.handles)
    requires OwnersInv(s.requests, s.locks.handles, s.locks.owners)
    requires Takes(s, step, t) && !step.Acquire? && !step.Unlock?
    ensures OwnersInv(t.requests, t.locks.handles, t.locks.owners)
  {
    hide Takes;
    forall q
      ensures Inside(t.requests, q) == Inside(s.requests, q) && t.locks.owners == s.locks.owners
      ensures Inside(s.requests, q) && q in s.locks.handles ==>
        q in t.locks.handles && t.locks.handles[q] == s.locks.handles[q]
    {
      InsideUntouched(s, step, t, q);
    }
    assert forall q :: Inside(s.requests, q) ==> q in s.locks.handles;
    hide Inside;
  }

  /** The other actions let nobody in or out, and leave alone the handles of whoever is inside. */
  lemma InsideUntouched(s: State, step: Step, t: State, q: RequestId)
    requires Takes(s, step, t) && !step.Acquire? && !step.Unlock?
    ensures t.locks.owners == s.locks.owners && Inside(t.requests, q) == Inside(s.requests, q)
    ensures Inside(s.requests, q) && q in s.locks.handles ==>
      q in t.locks.handles && t.locks.handles[q] == s.locks.handles[q]
  {
  }

  lemma AcquireOwners(s: State, r: RequestId, t: State)
    requires OwnersInv(s.requests, s.locks.handles, s.locks.owners) && Takes(s, Acquire(r), t)
    ensures OwnersInv(t.requests, t.locks.handles, t.locks.owners)
  {
    assert forall q :: q != r ==> Inside(t.requests, q) == Inside(s.requests, q);
    assert forall q, l :: l != s.locks.handles[r] ==> Links(t.locks.owners, l, q) == Links(s.locks.owners, l, q);
  }

  lemma UnlockOwners(s: State, r: RequestId, t: State)
    requires OwnersInv(s.requests, s.locks.handles, s.locks.owners) && Takes(s, Unlock(r), t)
    ensures OwnersInv(t.requests, t.locks.handles, t.locks.owners)
  {
    assert Links(s.locks.handles, r, s.locks.handles[r]) && Inside(s.requests, r);
    assert forall q :: q != r ==> Inside(t.requests, q) == Inside(s.requests, q);
    assert forall q, l :: l != s.locks.handles[r] ==> Links(t.locks.owners, l, q) == Links(s.locks.owners, l, q);
  }

  lemma DirsKept(s: State, step: Step, t: State)
    requires MapInv(s.requests, s.locks.handles, s.locks.segmenting)
    requires OwnersInv(s.requests, s.locks.handles, s.locks.owners)
    requires DirsInv(s.requests, s.files) && Takes(s, step, t)
    ensures DirsInv(t.requests, t.files)
  {
    match step
    case Do(r, work) => WorkDirs(s, r, work, t);
    case _ =>
  }

  /** The only way a directory becomes visible is complete, with no other request about to do the same. */
  lemma WorkDirs(s: State, r: RequestId, work: Work, t: State)
    requires MapInv(s.requests, s.locks.handles, s.locks.segmenting)
    requires OwnersInv(s.requests, s.locks.handles, s.locks.owners)
    requires DirsInv(s.requests, s.files) && Takes(s, Do(r, work), t)
    ensures DirsInv(t.requests, t.files)
  {
    forall q | q in t.requests && MakesSegments(t.requests[q].pc)
      ensures !PlaylistExists(t.files, t.requests[q].path)
    {
      NoPlaylistYet(s, r, work, t, q);
    }
    hide MapInv, OwnersInv;
  }

  lemma NoPlaylistYet(s: State, r: RequestId, work: Work, t: State, q: RequestId)
    requires MapInv(s.requests, s.locks.handles, s.locks.segmenting)
    requires OwnersInv(s.requests, s.locks.handles, s.locks.owners)
    requires DirsInv(s.requests, s.files) && Takes(s, Do(r, work), t)
    requires q in t.requests && MakesSegments(t.requests[q].pc)
    ensures !PlaylistExists(t.files, t.requests[q].path)
  {
    if work.Rename? && s.requests[q].path == s.requests[r].path {
      CriticalIsExclusive(s, r, q);
    }
    hide MapInv, OwnersInv;
  }

  lemma BalanceKept(s: State, step: Step, t: State)
    requires DirsInv(s.requests, s.files) && BalanceInv(s.files) && Takes(s, step, t)
    ensures BalanceInv(t.files)
  {
    if step.Do? && (step.work.Rename? || step.work.RemoveFile? || step.work.RemoveDir?) {
      WorkBalance(s, step.r, step.work, t);
    } else if step.Do? {
      TempBalance(s.files, t.files);
    }
  }

  /** Temporary directories do not matter. */
  lemma TempBalance(f: Files, f': Files)
    requires BalanceInv(f) && f'.renames == f.renames && f'.evictions == f.evictions && f'.hurt == f.hurt
    requires forall p :: Final(p) in f'.dirs <==> Final(p) in f.dirs
    ensures BalanceInv(f')
  {
    forall p ensures Balanced(f', p) {
      assert Balanced(f, p);
    }
  }

  lemma WorkBalance(s: State, r: RequestId, work: Work, t: State)
    requires DirsInv(s.requests, s.files) && BalanceInv(s.files) && Takes(s, Do(r, work), t)
    requires work.Rename? || work.RemoveFile? || work.RemoveDir?
    ensures BalanceInv(t.files)
  {
    forall q ensures Balanced(t.files, q) {
      assert Balanced(s.files, q);
      OneBalance(s, r, work, t, q);
    }
    hide Takes, DirsInv;
  }

  lemma OneBalance(s: State, r: RequestId, work: Work, t: State, q: Path)
    requires DirsInv(s.requests, s.files) && Balanced(s.files, q) && Takes(s, Do(r, work), t)
    requires work.Rename? || work.RemoveFile? || work.RemoveDir?
    ensures Balanced(t.files, q)
  {
  }

  /** A request that reports success has just seen, or made, the published directory. */
  lemma NewlySeen(s: State, step: Step, t: State)
    requires Takes(s, step, t)
    requires step.r in t.requests && SawPublished(t.requests[step.r].pc)
    requires !(step.r in s.requests && SawPublished(s.requests[step.r].pc))
    ensures Final(t.requests[step.r].path) in s.files.dirs || Tally(t.files.renames, t.requests[step.r].path) > 0
  {
  }

  lemma RenamesGrow(s: State, step: Step, t: State)
    requires Takes(s, step, t)
    ensures forall p :: Tally(t.files.renames, p) >= Tally(s.files.renames, p)
    ensures forall r :: r != step.r ==> (r in t.requests <==> r in s.requests)
    ensures forall r :: r != step.r && r in t.requests ==> t.requests[r] == s.requests[r]
    ensures step.r in t.requests && (step.r in s.requests ==> t.requests[step.r].path == s.requests[step.r].path)
  {
  }

  lemma ServedKept(s: State, step: Step, t: State)
    requires BalanceInv(s.files)
    requires ServedInv(s.requests, s.files.renames) && Takes(s, step, t)
    ensures ServedInv(t.requests, t.files.renames)
  {
    RenamesGrow(s, step, t);
    var r, p := step.r, t.requests[step.r].path;
    if SawPublished(t.requests[r].pc) && !(r in s.requests && SawPublished(s.requests[r].pc)) {
      NewlySeen(s, step, t);
      assert Balanced(s.files, p);
    }
    hide Takes, SawPublished;
  }

  lemma InvKept(s: State, step: Step, t: State)
    requires Inv(s) && Takes(s, step, t)
    ensures Inv(t)
  {
    hide Takes, HandlesInv, CountsInv, MapInv, OwnersInv, DirsInv, BalanceInv, ServedInv;
    HandlesKept(s, step, t);
    CountsKept(s, step, t);
    match step {
      case Clone(r, newLock) => CloneMap(s, r, newLock, t);
      case Release(r) => ReleaseMap(s, r, t);
      case _ => MapUntouched(s, step, t);
    }
    OwnersKept(s, step, t);
    DirsKept(s, step, t);
    BalanceKept(s, step, t);
    ServedKept(s, step, t);
  }

  lemma InitialInv()
    ensures Inv(INITIAL)
  {
  }

  lemma StepOfRun(run: seq<State>, i: nat) returns (step: Step)
    requires IsRun(run) && i + 1 < |run|
    ensures Takes(run[i], step, run[i + 1])
  {
    assert Next(run[i], run[i + 1]);
    step :| Takes(run[i], step, run[i + 1]);
  }

  lemma {:induction false} RunInv(run: seq<State>, i: nat)
    requires IsRun(run) && i < |run|
    ensures Inv(run[i])
  {
    hide Inv, Takes;
    if i == 0 {
      InitialInv();
    } else {
      RunInv(run, i - 1);
      var step := StepOfRun(run, i - 1);
      InvKept(run[i - 1], step, run[i]);
    }
  }
}
