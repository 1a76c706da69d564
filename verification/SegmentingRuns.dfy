/** Runs of the lock protocol that end as one might not expect.

    They are built state by state: each is a run so far, to which `Move` adds one action and the state after it. */
module SegmentingRuns {
  import opened SegmentingLock
  import opened SegmentingPromises
  import opened SegmentingEntries

  /** Request `r` is for `paths[r]` and stands at `pcs[r]`. */
  function World(paths: seq<Path>, pcs: seq<Pc>, k: Locks, f: Files): State
    requires |paths| == |pcs|
  {
    State(map r: RequestId | 0 <= r < |pcs| :: Request(paths[r], pcs[r]), k, f)
  }

  lemma WorldIs(paths: seq<Path>, pcs: seq<Pc>, k: Locks, f: Files)
    requires |paths| == |pcs|
    ensures World(paths, pcs, k, f).locks == k && World(paths, pcs, k, f).files == f
    ensures forall r: RequestId :: r in World(paths, pcs, k, f).requests <==> r < |pcs|
    ensures forall r: RequestId :: r < |pcs| ==> World(paths, pcs, k, f).requests[r] == Request(paths[r], pcs[r])
  {
  }

  lemma Advance(run: seq<State>, step: Step, t: State)
    requires IsRun(run) && Takes(run[|run| - 1], step, t)
    ensures IsRun(run + [t])
  {
    hide Takes;
    var longer := run + [t];
    forall i | 0 <= i < |longer| - 1
      ensures Next(longer[i], longer[i + 1])
    {
      if i < |run| - 1 {
        assert Next(run[i], run[i + 1]);
      }
    }
  }

  /** One request acts. */
  lemma Move(
      before: seq<State>, paths: seq<Path>, pcs: seq<Pc>, k: Locks, f: Files,
      step: Step, pcs': seq<Pc>, k': Locks, f': Files)
    returns (run: seq<State>)
    requires |paths| == |pcs| == |pcs'| && IsRun(before) && before[|before| - 1] == World(paths, pcs, k, f)
    requires step.r < |pcs| && !step.Arrive?
    requires pcs' == pcs[step.r := pcs'[step.r]]
    requires Acts(k, f, step, paths[step.r], pcs[step.r], pcs'[step.r], k', f')
    ensures IsRun(run) && run[|run| - 1] == World(paths, pcs', k', f')
  {
    var s, t := World(paths, pcs, k, f), World(paths, pcs', k', f');
    hide Acts;
    assert t.requests == s.requests[step.r := Request(paths[step.r], pcs'[step.r])];
    assert Takes(s, step, t);
    Advance(before, step, t);
    run := before + [t];
  }

  lemma {:induction false} AllArrive(paths: seq<Path>, n: nat) returns (run: seq<State>)
    requires n <= |paths|
    ensures IsRun(run)
    ensures run[|run| - 1] == World(paths[..n], seq(n, _ => Arrived), INITIAL.locks, INITIAL.files)
  {
    if n == 0 {
      run := [INITIAL];
      assert INITIAL == World([], [], INITIAL.locks, INITIAL.files);
    } else {
      run := AllArrive(paths, n - 1);
      var t := World(paths[..n], seq(n, _ => Arrived), INITIAL.locks, INITIAL.files);
      var s := run[|run| - 1];
      assert t.requests == s.requests[n - 1 := Request(paths[n - 1], Arrived)];
      assert Takes(s, Arrive(n - 1, paths[n - 1]), t);
      Advance(run, Arrive(n - 1, paths[n - 1]), t);
      run := run + [t];
    }
  }

  // ----- A request on its own -----

  /** A request finds nothing and queues up. */
  lemma QueuesUp(
      before: seq<State>, paths: seq<Path>, pcs: seq<Pc>, k: Locks, f: Files, r: RequestId, newLock: LockId,
      pcs': seq<Pc>)
    returns (run: seq<State>)
    requires |paths| == |pcs| && IsRun(before) && before[|before| - 1] == World(paths, pcs, k, f)
    requires r < |pcs| && pcs[r] == Arrived && !PlaylistExists(f, paths[r]) && newLock !in k.counts
    requires pcs' == pcs[r := Waiting]
    ensures IsRun(run) && run[|run| - 1] == World(paths, pcs', CloneHandle(k, r, paths[r], newLock), f)
  {
    hide World, IsRun, CloneHandle;
    run := Move(before, paths, pcs, k, f, FastCheck(r), pcs[r := Missed], k, f);
    run := Move(run, paths, pcs[r := Missed], k, f,
                Clone(r, newLock), pcs[r := Waiting], CloneHandle(k, r, paths[r], newLock), f);
  }

  /** It gets the lock, still finds nothing, and makes the segments. */
  lemma Transcodes(before: seq<State>, paths: seq<Path>, pcs: seq<Pc>, k: Locks, f: Files, r: RequestId, pcs': seq<Pc>)
    returns (run: seq<State>)
    requires |paths| == |pcs| && IsRun(before) && before[|before| - 1] == World(paths, pcs, k, f)
    requires r < |pcs| && pcs[r] == Waiting && !PlaylistExists(f, paths[r])
    requires r in k.handles && k.handles[r] !in k.owners && pcs' == pcs[r := Transcoded]
    ensures IsRun(run)
    ensures run[|run| - 1]
         == World(paths, pcs', k.(owners := k.owners[k.handles[r] := r]), WithTemp(f, paths[r], r, COMPLETE))
  {
    hide World, IsRun;
    var k' := k.(owners := k.owners[k.handles[r] := r]);
    run := Move(before, paths, pcs, k, f, Acquire(r), pcs[r := Checking], k', f);
    run := Move(run, paths, pcs[r := Checking], k', f, Do(r, Recheck), pcs[r := Probing], k', f);
    run := Move(run, paths, pcs[r := Probing], k', f, Do(r, Probe(true)), pcs[r := Transcoding], k', f);
    run := Move(run, paths, pcs[r := Transcoding], k', f,
                Do(r, CompleteTemp), pcs[r := Transcoded], k', WithTemp(f, paths[r], r, COMPLETE));
  }

  function WithPublished(f: Files, p: Path): Files {
    f.(dirs := f.dirs[Final(p) := COMPLETE], renames := f.renames[p := Tally(f.renames, p) + 1], hurt := f.hurt - {p})
  }

  /** It renames them into place. */
  lemma Publishes(before: seq<State>, paths: seq<Path>, pcs: seq<Pc>, k: Locks, f: Files, r: RequestId, pcs': seq<Pc>)
    returns (run: seq<State>)
    requires |paths| == |pcs| && IsRun(before)
    requires r < |pcs| && pcs[r] == Transcoded && !IsInTheWay(f, paths[r]) && Temp(paths[r], r) !in f.dirs
    requires before[|before| - 1] == World(paths, pcs, k, WithTemp(f, paths[r], r, COMPLETE))
    requires pcs' == pcs[r := Published]
    ensures IsRun(run) && run[|run| - 1] == World(paths, pcs', k, WithPublished(f, paths[r]))
  {
    hide World, IsRun;
    var p, f' := paths[r], WithTemp(f, paths[r], r, COMPLETE);
    assert f'.dirs - {Temp(p, r)} == f.dirs;
    assert Renamed(f', p, r) == WithPublished(f, p);
    run := Move(before, paths, pcs, k, f', Do(r, Rename(true)), pcs[r := Published], k, WithPublished(f, p));
  }

  /** It fails its probe and gives the lock back. */
  lemma Fails(before: seq<State>, paths: seq<Path>, pcs: seq<Pc>, k: Locks, f: Files, r: RequestId, pcs': seq<Pc>)
    returns (run: seq<State>)
    requires |paths| == |pcs| && IsRun(before) && before[|before| - 1] == World(paths, pcs, k, f)
    requires r < |pcs| && pcs[r] == Waiting && !PlaylistExists(f, paths[r])
    requires r in k.handles && k.handles[r] !in k.owners && pcs' == pcs[r := Unlocked(Failed)]
    ensures IsRun(run) && run[|run| - 1] == World(paths, pcs', k, f)
  {
    hide World, IsRun;
    var k' := k.(owners := k.owners[k.handles[r] := r]);
    run := Move(before, paths, pcs, k, f, Acquire(r), pcs[r := Checking], k', f);
    run := Move(run, paths, pcs[r := Checking], k', f, Do(r, Recheck), pcs[r := Probing], k', f);
    run := Move(run, paths, pcs[r := Probing], k', f, Do(r, Probe(false)), pcs[r := Leaving(Failed)], k', f);
    assert k'.(owners := k'.owners - {k.handles[r]}) == k by {
      assert k'.owners - {k.handles[r]} == k.owners;
    }
    run := Move(run, paths, pcs[r := Leaving(Failed)], k', f, Unlock(r), pcs[r := Unlocked(Failed)], k, f);
  }

  // ----- An entry that is left behind -----

  /** Two requests hold lock 0 of rendition 7. */
  const BOTH_HOLD := Locks(map[0 := 0, 1 := 0], map[7 := 0], map[0 := 3], map[])

  lemma BothJoin() returns (run: seq<State>)
    ensures IsRun(run) && run[|run| - 1] == World([7, 7], [Waiting, Waiting], BOTH_HOLD, INITIAL.files)
  {
    hide World, IsRun;
    var none, files := INITIAL.locks, INITIAL.files;
    run := AllArrive([7, 7], 2);
    assert [7, 7][..2] == [7, 7] && seq(2, _ => Arrived) == [Arrived, Arrived];
    run := QueuesUp(run, [7, 7], [Arrived, Arrived], none, files, 0, 0, [Waiting, Arrived]);
    var one := Locks(map[0 := 0], map[7 := 0], map[0 := 2], map[]);
    assert CloneHandle(none, 0, 7, 0) == one;
    run := QueuesUp(run, [7, 7], [Waiting, Arrived], one, files, 1, 1, [Waiting, Waiting]);
    assert CloneHandle(one, 1, 7, 1) == BOTH_HOLD;
  }

  /** A complete run that ends with no request left and an entry still in the map. */
  lemma MapNeedNotEmpty() returns (run: seq<State>)
    ensures IsRun(run)
    ensures AllFinished(run[|run| - 1].requests) && run[|run| - 1].locks.segmenting != map[]
  {
    var paths, files, failed := [7, 7], INITIAL.files, Unlocked(Failed);
    run := BothJoin();
    run := Fails(run, paths, [Waiting, Waiting], BOTH_HOLD, files, 0, [Unlocked(Failed), Waiting]);
    run := Fails(run, paths, [failed, Waiting], BOTH_HOLD, files, 1, [failed, Unlocked(Failed)]);
    run := BothDrop(run);
  }

  /** Each sees a count of three: the map's reference and two handles. */
  lemma BothDrop(before: seq<State>) returns (run: seq<State>)
    requires IsRun(before)
    requires before[|before| - 1]
          == World([7, 7], [Unlocked(Failed), Unlocked(Failed)], BOTH_HOLD, INITIAL.files)
    ensures IsRun(run)
    ensures AllFinished(run[|run| - 1].requests) && 7 in run[|run| - 1].locks.segmenting
  {
    hide World, IsRun;
    var paths, files, unlocked, released, finished :=
      [7, 7], INITIAL.files, Unlocked(Failed), Released(Failed), Finished(Failed);
    run := Move(before, paths, [unlocked, unlocked], BOTH_HOLD, files,
                Release(0), [released, unlocked], BOTH_HOLD, files);
    run := Move(run, paths, [released, unlocked], BOTH_HOLD, files,
                Release(1), [released, released], BOTH_HOLD, files);
    var one := Locks(map[1 := 0], map[7 := 0], map[0 := 2], map[]);
    assert BOTH_HOLD.handles - {0} == one.handles;
    run := Move(run, paths, [released, released], BOTH_HOLD, files,
                Drop(0), [finished, released], one, files);
    var left := Locks(map[], map[7 := 0], map[0 := 1], map[]);
    assert one.handles - {1} == left.handles;
    run := Move(run, paths, [finished, released], one, files, Drop(1), [finished, finished], left, files);
    WorldIs(paths, [finished, finished], left, files);
  }

  // ----- Directories that an eviction has hurt -----

  /** Renditions 7 and 8 are versions of one; a third request is for the first again. */
  const VERSIONS: seq<Path> := [7, 8, 7]

  const BOTH_OWN := Locks(map[0 := 0, 1 := 1], map[7 := 0, 8 := 1], map[0 := 2, 1 := 2], map[0 := 0, 1 := 1])

  const BOTH_PUBLISHED :=
    Files(map[Final(7) := COMPLETE, Final(8) := COMPLETE], map[7 := 1, 8 := 1], map[], {})

  /** Both versions are published, and both requests about to evict the other's. */
  lemma BothPublish() returns (run: seq<State>)
    ensures IsRun(run) && run[|run| - 1] == World(VERSIONS, [Published, Published, Arrived], BOTH_OWN, BOTH_PUBLISHED)
  {
    hide World, IsRun;
    var paths, none, nothing := VERSIONS, INITIAL.locks, INITIAL.files;
    run := AllArrive(paths, 3);
    assert paths[..3] == paths && seq(3, _ => Arrived) == [Arrived, Arrived, Arrived];
    run := QueuesUp(run, paths, [Arrived, Arrived, Arrived], none, nothing, 0, 0, [Waiting, Arrived, Arrived]);
    var one := Locks(map[0 := 0], map[7 := 0], map[0 := 2], map[]);
    assert CloneHandle(none, 0, 7, 0) == one;
    run := Transcodes(run, paths, [Waiting, Arrived, Arrived], one, nothing, 0, [Transcoded, Arrived, Arrived]);
    var owned := one.(owners := map[0 := 0]);
    run := Publishes(run, paths, [Transcoded, Arrived, Arrived], owned, nothing, 0, [Published, Arrived, Arrived]);
    run := SecondPublishes(run, owned, WithPublished(nothing, 7));
  }

  lemma SecondPublishes(before: seq<State>, owned: Locks, first: Files) returns (run: seq<State>)
    requires owned == Locks(map[0 := 0], map[7 := 0], map[0 := 2], map[0 := 0])
    requires first == Files(map[Final(7) := COMPLETE], map[7 := 1], map[], {})
    requires IsRun(before) && before[|before| - 1] == World(VERSIONS, [Published, Arrived, Arrived], owned, first)
    ensures IsRun(run) && run[|run| - 1] == World(VERSIONS, [Published, Published, Arrived], BOTH_OWN, BOTH_PUBLISHED)
  {
    hide World, IsRun;
    var paths := VERSIONS;
    run := QueuesUp(before, paths, [Published, Arrived, Arrived], owned, first, 1, 1, [Published, Waiting, Arrived]);
    var two := Locks(map[0 := 0, 1 := 1], map[7 := 0, 8 := 1], map[0 := 2, 1 := 2], map[0 := 0]);
    assert CloneHandle(owned, 1, 8, 1) == two;
    run := Transcodes(run, paths, [Published, Waiting, Arrived], two, first, 1, [Published, Transcoded, Arrived]);
    run := Publishes(run, paths, [Published, Transcoded, Arrived], BOTH_OWN, first, 1, [Published, Published, Arrived]);
    assert WithPublished(first, 8) == BOTH_PUBLISHED;
  }

  /** While the second version's request empties the first's directory, a request for the first sees its playlist
      and is served, with segments gone. */
  lemma HalfEvictedIsServed() returns (run: seq<State>)
    ensures IsRun(run) && At(run[|run| - 1].requests, 2, Finished(Served))
    ensures run[|run| - 1].requests[2].path == 7
    ensures Links(run[|run| - 1].files.dirs, Final(7), Contents(true, Partial))
  {
    var paths := VERSIONS;
    run := BothPublish();
    var hurt := FileRemoved(BOTH_PUBLISHED, 7, Contents(true, Partial));
    run := Move(run, paths, [Published, Published, Arrived], BOTH_OWN, BOTH_PUBLISHED,
                Do(1, RemoveFile(7, Contents(true, Partial))), [Published, Published, Arrived], BOTH_OWN, hurt);
    run := Move(run, paths, [Published, Published, Arrived], BOTH_OWN, hurt,
                FastCheck(2), [Published, Published, Finished(Served)], BOTH_OWN, hurt);
    WorldIs(paths, [Published, Published, Finished(Served)], BOTH_OWN, hurt);
  }

  /** What is left of the first directory if its playlist goes and then the removal stops. */
  const PLAYLIST_GONE :=
    Files(map[Final(7) := Contents(false, Whole), Final(8) := COMPLETE], map[7 := 1, 8 := 1], map[7 := 1], {7})

  /** And where the eviction stops after the playlist, the remains are in the way of the next request's rename. */
  lemma HalfEvictedBlocks() returns (run: seq<State>)
    ensures IsRun(run) && At(run[|run| - 1].requests, 2, Leaving(Failed))
    ensures run[|run| - 1].requests[2].path == 7 && IsBlocked(run[|run| - 1].files, 7)
  {
    var paths := VERSIONS;
    run := BothPublish();
    assert FileRemoved(BOTH_PUBLISHED, 7, Contents(false, Whole)) == PLAYLIST_GONE;
    run := Move(run, paths, [Published, Published, Arrived], BOTH_OWN, BOTH_PUBLISHED,
                Do(1, RemoveFile(7, Contents(false, Whole))), [Published, Published, Arrived], BOTH_OWN, PLAYLIST_GONE);
    run := Move(run, paths, [Published, Published, Arrived], BOTH_OWN, PLAYLIST_GONE,
                Do(1, StopEvicting), [Published, Leaving(Served), Arrived], BOTH_OWN, PLAYLIST_GONE);
    run := FirstLeaves(run);
    run := LastIsBlocked(run);
  }

  /** The first request gives its lock back. */
  lemma FirstLeaves(before: seq<State>) returns (run: seq<State>)
    requires IsRun(before)
    requires before[|before| - 1] == World(VERSIONS, [Published, Leaving(Served), Arrived], BOTH_OWN, PLAYLIST_GONE)
    ensures IsRun(run)
    ensures run[|run| - 1] == World(VERSIONS, [Unlocked(Served), Leaving(Served), Arrived],
                                    BOTH_OWN.(owners := map[1 := 1]), PLAYLIST_GONE)
  {
    hide World, IsRun;
    var paths := VERSIONS;
    run := Move(before, paths, [Published, Leaving(Served), Arrived], BOTH_OWN, PLAYLIST_GONE,
                Do(0, StopEvicting), [Leaving(Served), Leaving(Served), Arrived], BOTH_OWN, PLAYLIST_GONE);
    assert BOTH_OWN.owners - {0} == map[1 := 1];
    run := Move(run, paths, [Leaving(Served), Leaving(Served), Arrived], BOTH_OWN, PLAYLIST_GONE,
                Unlock(0), [Unlocked(Served), Leaving(Served), Arrived], BOTH_OWN.(owners := map[1 := 1]),
                PLAYLIST_GONE);
  }

  lemma LastIsBlocked(before: seq<State>) returns (run: seq<State>)
    requires IsRun(before)
    requires before[|before| - 1] == World(VERSIONS, [Unlocked(Served), Leaving(Served), Arrived],
                                           BOTH_OWN.(owners := map[1 := 1]), PLAYLIST_GONE)
    ensures IsRun(run) && At(run[|run| - 1].requests, 2, Leaving(Failed))
    ensures run[|run| - 1].requests[2].path == 7 && IsBlocked(run[|run| - 1].files, 7)
  {
    hide World, IsRun;
    var paths, first, second := VERSIONS, Unlocked(Served), Leaving(Served);
    var k := BOTH_OWN.(owners := map[1 := 1]);
    run := QueuesUp(before, paths, [first, second, Arrived], k, PLAYLIST_GONE, 2, 2, [first, second, Waiting]);
    var joined := Locks(map[0 := 0, 1 := 1, 2 := 0], map[7 := 0, 8 := 1], map[0 := 3, 1 := 2], map[1 := 1]);
    assert CloneHandle(k, 2, 7, 2) == joined;
    run := Transcodes(run, paths, [first, second, Waiting], joined, PLAYLIST_GONE, 2, [first, second, Transcoded]);
    run := RenameFails(run, [first, second, Transcoded], joined.(owners := joined.owners[0 := 2]));
  }

  lemma RenameFails(before: seq<State>, pcs: seq<Pc>, k: Locks) returns (run: seq<State>)
    requires IsRun(before) && |pcs| == 3 && pcs[2] == Transcoded
    requires before[|before| - 1] == World(VERSIONS, pcs, k, WithTemp(PLAYLIST_GONE, 7, 2, COMPLETE))
    ensures IsRun(run) && At(run[|run| - 1].requests, 2, Leaving(Failed))
    ensures run[|run| - 1].requests[2].path == 7 && IsBlocked(run[|run| - 1].files, 7)
  {
    hide World, IsRun;
    var f := WithTemp(PLAYLIST_GONE, 7, 2, COMPLETE);
    var f' := WithoutTemp(f, 7, 2);
    run := Move(before, VERSIONS, pcs, k, f, Do(2, Rename(true)), pcs[2 := Leaving(Failed)], k, f');
    WorldIs(VERSIONS, pcs[2 := Leaving(Failed)], k, f');
  }
}
