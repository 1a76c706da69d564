/** The lock protocol of `web::media_hls`: concurrent requests for a rendition's HLS segments share one
    `ffmpeg` pass through a global map of reference-counted locks.

    Every constructor of `Step` is one atomic action of one request.  Actions between two `await`s that
    touch only the request's own data are folded into their neighbours; everything done under the mutex of
    `SEGMENTING` is one action, and dropping a handle after that mutex is released is a separate one. */
module SegmentingLock {
  /** A rendition's object storage path; only ever compared. */
  type Path = nat
  type LockId = nat
  type RequestId = nat

  datatype Outcome = Served | Failed

  /** Where a request stands in `ensure_segments`/`segment_exclusively`/`release_segmenting_lock`. */
  datatype Pc =
    | Arrived                    // before the fast check
    | Missed                     // the fast check found no playlist
    | Waiting                    // owns a handle and waits for the lock
    | Checking                   // has the lock, before the re-check
    | Probing                    // the re-check found no playlist
    | Transcoding                // `ffmpeg` is writing the temporary directory
    | Transcoded                 // the temporary directory is complete, the rename is next
    | Published                  // renamed, and evicting other versions' directories
    | Leaving(outcome: Outcome)  // the result is known, the guard is still held
    | Unlocked(outcome: Outcome) // the guard is dropped, `release_segmenting_lock` is next
    | Released(outcome: Outcome) // the count was tested, the handle is not dropped yet
    | Finished(outcome: Outcome)

  datatype Request = Request(path: Path, pc: Pc)

  type Requests = map<RequestId, Request>

  /** A lock is allocated once and its identity never reused. */
  datatype Locks = Locks(
    handles: map<RequestId, LockId>,   // each request's clone of the `Arc`
    segmenting: map<Path, LockId>,     // SEGMENTING
    counts: map<LockId, nat>,          // Arc::strong_count
    owners: map<LockId, RequestId>     // who holds each lock's guard
  )

  datatype Dir = Final(path: Path) | Temp(path: Path, owner: RequestId)

  /** How many of a directory's segments are there. */
  datatype Extent = Whole | Partial | Nothing

  datatype Contents = Contents(playlist: bool, segments: Extent)

  const COMPLETE := Contents(true, Whole)
  const EMPTY := Contents(false, Nothing)

  /** The directories below the process's temporary directory; how often each rendition's own one was renamed into
      place, and how often an eviction then began to empty it; and which were `hurt` so since the last renaming. */
  datatype Files =
    Files(dirs: map<Dir, Contents>, renames: map<Path, nat>, evictions: map<Path, nat>, hurt: set<Path>)

  datatype State = State(requests: Requests, locks: Locks, files: Files)

  const INITIAL := State(map[], Locks(map[], map[], map[], map[]), Files(map[], map[], map[], {}))

  function Tally(m: map<Path, nat>, p: Path): nat {
    if p in m then m[p] else 0
  }

  predicate PlaylistExists(f: Files, p: Path) {
    Final(p) in f.dirs && f.dirs[Final(p)].playlist
  }

  predicate At(requests: Requests, r: RequestId, pc: Pc) {
    r in requests && requests[r].pc == pc
  }

  // ----- The locks -----

  function Incremented(counts: map<LockId, nat>, l: LockId): map<LockId, nat> {
    counts[l := if l in counts then counts[l] + 1 else 1]
  }

  function Decremented(counts: map<LockId, nat>, l: LockId): map<LockId, nat> {
    counts[l := if l in counts && counts[l] > 0 then counts[l] - 1 else 0]
  }

  /** `SEGMENTING.lock().entry(path).or_default().clone()`. */
  function CloneHandle(k: Locks, r: RequestId, p: Path, newLock: LockId): Locks {
    var j := if p in k.segmenting then k
             else k.(segmenting := k.segmenting[p := newLock], counts := Incremented(k.counts, newLock));
    j.(handles := j.handles[r := j.segmenting[p]], counts := Incremented(j.counts, j.segmenting[p]))
  }

  /** `release_segmenting_lock` up to the point where the map's guard is dropped. */
  function TestAndForget(k: Locks, r: RequestId, p: Path): Locks
    requires r in k.handles
  {
    if k.handles[r] in k.counts && k.counts[k.handles[r]] <= 2 && p in k.segmenting then
      k.(segmenting := k.segmenting - {p}, counts := Decremented(k.counts, k.segmenting[p]))
    else
      k
  }

  function DropHandle(k: Locks, r: RequestId): Locks
    requires r in k.handles
  {
    k.(handles := k.handles - {r}, counts := Decremented(k.counts, k.handles[r]))
  }

  // ----- The files -----

  function WithTemp(f: Files, p: Path, r: RequestId, c: Contents): Files {
    f.(dirs := f.dirs[Temp(p, r) := c])
  }

  function WithoutTemp(f: Files, p: Path, r: RequestId): Files {
    f.(dirs := f.dirs - {Temp(p, r)})
  }

  /** There is a directory, and something in it. */
  predicate IsInTheWay(f: Files, p: Path) {
    Final(p) in f.dirs && f.dirs[Final(p)] != EMPTY
  }

  /** `std::fs::rename` replaces an empty directory and fails on any other. */
  predicate CanRename(f: Files, p: Path, r: RequestId) {
    Temp(p, r) in f.dirs && !IsInTheWay(f, p)
  }

  function Renamed(f: Files, p: Path, r: RequestId): Files
    requires CanRename(f, p, r)
  {
    f.(dirs := (f.dirs - {Temp(p, r)})[Final(p) := f.dirs[Temp(p, r)]],
       renames := f.renames[p := Tally(f.renames, p) + 1],
       hurt := f.hurt - {p})
  }

  /** What one more file less may leave. */
  predicate Shrinks(before: Contents, after: Contents) {
    && (after.playlist ==> before.playlist)
    && (after.segments == before.segments || after.segments == Nothing
        || (before.segments == Whole && after.segments == Partial))
  }

  /** An eviction has begun on `p`'s directory, or goes on. */
  function Hurt(f: Files, p: Path): Files {
    if p in f.hurt then f
    else f.(evictions := f.evictions[p := Tally(f.evictions, p) + 1], hurt := f.hurt + {p})
  }

  function FileRemoved(f: Files, p: Path, left: Contents): Files {
    Hurt(f, p).(dirs := f.dirs[Final(p) := left])
  }

  function DirRemoved(f: Files, p: Path): Files {
    Hurt(f, p).(dirs := f.dirs - {Final(p)})
  }

  // ----- The actions -----

  /** What a request does while it has the lock.  `Probe(false)`: the probe or the download failed, or the
      rendition cannot be streamed.  `ffmpeg` may write the playlist before the last segment.  `cleaned`: the
      removal of the temporary directory may fail.  An eviction empties another version's directory file by file
      and removes it when it is empty; it may stop anywhere, and its errors are ignored. */
  datatype Work =
    | Recheck
    | Probe(ok: bool)
    | WriteTemp(playlist: bool)
    | CompleteTemp
    | AbortTemp(cleaned: bool)
    | Rename(cleaned: bool)
    | RemoveFile(victim: Path, left: Contents)
    | RemoveDir(victim: Path)
    | StopEvicting

  datatype Step =
    | Arrive(r: RequestId, path: Path)
    | FastCheck(r: RequestId)
    | Clone(r: RequestId, newLock: LockId)
    | Acquire(r: RequestId)
    | Do(r: RequestId, work: Work)
    | Unlock(r: RequestId)
    | Release(r: RequestId)
    | Drop(r: RequestId)

  /** `work`, done at `pc` for `p`, leads from `f` to `pc'` and `f'`. */
  ghost predicate Works(f: Files, r: RequestId, p: Path, pc: Pc, work: Work, pc': Pc, f': Files) {
    match work
    case Recheck =>
      pc == Checking && f' == f && pc' == if PlaylistExists(f, p) then Leaving(Served) else Probing
    case Probe(ok) =>
      pc == Probing && f' == f && pc' == if ok then Transcoding else Leaving(Failed)
    case WriteTemp(playlist) =>
      pc == Transcoding && pc' == Transcoding && f' == WithTemp(f, p, r, Contents(playlist, Partial))
    case CompleteTemp =>
      pc == Transcoding && pc' == Transcoded && f' == WithTemp(f, p, r, COMPLETE)
    case AbortTemp(cleaned) =>
      (pc == Transcoding || pc == Transcoded) && pc' == Leaving(Failed)
      && f' == if cleaned then WithoutTemp(f, p, r) else f
    case Rename(cleaned) =>
      pc == Transcoded
      && if CanRename(f, p, r) then pc' == Published && f' == Renamed(f, p, r)
         else pc' == Leaving(Failed) && f' == if cleaned then WithoutTemp(f, p, r) else f
    case RemoveFile(victim, left) =>
      pc == Published && pc' == Published && victim != p
      && Final(victim) in f.dirs && Shrinks(f.dirs[Final(victim)], left) && f' == FileRemoved(f, victim, left)
    case RemoveDir(victim) =>
      pc == Published && pc' == Published && victim != p
      && Final(victim) in f.dirs && f.dirs[Final(victim)] == EMPTY && f' == DirRemoved(f, victim)
    case StopEvicting =>
      pc == Published && pc' == Leaving(Served) && f' == f
  }

  /** One action of request `r`, standing at `pc`, on everything shared. */
  ghost predicate Acts(k: Locks, f: Files, step: Step, p: Path, pc: Pc, pc': Pc, k': Locks, f': Files) {
    match step
    case Arrive(r, _) => false
    case FastCheck(r) =>
      pc == Arrived && k' == k && f' == f && pc' == if PlaylistExists(f, p) then Finished(Served) else Missed
    case Clone(r, newLock) =>
      pc == Missed && newLock !in k.counts && pc' == Waiting && k' == CloneHandle(k, r, p, newLock) && f' == f
    case Acquire(r) =>
      pc == Waiting && r in k.handles && k.handles[r] !in k.owners
      && pc' == Checking && k' == k.(owners := k.owners[k.handles[r] := r]) && f' == f
    case Do(r, work) => k' == k && Works(f, r, p, pc, work, pc', f')
    case Unlock(r) =>
      pc.Leaving? && r in k.handles
      && pc' == Unlocked(pc.outcome) && k' == k.(owners := k.owners - {k.handles[r]}) && f' == f
    case Release(r) =>
      pc.Unlocked? && r in k.handles && pc' == Released(pc.outcome) && k' == TestAndForget(k, r, p) && f' == f
    case Drop(r) =>
      pc.Released? && r in k.handles && pc' == Finished(pc.outcome) && k' == DropHandle(k, r) && f' == f
  }

  ghost predicate Takes(s: State, step: Step, t: State) {
    if step.Arrive? then
      step.r !in s.requests && t == s.(requests := s.requests[step.r := Request(step.path, Arrived)])
    else
      && step.r in s.requests && step.r in t.requests
      && t.requests == s.requests[step.r := Request(s.requests[step.r].path, t.requests[step.r].pc)]
      && Acts(s.locks, s.files, step, s.requests[step.r].path, s.requests[step.r].pc,
              t.requests[step.r].pc, t.locks, t.files)
  }

  ghost predicate Next(s: State, t: State) {
    exists step :: Takes(s, step, t)
  }

  /** A run: any interleaving of any number of requests, from a freshly started process. */
  ghost predicate IsRun(run: seq<State>) {
    && |run| > 0
    && run[0] == INITIAL
    && forall i :: 0 <= i < |run| - 1 ==> Next(run[i], run[i + 1])
  }

  // ----- What the protocol keeps -----

  predicate InCriticalSection(pc: Pc) {
    pc.Checking? || pc.Probing? || pc.Transcoding? || pc.Transcoded? || pc.Published? || pc.Leaving?
  }

  /** Between cloning the handle and the count test. */
  predicate NotReleased(pc: Pc) {
    pc.Waiting? || InCriticalSection(pc) || pc.Unlocked?
  }

  predicate HasHandle(pc: Pc) {
    NotReleased(pc) || pc.Released?
  }

  /** Between the re-check and the rename. */
  predicate MakesSegments(pc: Pc) {
    pc.Probing? || pc.Transcoding? || pc.Transcoded?
  }

  /** Past a successful look at the published directory. */
  predicate SawPublished(pc: Pc) {
    pc.Published? || ((pc.Leaving? || pc.Unlocked? || pc.Released? || pc.Finished?) && pc.outcome == Served)
  }

  ghost predicate Links<K, V>(m: map<K, V>, k: K, v: V) {
    k in m && m[k] == v
  }

  predicate Inside(requests: Requests, r: RequestId) {
    r in requests && InCriticalSection(requests[r].pc)
  }

  /** The live references to `l` in a table of handles (the requests' or the map's). */
  function Referrers<K>(table: map<K, LockId>, l: LockId): set<K> {
    set k | k in table && table[k] == l
  }

  /** A request has a handle exactly from the clone to the drop. */
  ghost predicate HandlesInv(requests: Requests, handles: map<RequestId, LockId>) {
    forall r :: r in handles <==> r in requests && HasHandle(requests[r].pc)
  }

  /** The comment's argument, first half: the count is exact. */
  ghost predicate CountsInv(k: Locks) {
    && (forall l :: l in k.counts ==>
          k.counts[l] == |Referrers(k.handles, l)| + |Referrers(k.segmenting, l)|)
    && (forall r :: r in k.handles ==> k.handles[r] in k.counts)
    && (forall p :: p in k.segmenting ==> k.segmenting[p] in k.counts)
  }

  /** The comment's argument, second half: a live, unreleased handle is the one the map hands out. */
  ghost predicate MapInv(requests: Requests, handles: map<RequestId, LockId>, segmenting: map<Path, LockId>) {
    && (forall r :: r in requests && NotReleased(requests[r].pc) ==>
          r in handles && Links(segmenting, requests[r].path, handles[r]))
    && (forall p, q :: p in segmenting && q in segmenting && segmenting[p] == segmenting[q] ==> p == q)
  }

  ghost predicate OwnersInv(requests: Requests, handles: map<RequestId, LockId>, owners: map<LockId, RequestId>) {
    && (forall r, l :: Inside(requests, r) && Links(handles, r, l) ==> Links(owners, l, r))
    && (forall r, l :: Links(owners, l, r) ==> Inside(requests, r) && Links(handles, r, l))
  }

  ghost predicate DirsInv(requests: Requests, f: Files) {
    && (forall p :: Final(p) in f.dirs && p !in f.hurt ==> f.dirs[Final(p)] == COMPLETE)
    && (forall r :: r in requests && requests[r].pc.Transcoded? ==>
          Links(f.dirs, Temp(requests[r].path, r), COMPLETE))
    && (forall r :: r in requests && MakesSegments(requests[r].pc) ==> !PlaylistExists(f, requests[r].path))
  }

  /** A rendition's directory is there and whole as often as it was renamed into place and no eviction began. */
  ghost predicate BalanceInv(f: Files) {
    forall p :: Balanced(f, p)
  }

  ghost predicate Balanced(f: Files, p: Path) {
    && Tally(f.renames, p) == Tally(f.evictions, p) + (if Final(p) in f.dirs && p !in f.hurt then 1 else 0)
    && (p in f.hurt ==> Tally(f.evictions, p) > 0)
  }

  ghost predicate ServedInv(requests: Requests, renames: map<Path, nat>) {
    forall r :: r in requests && SawPublished(requests[r].pc) ==> Tally(renames, requests[r].path) > 0
  }

  ghost predicate Inv(s: State) {
    && HandlesInv(s.requests, s.locks.handles)
    && CountsInv(s.locks)
    && MapInv(s.requests, s.locks.handles, s.locks.segmenting)
    && OwnersInv(s.requests, s.locks.handles, s.locks.owners)
    && DirsInv(s.requests, s.files)
    && BalanceInv(s.files)
    && ServedInv(s.requests, s.files.renames)
  }
}
