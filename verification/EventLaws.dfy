/** What a run of the tool comes to in terms of the events as they were stored: whose UID is what, and who is kept. */
module EventLaws {
  import opened Wrappers
  import opened EventTables
  import opened EventCollapse
  import opened EventOutcome
  import opened EventRuns

  /** The UID an event goes by: the one under the old key where there is one. */
  function StoredUid(event: Event): Option<string> {
    if event.oldUid.Some? then event.oldUid else event.uid
  }

  /** A synced event with the UID. */
  predicate IsSyncedAs(t: Tables, event: int, uid: string) {
    event in t.events && event in t.posts && t.posts[event].synced && StoredUid(t.events[event]) == Some(uid)
  }

  /** Created earlier, or at the same time with the smaller id. */
  predicate IsEarlier(t: Tables, a: int, b: int)
    requires a in t.events && b in t.events
  {
    t.events[a].createdAt < t.events[b].createdAt || (t.events[a].createdAt == t.events[b].createdAt && a < b)
  }

  ghost predicate HasEarlierTwin(t: Tables, uid: string, event: int) {
    IsSyncedAs(t, event, uid)
    && exists twin <- t.events :: IsSyncedAs(t, twin, uid) && IsEarlier(t, twin, event)
  }

  ghost predicate IsEarliest(t: Tables, uid: string, event: int) {
    IsSyncedAs(t, event, uid)
    && forall twin <- t.events :: IsSyncedAs(t, twin, uid) && twin != event ==> IsEarlier(t, event, twin)
  }

  /** Gone are the events of the UIDs collapsed that had an earlier twin, each to the earliest of its UID; what is left
      has its UID under the new key. */
  ghost predicate EarliestStay(t0: Tables, t: Tables, collapsed: set<string>, home: Homes) {
    && (forall e :: e in home <==> exists uid <- collapsed :: HasEarlierTwin(t0, uid, e))
    && (forall e <- home :: exists uid <- collapsed :: IsSyncedAs(t0, e, uid) && IsEarliest(t0, uid, home[e]))
    && (forall e :: e in t.events <==> e in t0.events && e !in home)
    && (forall e <- t.events ::
          && t.events[e].createdAt == t0.events[e].createdAt && t.events[e].uid == StoredUid(t0.events[e])
          && t.events[e].oldUid.None?)
  }

  lemma UidsAreStored(t: Tables, event: int, uid: string)
    ensures HasUid(Renamed(t), event, uid) <==> IsSyncedAs(t, event, uid)
  {
  }

  lemma AgesAreStored(t: Tables, a: int, b: int)
    requires a in t.events && b in t.events
    ensures a in Renamed(t).events && b in Renamed(t).events
    ensures IsOlder(Renamed(t).events, a, b) <==> IsEarlier(t, a, b)
  {
  }

  lemma EldersAreEarlier(t: Tables, uid: string, a: int, b: int)
    ensures IsElder(Renamed(t), uid, a, b) <==> IsSyncedAs(t, a, uid) && IsSyncedAs(t, b, uid) && IsEarlier(t, a, b)
  {
    UidsAreStored(t, a, uid);
    UidsAreStored(t, b, uid);
    if IsSyncedAs(t, a, uid) && IsSyncedAs(t, b, uid) {
      AgesAreStored(t, a, b);
    }
    hide HasUid, Renamed, IsOlder;
  }

  lemma SupersededMeansTwin(t: Tables, collapsed: set<string>, e: int)
    ensures IsSuperseded(Renamed(t), collapsed, e) <==> exists uid <- collapsed :: HasEarlierTwin(t, uid, e)
  {
    hide IsElder, Renamed;
    if IsSuperseded(Renamed(t), collapsed, e) {
      var uid, elder :| uid in collapsed && IsElder(Renamed(t), uid, elder, e);
      EldersAreEarlier(t, uid, elder, e);
      assert HasEarlierTwin(t, uid, e);
    }
    if uid :| uid in collapsed && HasEarlierTwin(t, uid, e) {
      var twin :| twin in t.events && IsSyncedAs(t, twin, uid) && IsEarlier(t, twin, e);
      EldersAreEarlier(t, uid, twin, e);
    }
  }

  lemma OldestIsEarliest(t: Tables, uid: string, event: int)
    requires IsOldestOf(Renamed(t), uid, event)
    ensures IsEarliest(t, uid, event)
  {
    UidsAreStored(t, event, uid);
    hide IsElder, HasUid, Renamed;
    forall twin <- t.events | IsSyncedAs(t, twin, uid) && twin != event ensures IsEarlier(t, event, twin) {
      UidsAreStored(t, twin, uid);
      EldersAreEarlier(t, uid, event, twin);
    }
  }

  lemma EventsAreStored(t: Tables)
    ensures Renamed(t).events.Keys == t.events.Keys
    ensures forall e <- t.events :: Renamed(t).events[e] == Event(None, StoredUid(t.events[e]), t.events[e].createdAt)
  {
  }

  lemma EventsLeft(t0: Tables, t: Tables, home: Homes, lossless: bool)
    requires Outcome(t0, t, home, lossless)
    ensures t.events == t0.events - home.Keys
  {
    hide Integrity, RsvpsKept, OccasionsKept, LinksKept, PostsKept, DatesMerged, MediaSupplied;
  }

  lemma HomesAre(t: Tables, collapsed: set<string>, home: Homes, e: int)
    requires ToOldest(Renamed(t), collapsed, home)
    ensures e in home <==> exists uid <- collapsed :: HasEarlierTwin(t, uid, e)
    ensures e in home ==> exists uid <- collapsed :: IsSyncedAs(t, e, uid) && IsEarliest(t, uid, home[e])
    ensures e in home ==> e in t.events
  {
    hide HasEarlierTwin, IsSuperseded, IsOldestFor, IsEarliest, HasUid, Renamed;
    SupersededMeansTwin(t, collapsed, e);
    if e in home {
      var uid := OldestUid(Renamed(t), collapsed, home, e);
      UidsAreStored(t, e, uid);
      OldestIsEarliest(t, uid, home[e]);
    }
  }

  /** In these terms, what a run is proved to come to. */
  lemma RunKeepsEarliest(t0: Tables, t: Tables, collapsed: set<string>, home: Homes, lossless: bool)
    requires Outcome(Renamed(t0), t, home, lossless) && ToOldest(Renamed(t0), collapsed, home)
    ensures EarliestStay(t0, t, collapsed, home)
  {
    hide HasEarlierTwin, IsEarliest, IsSyncedAs, Renamed, ToOldest, Outcome;
    EventsAreStored(t0);
    EventsLeft(Renamed(t0), t, home, lossless);
    forall e
      ensures e in home <==> exists uid <- collapsed :: HasEarlierTwin(t0, uid, e)
      ensures e in home ==> exists uid <- collapsed :: IsSyncedAs(t0, e, uid) && IsEarliest(t0, uid, home[e])
      ensures e in home ==> e in t0.events
    {
      HomesAre(t0, collapsed, home, e);
    }
  }
}
