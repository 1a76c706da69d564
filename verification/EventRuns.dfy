/** A whole run: the groups by UID, whom their events go to, and what decides whether a group is collapsed.

    A run goes through the UIDs in some order.  `Progress` says what the tables have come to so far, and `Settled`
    that each UID gone through was decided by the tables at the start, and that the others still will be. */
module EventRuns {
  import opened Wrappers
  import opened EventTables
  import opened EventCollapse
  import opened EventOutcome
  import opened EventGroups
  import opened EventDates
  import opened EventObstacles
  import opened EventSequence

  // ----- The groups -----

  /** Step 1: the UID under its new key. */
  function KeysRenamed(events: Events): Events {
    map e <- events :: if events[e].oldUid.Some? then Event(None, events[e].oldUid, events[e].createdAt) else events[e]
  }

  function Renamed(t: Tables): Tables {
    t.(events := KeysRenamed(t.events))
  }

  lemma RenamedIs(t: Tables)
    requires Integrity(t)
    ensures Renamed(t) == t.(events := KeysRenamed(t.events)) && Integrity(Renamed(t))
    ensures Renamed(t).posts == t.posts && Renamed(t).events.Keys == t.events.Keys
  {
    hide Unique, LinksRefer, PostsRefer;
  }

  predicate HasUid(t: Tables, event: int, uid: string) {
    event in t.events && event in t.posts && t.posts[event].synced && t.events[event].uid == Some(uid)
  }

  function GroupOf(t: Tables, uid: string): set<int> {
    set e <- t.events | HasUid(t, e, uid)
  }

  lemma InGroup(t: Tables, uid: string, event: int)
    ensures event in GroupOf(t, uid) <==> HasUid(t, event, uid)
    ensures HasUid(t, event, uid) ==> event in t.events
  {
  }

  lemma UidOf(t: Tables, event: int, a: string, b: string)
    requires HasUid(t, event, a) && HasUid(t, event, b)
    ensures a == b
  {
  }

  /** The order of `sort_by_key`: by creation, then by id. */
  predicate IsOlder(events: Events, a: int, b: int)
    requires a in events && b in events
  {
    events[a].createdAt < events[b].createdAt || (events[a].createdAt == events[b].createdAt && a < b)
  }

  ghost predicate SortedByAge(events: Events, group: set<int>, sorted: seq<int>) {
    && (forall e :: e in sorted <==> e in group)
    && (forall e <- sorted :: e in events)
    && (forall i, j :: 0 <= i < j < |sorted| ==> IsOlder(events, sorted[i], sorted[j]))
  }

  lemma BeforeIsOlder(events: Events, group: set<int>, sorted: seq<int>, a: int, b: int)
    requires SortedByAge(events, group, sorted)
    ensures ComesBefore(sorted, a, b) ==>
      a in group && b in group && a in events && b in events && IsOlder(events, a, b)
  {
    if ComesBefore(sorted, a, b) {
      BothAmong(sorted, a, b);
      var i, j :| 0 <= i < j < |sorted| && sorted[i] == a && sorted[j] == b;
    }
  }

  /** What comes before is what is older. */
  lemma AgeOrder(events: Events, group: set<int>, sorted: seq<int>, a: int, b: int)
    requires SortedByAge(events, group, sorted)
    ensures ComesBefore(sorted, a, b) <==>
      a in group && b in group && a in events && b in events && IsOlder(events, a, b)
  {
    BeforeIsOlder(events, group, sorted, a, b);
    BeforeIsOlder(events, group, sorted, b, a);
    if a in group && b in group {
      OneOrTheOther(sorted, a, b);
    }
    hide ComesBefore;
  }

  /** An older event of the UID. */
  ghost predicate IsElder(t: Tables, uid: string, a: int, b: int) {
    HasUid(t, a, uid) && HasUid(t, b, uid) && IsOlder(t.events, a, b)
  }

  lemma SortedElders(t: Tables, uid: string, sorted: seq<int>)
    requires SortedByAge(t.events, GroupOf(t, uid), sorted)
    ensures forall a, b :: IsElder(t, uid, a, b) <==> ComesBefore(sorted, a, b)
  {
    forall a, b ensures IsElder(t, uid, a, b) <==> ComesBefore(sorted, a, b) {
      AgeOrder(t.events, GroupOf(t, uid), sorted, a, b);
      InGroup(t, uid, a);
      InGroup(t, uid, b);
      hide SortedByAge, GroupOf, HasUid, IsOlder, ComesBefore;
    }
  }

  lemma BeforeFirst(sorted: seq<int>, a: int, b: int)
    requires sorted != []
    ensures ComesBefore(sorted, a, b) <==> (a == sorted[0] && b in sorted[1..]) || ComesBefore(sorted[1..], a, b)
  {
    if ComesBefore(sorted, a, b) {
      var i, j :| 0 <= i < j < |sorted| && sorted[i] == a && sorted[j] == b;
      assert sorted[1..][j - 1] == b;
      assert i > 0 ==> sorted[1..][i - 1] == a;
    }
    if a == sorted[0] && b in sorted[1..] {
      var j :| 0 <= j < |sorted[1..]| && sorted[1..][j] == b;
      assert sorted[j + 1] == b;
    }
    if ComesBefore(sorted[1..], a, b) {
      var i, j :| 0 <= i < j < |sorted[1..]| && sorted[1..][i] == a && sorted[1..][j] == b;
      assert sorted[i + 1] == a && sorted[j + 1] == b;
    }
  }

  /** The duplicates of a group are the events with an elder in it. */
  lemma DuplicatesHaveElders(t: Tables, uid: string, sorted: seq<int>)
    requires sorted != [] && SortedByAge(t.events, GroupOf(t, uid), sorted)
    ensures forall e :: e in sorted[1..] <==> exists elder :: IsElder(t, uid, elder, e)
    ensures HasUid(t, sorted[0], uid) && sorted[0] !in sorted[1..]
  {
    SortedElders(t, uid, sorted);
    forall e ensures e in sorted[1..] <==> exists elder :: ComesBefore(sorted, elder, e) {
      BeforeFirst(sorted, sorted[0], e);
      if elder :| ComesBefore(sorted, elder, e) {
        BeforeFirst(sorted, elder, e);
        if e !in sorted[1..] {
          BothAmong(sorted[1..], elder, e);
        }
      }
    }
    assert sorted[0] in sorted;
    InGroup(t, uid, sorted[0]);
    assert !IsElder(t, uid, sorted[0], sorted[0]);
    hide SortedByAge, GroupOf, HasUid, ComesBefore, IsElder;
  }

  // ----- Whom the events go to -----

  ghost predicate IsSuperseded(t: Tables, collapsed: set<string>, event: int) {
    exists uid <- collapsed, elder :: IsElder(t, uid, elder, event)
  }

  ghost predicate IsOldestOf(t: Tables, uid: string, oldest: int) {
    HasUid(t, oldest, uid) && forall e :: HasUid(t, e, uid) && e != oldest ==> IsElder(t, uid, oldest, e)
  }

  /** The oldest event of the UID that `event` has. */
  ghost predicate IsOldestFor(t: Tables, event: int, oldest: int) {
    exists uid :: IsOldestOf(t, uid, oldest) && HasUid(t, event, uid)
  }

  /** The events with an elder of one of the UIDs collapsed have gone to the oldest of their UID. */
  ghost predicate ToOldest(t: Tables, collapsed: set<string>, home: Homes) {
    && (forall event :: event in home <==> IsSuperseded(t, collapsed, event))
    && (forall event <- home :: IsOldestFor(t, event, home[event]))
  }

  lemma SupersededUid(t: Tables, collapsed: set<string>, event: int) returns (uid: string, elder: int)
    requires IsSuperseded(t, collapsed, event)
    ensures uid in collapsed && HasUid(t, event, uid) && IsElder(t, uid, elder, event)
  {
    uid, elder :| uid in collapsed && IsElder(t, uid, elder, event);
    hide HasUid, IsOlder;
  }

  /** Whom an event has gone to. */
  lemma OldestUid(t: Tables, collapsed: set<string>, home: Homes, d: int) returns (uid: string)
    requires ToOldest(t, collapsed, home) && d in home
    ensures uid in collapsed && HasUid(t, d, uid) && IsOldestOf(t, uid, home[d]) && HasUid(t, home[d], uid)
  {
    hide HasUid, IsSuperseded, IsElder;
    var u, elder := SupersededUid(t, collapsed, d);
    uid :| IsOldestOf(t, uid, home[d]) && HasUid(t, d, uid);
    UidOf(t, d, u, uid);
  }

  /** A group not yet collapsed has neither been superseded nor been a keeper. */
  lemma GroupIntact(t: Tables, collapsed: set<string>, home: Homes, uid: string, event: int)
    requires ToOldest(t, collapsed, home) && uid !in collapsed && HasUid(t, event, uid)
    ensures event in t.events && event !in home && forall d <- home :: home[d] != event
  {
    InGroup(t, uid, event);
    hide *;
    if event in home {
      var u := OldestUid(t, collapsed, home, event);
      UidOf(t, event, u, uid);
    }
    forall d <- home ensures home[d] != event {
      var u := OldestUid(t, collapsed, home, d);
      if home[d] == event {
        UidOf(t, event, u, uid);
      }
    }
  }

  lemma NotItsOwnElder(t: Tables, uid: string, event: int)
    ensures !IsElder(t, uid, event, event)
  {
  }

  lemma OlderNotElder(t: Tables, uid: string, a: int, b: int)
    requires IsElder(t, uid, a, b)
    ensures !IsElder(t, uid, b, a)
  {
  }

  lemma KeepersStay(t: Tables, collapsed: set<string>, home: Homes, d: int)
    requires ToOldest(t, collapsed, home) && d in home
    ensures d in t.events && home[d] in t.events && home[d] !in home
    ensures IsOlder(t.events, home[d], d)
  {
    var uid := OldestUid(t, collapsed, home, d);
    var keeper := home[d];
    InGroup(t, uid, d);
    InGroup(t, uid, keeper);
    if keeper in home {
      var u, elder := SupersededUid(t, collapsed, keeper);
      UidOf(t, keeper, u, uid);
      NotItsOwnElder(t, uid, keeper);
      assert elder != keeper && IsElder(t, uid, keeper, elder);
      OlderNotElder(t, uid, keeper, elder);
    }
    assert d != keeper && IsElder(t, uid, keeper, d);
    hide ToOldest;
  }

  lemma GroupIs(t: Tables, uid: string, sorted: seq<int>)
    requires sorted != [] && SortedByAge(t.events, GroupOf(t, uid), sorted)
    ensures IsGroup(t.events, sorted[0], sorted[1..])
    ensures IsOldestOf(t, uid, sorted[0])
    ensures forall d <- sorted[1..] :: HasUid(t, d, uid) && IsOldestFor(t, d, sorted[0])
  {
    DuplicatesHaveElders(t, uid, sorted);
    SortedElders(t, uid, sorted);
    forall e ensures HasUid(t, e, uid) <==> e in sorted {
      InGroup(t, uid, e);
    }
    forall e | HasUid(t, e, uid) && e != sorted[0] ensures IsElder(t, uid, sorted[0], e) {
      assert e in sorted[1..];
      BeforeFirst(sorted, sorted[0], e);
    }
    assert forall i, j :: 0 <= i < j < |sorted[1..]| ==>
        sorted[1..][i] == sorted[i + 1] && sorted[1..][j] == sorted[j + 1];
    assert forall d <- sorted[1..] :: d in sorted;
    hide HasUid, GroupOf, ComesBefore, IsElder;
  }

  lemma SupersededNext(t: Tables, collapsed: set<string>, uid: string, event: int)
    ensures IsSuperseded(t, collapsed + {uid}, event) <==>
      IsSuperseded(t, collapsed, event) || exists elder :: IsElder(t, uid, elder, event)
  {
    hide IsElder;
    if elder :| IsElder(t, uid, elder, event) {
      assert uid in collapsed + {uid};
    }
    if IsSuperseded(t, collapsed, event) {
      var u, elder :| u in collapsed && IsElder(t, u, elder, event);
      assert u in collapsed + {uid};
    }
  }

  /** Collapsing one more group. */
  lemma ToOldestNext(t: Tables, collapsed: set<string>, home: Homes, uid: string, sorted: seq<int>)
    requires ToOldest(t, collapsed, home) && uid !in collapsed
    requires sorted != [] && SortedByAge(t.events, GroupOf(t, uid), sorted)
    ensures var next := AllTo(sorted[0], sorted[1..]);
      && ToOldest(t, collapsed + {uid}, home + next)
      && AreHomes(t.events, home + next) && home.Keys !! next.Keys
      && forall d <- home :: home[d] != sorted[0]
  {
    var keeper, duplicates := sorted[0], sorted[1..];
    hide SortedByAge, IsSuperseded, IsOldestFor, IsOldestOf, HasUid, IsElder, ToOldest, GroupOf, AllTo, AreHomes;
    DuplicatesHaveElders(t, uid, sorted);
    GroupIs(t, uid, sorted);
    GroupIntact(t, collapsed, home, uid, keeper);
    forall d <- duplicates ensures d in t.events && d !in home && forall e <- home :: home[e] != d {
      GroupIntact(t, collapsed, home, uid, d);
    }
    forall d <- home ensures d in t.events && home[d] in t.events && home[d] !in home && home[d] !in duplicates {
      KeepersStay(t, collapsed, home, d);
    }
    HomesThen(t.events, home, keeper, duplicates);
    hide IsGroup;
    ToOldestThen(t, collapsed, home, uid, keeper, duplicates);
  }

  lemma HomesThen(events: Events, home: Homes, keeper: int, duplicates: seq<int>)
    requires keeper in events && keeper !in home && keeper !in duplicates
    requires forall d <- duplicates :: d in events && d !in home
    requires forall d <- home :: d in events && home[d] in events && home[d] !in home && home[d] !in duplicates
    ensures AreHomes(events, home + AllTo(keeper, duplicates)) && home.Keys !! AllTo(keeper, duplicates).Keys
  {
    var next := AllTo(keeper, duplicates);
    assert forall d <- next :: d in duplicates && d !in home;
  }

  lemma ToOldestThen(
      t: Tables, collapsed: set<string>, home: Homes, uid: string, keeper: int, duplicates: seq<int>)
    requires ToOldest(t, collapsed, home) && forall d <- duplicates :: d !in home && IsOldestFor(t, d, keeper)
    requires forall e :: e in duplicates <==> exists elder :: IsElder(t, uid, elder, e)
    ensures ToOldest(t, collapsed + {uid}, home + AllTo(keeper, duplicates))
  {
    hide IsSuperseded, IsOldestFor, IsElder;
    forall event ensures event in home + AllTo(keeper, duplicates) <==> IsSuperseded(t, collapsed + {uid}, event) {
      SupersededNext(t, collapsed, uid, event);
    }
  }

  // ----- Whose occasions are left -----

  ghost predicate IsElderInGroup(t: Tables, home: Homes, a: int, b: int) {
    a in t.events && b in t.events && HomeOf(home, a) == HomeOf(home, b) && IsOlder(t.events, a, b)
  }

  /** An older event of the group had an occasion for the anchor too. */
  ghost predicate ElderHasDate(t: Tables, home: Homes, o: int)
    requires IsAnchored(t, home, o)
  {
    exists elder ::
      IsElderInGroup(t, home, elder, t.occasions[o]) && HasDate(t.posts, t.occasions, elder, t.posts[o].anchor)
  }

  /** Of a group's occasions for an anchor, the oldest event's is left. */
  ghost predicate OldestKeeps(t0: Tables, t: Tables, home: Homes) {
    forall o <- t.occasions :: IsAnchored(t0, home, o) ==> !ElderHasDate(t0, home, o)
  }

  ghost predicate AreAmong(events: Events, all: Events) {
    forall e <- events :: e in all && all[e] == events[e]
  }

  /** In a group sorted by age, the first event is the oldest. */
  lemma FirstIsOldest(t: Tables, t': Tables, all: Events, group: set<int>, sorted: seq<int>)
    requires sorted != [] && SortedByAge(all, group, sorted) && AreAmong(t.events, all)
    requires FirstKeeps(t, t', AllTo(sorted[0], sorted[1..]), sorted[1..])
    ensures OldestKeeps(t, t', AllTo(sorted[0], sorted[1..]))
  {
    var home := AllTo(sorted[0], sorted[1..]);
    hide IsPreceded, SortedByAge;
    forall o <- t'.occasions | IsAnchored(t, home, o) ensures !ElderHasDate(t, home, o) {
      var event, anchor := t.occasions[o], t.posts[o].anchor;
      forall elder | IsElderInGroup(t, home, elder, event) ensures !HasDate(t.posts, t.occasions, elder, anchor) {
        ElderComesBefore(t, all, group, sorted, elder, event);
        Precedes(t, home, sorted[1..], o, elder);
      }
    }
  }

  lemma ElderComesBefore(t: Tables, all: Events, group: set<int>, sorted: seq<int>, elder: int, event: int)
    requires sorted != [] && SortedByAge(all, group, sorted) && AreAmong(t.events, all)
    requires event in sorted[1..] && IsElderInGroup(t, AllTo(sorted[0], sorted[1..]), elder, event)
    ensures elder == sorted[0] || (elder in sorted[1..] && ComesBefore(sorted[1..], elder, event))
  {
    assert elder in sorted && event in sorted;
    AgeOrder(all, group, sorted, elder, event);
    assert elder in group && event in group;
    BeforeFirst(sorted, elder, event);
    hide ComesBefore, SortedByAge;
  }

  lemma Precedes(t: Tables, home: Homes, order: seq<int>, o: int, elder: int)
    requires IsAnchored(t, home, o)
    requires elder == home[t.occasions[o]]
          || (elder in home && home[elder] == home[t.occasions[o]] && ComesBefore(order, elder, t.occasions[o]))
    ensures HasDate(t.posts, t.occasions, elder, t.posts[o].anchor) ==> IsPreceded(t, home, order, o)
  {
    hide HasDate, ComesBefore;
  }

  lemma ComposeOldest(t0: Tables, t1: Tables, t2: Tables, home: Homes, next: Homes)
    requires Next(t0, t1, t2, home, next) && forall d <- home, e <- next :: home[d] != next[e]
    requires OccasionsKept(t0, t1, home) && PostsKept(t0, t1, home) && OccasionsKept(t1, t2, next)
    requires OldestKeeps(t0, t1, home) && OldestKeeps(t1, t2, next)
    ensures OldestKeeps(t0, t2, home + next)
  {
    hide Next, OccasionsKept, PostsKept, ElderHasDate, IsAnchored;
    forall o <- t2.occasions | IsAnchored(t0, home + next, o) ensures !ElderHasDate(t0, home + next, o) {
      NotYet(t0, t1, t2, home, next, o);
      WasThere(t1, t2, next, o);
      if IsAnchored(t0, home, o) {
        OldestOfEarlier(t0, t1, t2, home, next, o);
      } else {
        OldestOfLater(t0, t1, t2, home, next, o);
      }
    }
  }

  lemma OldestOfEarlier(t0: Tables, t1: Tables, t2: Tables, home: Homes, next: Homes, o: int)
    requires Next(t0, t1, t2, home, next) && forall d <- home, e <- next :: home[d] != next[e]
    requires IsAnchored(t0, home, o) && IsAnchored(t0, home + next, o) && !ElderHasDate(t0, home, o)
    ensures !ElderHasDate(t0, home + next, o)
  {
    HomesAdd(t0.events, home, next);
    hide Next, HasDate, IsOlder;
    var event := t0.occasions[o];
    forall elder | IsElderInGroup(t0, home + next, elder, event)
      ensures IsElderInGroup(t0, home, elder, event)
    {
      assert HomeOf(home + next, elder) == HomeOf(next, HomeOf(home, elder));
    }
    hide IsElderInGroup;
  }

  lemma OldestOfLater(t0: Tables, t1: Tables, t2: Tables, home: Homes, next: Homes, o: int)
    requires Next(t0, t1, t2, home, next) && forall d <- home, e <- next :: home[d] != next[e]
    requires OccasionsKept(t0, t1, home) && PostsKept(t0, t1, home)
    requires IsAnchored(t0, next, o) && IsAnchored(t0, home + next, o) && IsAnchored(t1, next, o)
    requires !ElderHasDate(t1, next, o)
    ensures !ElderHasDate(t0, home + next, o)
  {
    HomesAdd(t0.events, home, next);
    NotYet(t0, t1, t2, home, next, o);
    assert Sound(t1) && t1.events == t0.events - home.Keys;
    hide Next, HasDate, OccasionsKept, PostsKept, Sound;
    var event, anchor := t0.occasions[o], t0.posts[o].anchor;
    forall elder | IsElderInGroup(t0, home + next, elder, event)
      ensures IsElderInGroup(t1, next, elder, event) && elder !in home
    {
      assert HomeOf(home + next, elder) == HomeOf(next, HomeOf(home, elder));
    }
    forall elder | IsElderInGroup(t0, home + next, elder, event)
      ensures !HasDate(t0.posts, t0.occasions, elder, anchor)
    {
      DateStaysThere(t0, t1, home, elder, anchor);
    }
  }

  /** In an order by age, what precedes an occasion is an elder's, so all that is known of orders applies to a run. */
  lemma OldestIsFirst(t0: Tables, t: Tables, collapsed: set<string>, home: Homes, order: seq<int>)
    requires ToOldest(t0, collapsed, home) && OldestKeeps(t0, t, home) && SortedByAge(t0.events, home.Keys, order)
    ensures Lists(order, home) && FirstKeeps(t0, t, home, order)
    ensures forall o :: IsAnchored(t0, home, o) ==> (IsPreceded(t0, home, order, o) <==> ElderHasDate(t0, home, o))
  {
    hide ToOldest, IsPreceded, ElderHasDate, IsAnchored;
    forall o | IsAnchored(t0, home, o) ensures IsPreceded(t0, home, order, o) <==> ElderHasDate(t0, home, o) {
      PrecededIffElder(t0, collapsed, home, order, o);
    }
  }

  lemma PrecededIffElder(t: Tables, collapsed: set<string>, home: Homes, order: seq<int>, o: int)
    requires ToOldest(t, collapsed, home) && SortedByAge(t.events, home.Keys, order) && IsAnchored(t, home, o)
    ensures IsPreceded(t, home, order, o) <==> ElderHasDate(t, home, o)
  {
    var event := t.occasions[o];
    KeepersStay(t, collapsed, home, event);
    forall d ensures ComesBefore(order, d, event) <==> d in home && d in t.events && IsOlder(t.events, d, event) {
      AgeOrder(t.events, home.Keys, order, d, event);
    }
    hide ToOldest, SortedByAge, HasDate, ComesBefore, IsOlder;
    assert IsElderInGroup(t, home, home[event], event);
    forall d <- home | home[d] == home[event] && ComesBefore(order, d, event)
      ensures IsElderInGroup(t, home, d, event)
    {
    }
    forall elder | IsElderInGroup(t, home, elder, event)
      ensures elder == home[event] || (elder in home && home[elder] == home[event] && ComesBefore(order, elder, event))
    {
    }
  }

  // ----- What stands in the way of a group -----

  /** The order in which occasions are loaded does not matter for the group. */
  ghost predicate GroupPredictable(t0: Tables, t: Tables, uid: string) {
    || (forall a, b :: IsElder(t0, uid, a, b) ==> SyncFree(t.links, t.occasions, b))
    || (forall e :: HasUid(t0, e, uid) ==> DistinctDates(t, e))
  }

  /** Nothing of an event is in the way of a younger one of its UID. */
  ghost predicate GroupCompatible(t0: Tables, t: Tables, uid: string, aborts: bool) {
    forall a, b :: IsElder(t0, uid, a, b) ==> Detachable(t, b) && Compatible(t, a, b, aborts)
  }

  /** No group, user or destination that two events of the UID have in common. */
  ghost predicate GroupClashFree(t0: Tables, t: Tables, uid: string) {
    forall a, b :: IsElder(t0, uid, a, b) ==> NoClash(t.links, b, a)
  }

  lemma ClashFreeIs(links: Links, sorted: seq<int>)
    requires sorted != []
    ensures ClashFree(links, sorted[0], sorted[1..]) <==>
      forall a, b :: ComesBefore(sorted, a, b) ==> NoClash(links, b, a)
  {
    hide NoClash;
    forall a, b
      ensures ComesBefore(sorted, a, b) <==> (a == sorted[0] && b in sorted[1..]) || ComesBefore(sorted[1..], a, b)
    {
      BeforeFirst(sorted, a, b);
    }
    if forall a, b :: ComesBefore(sorted, a, b) ==> NoClash(links, b, a) {
      forall i, j | 0 <= i < j < |sorted[1..]| ensures NoClash(links, sorted[1..][j], sorted[1..][i]) {
        assert ComesBefore(sorted[1..], sorted[1..][i], sorted[1..][j]);
      }
    }
  }

  lemma CompatibleIs(t: Tables, sorted: seq<int>, aborts: bool)
    requires sorted != []
    ensures CompatibleGroup(t, sorted[0], sorted[1..], aborts) <==>
      forall a, b :: ComesBefore(sorted, a, b) ==> Detachable(t, b) && Compatible(t, a, b, aborts)
  {
    hide Detachable, Compatible;
    var duplicates := sorted[1..];
    forall a, b
      ensures ComesBefore(sorted, a, b) <==> (a == sorted[0] && b in duplicates) || ComesBefore(duplicates, a, b)
      ensures ComesBefore(duplicates, a, b) ==> b in duplicates
    {
      BeforeFirst(sorted, a, b);
      if ComesBefore(duplicates, a, b) {
        BothAmong(duplicates, a, b);
      }
    }
    if forall a, b :: ComesBefore(sorted, a, b) ==> Detachable(t, b) && Compatible(t, a, b, aborts) {
      assert forall d <- duplicates :: ComesBefore(sorted, sorted[0], d);
      forall i, j | 0 <= i < j < |duplicates| ensures Compatible(t, duplicates[i], duplicates[j], aborts) {
        assert ComesBefore(duplicates, duplicates[i], duplicates[j]);
      }
    }
  }

  lemma PredictableIs(t0: Tables, t: Tables, uid: string, sorted: seq<int>)
    requires sorted != [] && SortedByAge(t0.events, GroupOf(t0, uid), sorted)
    ensures GroupPredictable(t0, t, uid) ==> IsPredictable(t, sorted[0], sorted[1..])
  {
    GroupIs(t0, uid, sorted);
    hide SyncFree, DistinctDates, IsElder, HasUid, SortedByAge, IsGroup;
    DuplicatesHaveElders(t0, uid, sorted);
  }

  lemma GroupObstacles(t0: Tables, t: Tables, uid: string, sorted: seq<int>, aborts: bool)
    requires sorted != [] && SortedByAge(t0.events, GroupOf(t0, uid), sorted)
    ensures GroupPredictable(t0, t, uid) ==> IsPredictable(t, sorted[0], sorted[1..])
    ensures GroupCompatible(t0, t, uid, aborts) <==> CompatibleGroup(t, sorted[0], sorted[1..], aborts)
    ensures GroupClashFree(t0, t, uid) <==> ClashFree(t.links, sorted[0], sorted[1..])
  {
    SortedElders(t0, uid, sorted);
    PredictableIs(t0, t, uid, sorted);
    CompatibleIs(t, sorted, aborts);
    ClashFreeIs(t.links, sorted);
    hide SortedByAge, IsElder, ComesBefore, Detachable, Compatible, NoClash, CompatibleGroup, ClashFree,
         GroupPredictable, IsPredictable;
  }

  /** Collapsing another UID's group puts nothing in the way, and takes nothing away. */
  ghost predicate SameObstacles(t0: Tables, t: Tables, t': Tables, uid: string) {
    && (GroupPredictable(t0, t, uid) ==> GroupPredictable(t0, t', uid))
    && (forall aborts :: GroupCompatible(t0, t', uid, aborts) <==> GroupCompatible(t0, t, uid, aborts))
    && (GroupClashFree(t0, t', uid) <==> GroupClashFree(t0, t, uid))
  }

  /** Every event of the UID looks the same. */
  ghost predicate SameViews(t0: Tables, t: Tables, t': Tables, uid: string) {
    forall e :: HasUid(t0, e, uid) ==>
      SameView(t, t', e) && (SyncFree(t.links, t.occasions, e) ==> SyncFree(t'.links, t'.occasions, e))
  }

  lemma ElderHasUid(t0: Tables, uid: string, a: int, b: int)
    requires IsElder(t0, uid, a, b)
    ensures HasUid(t0, a, uid) && HasUid(t0, b, uid)
  {
  }

  lemma PairSeen(t: Tables, t': Tables, a: int, b: int, aborts: bool)
    requires SameView(t, t', a) && SameView(t, t', b)
    ensures Detachable(t', b) && Compatible(t', a, b, aborts) <==> Detachable(t, b) && Compatible(t, a, b, aborts)
    ensures NoClash(t'.links, b, a) <==> NoClash(t.links, b, a)
  {
    SameViewBack(t, t', a);
    SameViewBack(t, t', b);
    assert IsItsPost(t, a, a) && IsItsPost(t, b, b) && IsItsPost(t', a, a) && IsItsPost(t', b, b);
    forall relation ensures Collides(t'.links, relation, b, a) <==> Collides(t.links, relation, b, a) {
      CollidesSeen(t, t', a, b, relation, b, a);
      CollidesSeen(t', t, a, b, relation, b, a);
    }
    hide SameView, Collides, Detachable, Compatible;
    if Detachable(t, b) && Compatible(t, a, b, aborts) {
      DetachableSeen(t, t', b);
      CompatibleSeen(t, t', a, b, aborts);
    }
    if Detachable(t', b) && Compatible(t', a, b, aborts) {
      DetachableSeen(t', t, b);
      CompatibleSeen(t', t, a, b, aborts);
    }
  }

  lemma SameFromViews(t0: Tables, t: Tables, t': Tables, uid: string)
    requires SameViews(t0, t, t', uid)
    ensures SameObstacles(t0, t, t', uid)
  {
    hide GroupPredictable, GroupCompatible, GroupClashFree, SameViews;
    PredictableAlike(t0, t, t', uid);
    CompatibleAlike(t0, t, t', uid, true);
    CompatibleAlike(t0, t, t', uid, false);
  }

  lemma PredictableAlike(t0: Tables, t: Tables, t': Tables, uid: string)
    requires SameViews(t0, t, t', uid)
    ensures GroupPredictable(t0, t, uid) ==> GroupPredictable(t0, t', uid)
  {
    forall a, b | IsElder(t0, uid, a, b) ensures HasUid(t0, b, uid) {
      ElderHasUid(t0, uid, a, b);
    }
    hide IsElder, HasUid, SameView, SyncFree, DistinctDates;
    forall e | HasUid(t0, e, uid) && DistinctDates(t, e) ensures DistinctDates(t', e) {
      DistinctSeen(t, t', e);
    }
  }

  lemma CompatibleAlike(t0: Tables, t: Tables, t': Tables, uid: string, aborts: bool)
    requires SameViews(t0, t, t', uid)
    ensures GroupCompatible(t0, t', uid, aborts) <==> GroupCompatible(t0, t, uid, aborts)
    ensures GroupClashFree(t0, t', uid) <==> GroupClashFree(t0, t, uid)
  {
    hide IsElder, HasUid, SameView, SyncFree, NoClash, Detachable, Compatible;
    forall a, b | IsElder(t0, uid, a, b)
      ensures Detachable(t', b) && Compatible(t', a, b, aborts) <==> Detachable(t, b) && Compatible(t, a, b, aborts)
      ensures NoClash(t'.links, b, a) <==> NoClash(t.links, b, a)
    {
      ElderHasUid(t0, uid, a, b);
      PairSeen(t, t', a, b, aborts);
    }
    hide SameViews;
  }

  lemma EventView(t: Tables, t': Tables, home: Homes, lossless: bool, e: int)
    requires Integrity(t) && Outcome(t, t', home, lossless)
    requires forall d <- home :: d in t.events && home[d] in t'.events
    requires e in t.events && e !in home && forall d <- home :: home[d] != e
    ensures SameView(t, t', e)
    ensures SyncFree(t.links, t.occasions, e) ==> SyncFree(t'.links, t'.occasions, e)
  {
    OutcomeParts(t, t', home, lossless);
    hide Outcome, RsvpsKept, OccasionsKept, LinksKept, PostsKept, Integrity, DatesMerged, MediaSupplied;
    forall d <- home ensures home[d] !in t'.occasions && d !in t.occasions {
      EventHasNoOccasion(t', home[d]);
      EventHasNoOccasion(t, d);
    }
    EventHasNoOccasion(t, e);
    EventHasNoOccasion(t', e);
    assert IsOutside(t, t', home, e);
    hide *;
    SoundParts(t');
    OutsideView(t, t', home, lossless, e);
    if SyncFree(t.links, t.occasions, e) {
      SyncFreeAfter(t, t', home, lossless, e);
    }
  }

  lemma ObstaclesStay(t0: Tables, t: Tables, t': Tables, uid: string, home: Homes, lossless: bool)
    requires Integrity(t) && Outcome(t, t', home, lossless)
    requires forall d <- home :: d in t.events && home[d] in t'.events
    requires forall e :: HasUid(t0, e, uid) ==> e in t.events && e !in home && forall d <- home :: home[d] != e
    ensures SameObstacles(t0, t, t', uid)
  {
    assert SameViews(t0, t, t', uid) by {
      hide HasUid, SyncFree, SameView, Outcome, Integrity;
      forall e | HasUid(t0, e, uid)
        ensures SameView(t, t', e)
        ensures SyncFree(t.links, t.occasions, e) ==> SyncFree(t'.links, t'.occasions, e)
      {
        EventView(t, t', home, lossless, e);
      }
    }
    hide *;
    SameFromViews(t0, t, t', uid);
  }

  ghost predicate OthersSame(t0: Tables, t: Tables, t': Tables, collapsed: set<string>, uid: string) {
    forall other :: other !in collapsed && other != uid ==> SameObstacles(t0, t, t', other)
  }

  lemma OthersUntouched(t0: Tables, t: Tables, collapsed: set<string>, uid: string)
    ensures OthersSame(t0, t, t, collapsed, uid)
  {
    hide GroupPredictable, GroupCompatible, GroupClashFree;
  }

  lemma OtherUid(t0: Tables, collapsed: set<string>, home: Homes, uid: string, sorted: seq<int>, other: string, e: int)
    requires ToOldest(t0, collapsed, home) && other !in collapsed && other != uid && HasUid(t0, e, other)
    requires sorted != [] && SortedByAge(t0.events, GroupOf(t0, uid), sorted)
    ensures e in t0.events && e !in home && e !in sorted
  {
    GroupIntact(t0, collapsed, home, other, e);
    InGroup(t0, uid, e);
    hide HasUid, GroupOf, ToOldest;
    if HasUid(t0, e, uid) {
      UidOf(t0, e, uid, other);
    }
  }

  lemma OthersStaySame(
      t0: Tables, t: Tables, t': Tables, collapsed: set<string>, home: Homes, uid: string, sorted: seq<int>,
      lossless: bool, other: string)
    requires ToOldest(t0, collapsed, home) && uid !in collapsed && Integrity(t) && t.events == t0.events - home.Keys
    requires sorted != [] && SortedByAge(t0.events, GroupOf(t0, uid), sorted)
    requires IsGroup(t.events, sorted[0], sorted[1..])
    requires Outcome(t, t', AllTo(sorted[0], sorted[1..]), lossless)
    requires other !in collapsed && other != uid
    ensures SameObstacles(t0, t, t', other)
  {
    var next := AllTo(sorted[0], sorted[1..]);
    OutcomeParts(t, t', next, lossless);
    assert forall d :: d in next <==> d in sorted[1..];
    forall e | HasUid(t0, e, other) ensures e in t.events && e !in next && forall d <- next :: next[d] != e {
      OtherUid(t0, collapsed, home, uid, sorted, other, e);
      hide ToOldest, SortedByAge, HasUid, Outcome, Integrity, IsGroup, RsvpsKept, OccasionsKept, LinksKept, PostsKept,
           DatesMerged, MediaSupplied;
    }
    hide ToOldest, SortedByAge, HasUid, SameObstacles, Outcome, Integrity, RsvpsKept, OccasionsKept, LinksKept,
         PostsKept, DatesMerged, MediaSupplied;
    ObstaclesStay(t0, t, t', other, next, lossless);
  }

  // ----- One group after the other -----

  /** So far: what has become of the tables, and of whom. */
  ghost predicate Progress(t0: Tables, t: Tables, collapsed: set<string>, home: Homes, lossless: bool) {
    Outcome(t0, t, home, lossless) && ToOldest(t0, collapsed, home) && OldestKeeps(t0, t, home)
  }

  lemma ProgressParts(t0: Tables, t: Tables, collapsed: set<string>, home: Homes, lossless: bool)
    ensures Progress(t0, t, collapsed, home, lossless) <==>
      Outcome(t0, t, home, lossless) && ToOldest(t0, collapsed, home) && OldestKeeps(t0, t, home)
  {
  }

  lemma RunStarts(t: Tables, lossless: bool)
    requires Integrity(t)
    ensures Progress(t, t, {}, map[], lossless) && |Added(t.posts, t.posts)| == 0 && |MergedAway(t, t, map[])| == 0
  {
    NothingMoved(t, lossless);
    assert Added(t.posts, t.posts) == {} && MergedAway(t, t, map[]) == {};
    hide Outcome, ElderHasDate;
  }

  lemma GroupAmongEvents(t: Tables, uid: string)
    ensures GroupOf(t, uid) <= t.events.Keys
  {
  }

  lemma GroupReady(
      t0: Tables, t: Tables, collapsed: set<string>, home: Homes, uid: string, sorted: seq<int>, lossless: bool)
    requires Progress(t0, t, collapsed, home, lossless) && uid !in collapsed
    requires sorted != [] && SortedByAge(t0.events, GroupOf(t0, uid), sorted)
    ensures Integrity(t) && IsGroup(t.events, sorted[0], sorted[1..]) && t.events == t0.events - home.Keys
  {
    ProgressParts(t0, t, collapsed, home, lossless);
    OutcomeParts(t0, t, home, lossless);
    GroupIs(t0, uid, sorted);
    hide Progress, Outcome, Integrity, RsvpsKept, OccasionsKept, LinksKept, PostsKept, DatesMerged, MediaSupplied,
         ToOldest, OldestKeeps, SortedByAge, IsOldestOf, IsOldestFor, HasUid;
    GroupIntact(t0, collapsed, home, uid, sorted[0]);
    forall d <- sorted[1..] ensures d in t.events {
      GroupIntact(t0, collapsed, home, uid, d);
    }
  }

  lemma EventsCounted(events: Events, duplicates: seq<int>)
    requires forall d <- duplicates :: d in events
    requires forall i, j :: 0 <= i < j < |duplicates| ==> duplicates[i] != duplicates[j]
    ensures |(events - (set d <- duplicates)).Keys| + |duplicates| == |events.Keys|
  {
    DistinctCount(duplicates);
    var gone := set d <- duplicates;
    assert (events - gone).Keys == events.Keys - gone;
    assert gone <= events.Keys;
  }

  lemma FewerEvents(t: Tables, t': Tables, keeper: int, duplicates: seq<int>)
    requires t'.events == t.events - AllTo(keeper, duplicates).Keys && IsGroup(t.events, keeper, duplicates)
    ensures |t'.events.Keys| + |duplicates| == |t.events.Keys|
  {
    EventsCounted(t.events, duplicates);
    assert AllTo(keeper, duplicates).Keys == set d <- duplicates;
  }

  lemma WithoutAmong(events: Events, gone: set<int>)
    ensures AreAmong(events - gone, events)
  {
  }

  lemma GroupDone(
      t0: Tables, t: Tables, t': Tables, collapsed: set<string>, home: Homes, uid: string, sorted: seq<int>,
      lossless: bool)
    requires Integrity(t0) && Progress(t0, t, collapsed, home, lossless) && uid !in collapsed
    requires sorted != [] && SortedByAge(t0.events, GroupOf(t0, uid), sorted)
    requires Collapsed(t, t', sorted[0], sorted[1..], lossless)
    ensures var home' := home + AllTo(sorted[0], sorted[1..]);
      && Progress(t0, t', collapsed + {uid}, home', lossless)
      && |Added(t0.posts, t'.posts)| == |Added(t0.posts, t.posts)| + |Added(t.posts, t'.posts)|
      && |MergedAway(t0, t', home')|
         == |MergedAway(t0, t, home)| + |MergedAway(t, t', AllTo(sorted[0], sorted[1..]))|
    ensures |t'.events.Keys| + |sorted[1..]| == |t.events.Keys|
    ensures OthersSame(t0, t, t', collapsed, uid)
  {
    hide *;
    var next := AllTo(sorted[0], sorted[1..]);
    GroupReady(t0, t, collapsed, home, uid, sorted, lossless);
    ProgressParts(t0, t, collapsed, home, lossless);
    ToOldestNext(t0, collapsed, home, uid, sorted);
    CollapsedIs(t, t', sorted[0], sorted[1..], lossless);
    OutcomeParts(t, t', next, lossless);
    OutcomeParts(t0, t, home, lossless);
    FewerEvents(t, t', sorted[0], sorted[1..]);
    Compose(t0, t, t', home, next, lossless);
    OutcomesAddUp(t0, t, t', home, next, lossless);
    WithoutAmong(t0.events, home.Keys);
    FirstIsOldest(t, t', t0.events, GroupOf(t0, uid), sorted);
    OneKeeper(sorted[0], sorted[1..]);
    ComposeOldest(t0, t, t', home, next);
    ProgressParts(t0, t', collapsed + {uid}, home + next, lossless);
    AllStaySame(t0, t, t', collapsed, home, uid, sorted, lossless);
  }

  lemma AllStaySame(
      t0: Tables, t: Tables, t': Tables, collapsed: set<string>, home: Homes, uid: string, sorted: seq<int>,
      lossless: bool)
    requires ToOldest(t0, collapsed, home) && uid !in collapsed && Integrity(t) && t.events == t0.events - home.Keys
    requires sorted != [] && SortedByAge(t0.events, GroupOf(t0, uid), sorted)
    requires IsGroup(t.events, sorted[0], sorted[1..])
    requires Outcome(t, t', AllTo(sorted[0], sorted[1..]), lossless)
    ensures OthersSame(t0, t, t', collapsed, uid)
  {
    hide SameObstacles, ToOldest, Integrity, SortedByAge, Outcome, IsGroup, AllTo;
    forall other | other !in collapsed && other != uid ensures SameObstacles(t0, t, t', other) {
      OthersStaySame(t0, t, t', collapsed, home, uid, sorted, lossless, other);
    }
  }

  // ----- What is known of every UID -----

  /** How a group fared tells of what was in its way; where its order does not matter, what was in its way tells how it
      fared. */
  ghost predicate Judged(t0: Tables, t: Tables, uid: string, done: bool, aborts: bool, reliable: bool) {
    && (done ==> GroupCompatible(t0, t, uid, false) && (aborts ==> GroupClashFree(t0, t, uid)))
    && (reliable && GroupPredictable(t0, t, uid) ==> (done <==> GroupCompatible(t0, t, uid, aborts)))
  }

  /** A UID of one event is left alone, and any other is judged by the tables at the start. */
  ghost predicate Decided(t0: Tables, collapsed: set<string>, uid: string, aborts: bool, reliable: bool) {
    if |GroupOf(t0, uid)| < 2 then uid !in collapsed else Judged(t0, t0, uid, uid in collapsed, aborts, reliable)
  }

  lemma GroupJudged(
      t0: Tables, t: Tables, uid: string, sorted: seq<int>, done: bool, aborts: bool, reliable: bool)
    requires sorted != [] && SortedByAge(t0.events, GroupOf(t0, uid), sorted)
    requires done ==> CompatibleGroup(t, sorted[0], sorted[1..], false)
    requires done && aborts ==> ClashFree(t.links, sorted[0], sorted[1..])
    requires reliable && IsPredictable(t, sorted[0], sorted[1..]) ==>
      (done <==> CompatibleGroup(t, sorted[0], sorted[1..], aborts))
    ensures Judged(t0, t, uid, done, aborts, reliable)
  {
    GroupObstacles(t0, t, uid, sorted, false);
    GroupObstacles(t0, t, uid, sorted, aborts);
    hide GroupPredictable, GroupCompatible, GroupClashFree, IsPredictable, CompatibleGroup, ClashFree, SortedByAge;
  }

  lemma JudgedAlike(t0: Tables, t: Tables, uid: string, done: bool, aborts: bool, reliable: bool)
    requires SameObstacles(t0, t0, t, uid) && Judged(t0, t, uid, done, aborts, reliable)
    ensures Judged(t0, t0, uid, done, aborts, reliable)
  {
    hide GroupPredictable, GroupCompatible, GroupClashFree;
  }

  lemma StillSame(t0: Tables, t: Tables, t': Tables, collapsed: set<string>, uid: string, other: string)
    requires SameObstacles(t0, t0, t, other) && OthersSame(t0, t, t', collapsed, uid)
    requires other !in collapsed && other != uid
    ensures SameObstacles(t0, t0, t', other)
  {
    assert SameObstacles(t0, t, t', other);
    hide GroupPredictable, GroupCompatible, GroupClashFree;
  }

  lemma SameAtFirst(t0: Tables, uid: string)
    ensures SameObstacles(t0, t0, t0, uid)
  {
  }

  /** Every group gone through so far is collapsed. */
  ghost predicate AllTaken(t0: Tables, collapsed: set<string>, uids: seq<string>) {
    forall uid <- uids :: |GroupOf(t0, uid)| >= 2 ==> uid in collapsed
  }

  ghost predicate EveryGroup(t0: Tables, collapsed: set<string>) {
    forall uid :: |GroupOf(t0, uid)| >= 2 ==> uid in collapsed
  }

  lemma EveryTaken(t0: Tables, collapsed: set<string>, uids: seq<string>)
    ensures EveryGroup(t0, collapsed) ==> AllTaken(t0, collapsed, uids)
  {
  }

  lemma TakenNext(t0: Tables, collapsed: set<string>, uids: seq<string>, uid: string)
    requires uid !in uids
    ensures |GroupOf(t0, uid)| >= 2 && uid !in collapsed ==> !AllTaken(t0, collapsed, uids + [uid])
    ensures AllTaken(t0, collapsed + {uid}, uids + [uid]) ==> AllTaken(t0, collapsed, uids)
    ensures AllTaken(t0, collapsed, uids + [uid]) ==> AllTaken(t0, collapsed, uids)
  {
    hide GroupOf;
    assert uid in uids + [uid];
    assert forall u <- uids :: u in uids + [uid];
  }

  ghost predicate AllDifferent(uids: seq<string>) {
    forall i, j :: 0 <= i < j < |uids| ==> uids[i] != uids[j]
  }

  lemma Different(uids: seq<string>)
    requires forall i, j :: 0 <= i < j < |uids| ==> uids[i] != uids[j]
    ensures AllDifferent(uids)
  {
  }

  /** The first `i` UIDs have been gone through, and nothing has changed for the others. */
  ghost predicate Settled(
      t0: Tables, t: Tables, collapsed: set<string>, uids: seq<string>, i: nat, aborts: bool, reliable: bool)
    requires i <= |uids|
  {
    && (forall uid <- collapsed :: uid in uids[..i])
    && (forall uid <- uids[..i] :: Decided(t0, collapsed, uid, aborts, reliable))
    && (forall j :: i <= j < |uids| ==> SameObstacles(t0, t0, t, uids[j]))
  }

  lemma NextIsNew(
      t0: Tables, t: Tables, collapsed: set<string>, uids: seq<string>, i: nat, aborts: bool, reliable: bool)
    requires i < |uids| && AllDifferent(uids) && Settled(t0, t, collapsed, uids, i, aborts, reliable)
    ensures uids[i] !in uids[..i] && uids[i] !in collapsed && uids[..i + 1] == uids[..i] + [uids[i]]
    ensures SameObstacles(t0, t0, t, uids[i])
  {
    hide Decided, SameObstacles;
  }

  lemma SettledAtFirst(t0: Tables, uids: seq<string>, aborts: bool, reliable: bool)
    ensures Settled(t0, t0, {}, uids, 0, aborts, reliable)
  {
    forall uid ensures SameObstacles(t0, t0, t0, uid) {
      SameAtFirst(t0, uid);
    }
    hide SameObstacles;
  }

  lemma SettledSkip(
      t0: Tables, t: Tables, collapsed: set<string>, uids: seq<string>, i: nat, aborts: bool, reliable: bool)
    requires i < |uids| && AllDifferent(uids) && Settled(t0, t, collapsed, uids, i, aborts, reliable)
    requires |GroupOf(t0, uids[i])| < 2
    ensures Settled(t0, t, collapsed, uids, i + 1, aborts, reliable)
  {
    NextIsNew(t0, t, collapsed, uids, i, aborts, reliable);
    assert Decided(t0, collapsed, uids[i], aborts, reliable);
    hide Decided, SameObstacles;
  }

  lemma DecidedNow(
      t0: Tables, t: Tables, collapsed: set<string>, uid: string, done: bool, aborts: bool, reliable: bool)
    requires SameObstacles(t0, t0, t, uid) && uid !in collapsed && |GroupOf(t0, uid)| >= 2
    requires Judged(t0, t, uid, done, aborts, reliable)
    ensures Decided(t0, if done then collapsed + {uid} else collapsed, uid, aborts, reliable)
  {
    hide Judged, GroupOf;
    JudgedAlike(t0, t, uid, done, aborts, reliable);
  }

  lemma DecidedAlready(
      t0: Tables, collapsed: set<string>, uid: string, other: string, aborts: bool, reliable: bool)
    requires Decided(t0, collapsed, other, aborts, reliable) && other != uid
    ensures Decided(t0, collapsed + {uid}, other, aborts, reliable)
  {
    hide Judged, GroupOf;
  }

  lemma SettledNext(
      t0: Tables, t: Tables, t': Tables, collapsed: set<string>, uids: seq<string>, i: nat, done: bool, aborts: bool,
      reliable: bool)
    requires i < |uids| && AllDifferent(uids) && Settled(t0, t, collapsed, uids, i, aborts, reliable)
    requires OthersSame(t0, t, t', collapsed, uids[i]) && |GroupOf(t0, uids[i])| >= 2
    requires Judged(t0, t, uids[i], done, aborts, reliable)
    ensures Settled(t0, t', if done then collapsed + {uids[i]} else collapsed, uids, i + 1, aborts, reliable)
  {
    var uid := uids[i];
    NextIsNew(t0, t, collapsed, uids, i, aborts, reliable);
    hide SameObstacles, OthersSame, Judged, Decided, GroupOf;
    DecidedNow(t0, t, collapsed, uid, done, aborts, reliable);
    forall j | i < j < |uids| ensures SameObstacles(t0, t0, t', uids[j]) {
      var other := uids[j];
      assert other !in collapsed && other != uid;
      StillSame(t0, t, t', collapsed, uid, other);
    }
    forall other <- uids[..i] ensures Decided(t0, collapsed + {uid}, other, aborts, reliable) {
      DecidedAlready(t0, collapsed, uid, other, aborts, reliable);
    }
  }

  lemma GroupListed(t: Tables, listed: set<string>, uid: string)
    requires forall e <- t.events, u :: HasUid(t, e, u) ==> u in listed
    requires uid !in listed
    ensures |GroupOf(t, uid)| < 2
  {
    assert GroupOf(t, uid) == {};
  }

  lemma AllDecided(
      t0: Tables, t: Tables, collapsed: set<string>, uids: seq<string>, listed: set<string>, aborts: bool,
      reliable: bool)
    requires Settled(t0, t, collapsed, uids, |uids|, aborts, reliable)
    requires forall e <- t0.events, uid :: HasUid(t0, e, uid) ==> uid in listed
    requires forall uid <- listed :: uid in uids
    ensures forall uid :: Decided(t0, collapsed, uid, aborts, reliable)
  {
    assert uids[..|uids|] == uids;
    hide HasUid, Judged, SameObstacles, GroupOf;
    forall uid ensures Decided(t0, collapsed, uid, aborts, reliable) {
      if uid !in uids {
        GroupListed(t0, listed, uid);
      }
    }
  }
}
