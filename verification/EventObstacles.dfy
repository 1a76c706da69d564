/** What stands in the way of a collapse, and what does not: sync-out records of what has to go, and, where errors
    abort, anything that two posts to become one have in common. A group without such obstacles is collapsed, and a
    group that was collapsed had none. */
module EventObstacles {
  import opened Wrappers
  import opened EventTables
  import opened EventCollapse
  import opened EventOutcome
  import opened EventGroups
  import opened EventDates

  /** No sync-out record of, or for the post of, any of the event's occasions. */
  ghost predicate SyncFree(links: Links, occasions: Occasions, event: int) {
    forall row <- links ::
      row.relation == OccasionDestinations || row.relation == PostDestinations ==>
        !(links[row].post in occasions && occasions[links[row].post] == event)
  }

  ghost predicate AllSyncFree(t: Tables, events: seq<int>) {
    forall d <- events :: SyncFree(t.links, t.occasions, d)
  }

  /** No relation pairs both posts with the same group, user or destination. */
  ghost predicate NoClash(links: Links, a: int, b: int) {
    forall relation :: !Collides(links, relation, a, b)
  }

  ghost predicate ClashFree(links: Links, keeper: int, duplicates: seq<int>) {
    && (forall d <- duplicates :: NoClash(links, d, keeper))
    && (forall i, j :: 0 <= i < j < |duplicates| ==> NoClash(links, duplicates[j], duplicates[i]))
  }

  /** An occasion of the duplicate for an anchor that the elder event has too: it is to be merged. */
  ghost predicate IsDoubled(t: Tables, elder: int, duplicate: int, o: int) {
    && o in t.occasions && t.occasions[o] == duplicate && o in t.posts && t.posts[o].anchor.Some?
    && HasDate(t.posts, t.occasions, elder, t.posts[o].anchor)
  }

  /** No two of their occasions for one anchor have a destination in common. */
  ghost predicate NoSharedDate(t: Tables, elder: int, duplicate: int) {
    forall anchor: int, x, o ::
      && KeepsDate(t.posts, t.occasions, elder, Some(anchor), x)
      && KeepsDate(t.posts, t.occasions, duplicate, Some(anchor), o)
      ==> !Collides(t.links, OccasionDestinations, o, x)
  }

  /** Nothing of the elder's is in the way of the duplicate's collapse: no occasion to be merged has a sync-out record
      of its post, and where errors abort no relation pairs both events, or both occasions for an anchor, with one
      thing. */
  ghost predicate Compatible(t: Tables, elder: int, duplicate: int, aborts: bool) {
    && (forall row <- t.links ::
          row.relation == PostDestinations ==> !IsDoubled(t, elder, duplicate, t.links[row].post))
    && (aborts ==> NoClash(t.links, duplicate, elder) && NoSharedDate(t, elder, duplicate))
  }

  ghost predicate IsLoose(t: Tables, event: int, o: int) {
    o in t.occasions && t.occasions[o] == event && o in t.posts && t.posts[o].anchor.None?
  }

  /** No sync-out record of an occasion that goes with the event. */
  ghost predicate Detachable(t: Tables, event: int) {
    forall row <- t.links :: row.relation == OccasionDestinations ==> !IsLoose(t, event, t.links[row].post)
  }

  ghost predicate CompatibleGroup(t: Tables, keeper: int, duplicates: seq<int>, aborts: bool) {
    && (forall d <- duplicates :: Detachable(t, d) && Compatible(t, keeper, d, aborts))
    && (forall i, j :: 0 <= i < j < |duplicates| ==> Compatible(t, duplicates[i], duplicates[j], aborts))
  }

  /** The order in which occasions are loaded does not matter: no sync-out records, or no anchor twice in one event. */
  ghost predicate IsPredictable(t: Tables, keeper: int, duplicates: seq<int>) {
    || AllSyncFree(t, duplicates)
    || (DistinctDates(t, keeper) && forall d <- duplicates :: DistinctDates(t, d))
  }

  /** Without sync-out records only clashes count. */
  lemma SyncFreeCompatible(t: Tables, elder: int, duplicate: int, aborts: bool)
    requires SyncFree(t.links, t.occasions, duplicate)
    ensures Detachable(t, duplicate)
    ensures Compatible(t, elder, duplicate, aborts) <==> !aborts || NoClash(t.links, duplicate, elder)
  {
    hide HasDate, NoClash;
    forall anchor: int, x, o
      | KeepsDate(t.posts, t.occasions, elder, Some(anchor), x)
        && KeepsDate(t.posts, t.occasions, duplicate, Some(anchor), o)
      ensures !Collides(t.links, OccasionDestinations, o, x)
    {
    }
  }

  // ----- Within one collapse -----

  /** The rows on an occasion whose turn has not come are the original ones. */
  lemma RowsOnUnhandled(
      t0: Tables, t: Tables, keeper: int, duplicate: int, handled: set<int>, byAnchor: map<int, int>, lossless: bool,
      o: int, row: Row)
    requires Mid(t0, t, keeper, duplicate, handled, byAnchor, lossless) && keeper != duplicate
    requires o in t.occasions && t.occasions[o] == duplicate && row in t.links && t.links[row].post == o
    ensures o in t0.occasions && t0.occasions[o] == duplicate && o !in handled
    ensures row in t0.links && t0.links[row] == t.links[row]
  {
    assert row in t0.links && RowMid(t0.posts, t0.links, t.posts, t.occasions, t.links, keeper, handled, lossless, row);
    assert o !in handled;
    hide Integrity, PostsMid, RsvpsMid, AnchorsMid, DatesMid, MediaMid, LinksMid;
  }

  /** Nor have rows come to the keeper's date for the anchor, which no other occasion of the duplicate has. */
  lemma RowsOnDate(
      t0: Tables, t: Tables, keeper: int, duplicate: int, handled: set<int>, byAnchor: map<int, int>, lossless: bool,
      ko: int, o: int, anchor: int, row: Row)
    requires Mid(t0, t, keeper, duplicate, handled, byAnchor, lossless) && keeper != duplicate
    requires DistinctDates(t0, duplicate) && o !in handled
    requires KeepsDate(t0.posts, t0.occasions, duplicate, Some(anchor), o)
    requires KeepsDate(t.posts, t.occasions, keeper, Some(anchor), ko)
    ensures ko !in handled && KeepsDate(t0.posts, t0.occasions, keeper, Some(anchor), ko)
    ensures row in t.links && t.links[row].post == ko && row.relation == OccasionDestinations ==>
      row in t0.links && t0.links[row] == t.links[row]
  {
    assert forall h <- handled :: !KeepsDate(t0.posts, t0.occasions, duplicate, Some(anchor), h);
    assert row in t.links ==>
      row in t0.links && RowMid(t0.posts, t0.links, t.posts, t.occasions, t.links, keeper, handled, lossless, row);
    hide Integrity, RsvpsMid, AnchorsMid, DatesMid, MediaMid, LinksMid, Extends, ParentLeft;
  }

  /** What a smooth collapse asks of the tables it starts from. */
  ghost predicate IsSmooth(t: Tables, keeper: int, duplicate: int, aborts: bool) {
    && (SyncFree(t.links, t.occasions, duplicate) || (DistinctDates(t, keeper) && DistinctDates(t, duplicate)))
    && Compatible(t, keeper, duplicate, aborts) && Detachable(t, duplicate)
  }

  lemma NoCollisionOnMerge(
      t0: Tables, t: Tables, keeper: int, duplicate: int, handled: set<int>, byAnchor: map<int, int>, lossless: bool,
      ko: int, o: int, anchor: int)
    requires Mid(t0, t, keeper, duplicate, handled, byAnchor, lossless) && keeper != duplicate
    requires IsSmooth(t0, keeper, duplicate, lossless) && o !in handled
    requires KeepsDate(t0.posts, t0.occasions, duplicate, Some(anchor), o)
    requires KeepsDate(t.posts, t.occasions, duplicate, Some(anchor), o)
    requires KeepsDate(t.posts, t.occasions, keeper, Some(anchor), ko)
    ensures lossless ==> !Collides(t.links, OccasionDestinations, o, ko)
    ensures forall row <- t.links :: !IsOn(t.links, row, PostDestinations, o)
  {
    assert SyncFree(t0.links, t0.occasions, duplicate) || DistinctDates(t0, duplicate);
    forall row <- t.links | t.links[row].post == o
      ensures row in t0.links && t0.links[row] == t.links[row]
    {
      RowsOnUnhandled(t0, t, keeper, duplicate, handled, byAnchor, lossless, o, row);
    }
    if SyncFree(t0.links, t0.occasions, duplicate) {
      hide Mid, HasDate, Compatible, Detachable;
    } else {
      forall row
        ensures KeepsDate(t0.posts, t0.occasions, keeper, Some(anchor), ko)
        ensures row in t.links && t.links[row].post == ko && row.relation == OccasionDestinations ==>
          row in t0.links && t0.links[row] == t.links[row]
      {
        RowsOnDate(t0, t, keeper, duplicate, handled, byAnchor, lossless, ko, o, anchor, row);
      }
      hide Mid, SyncFree, DistinctDates, NoClash, Detachable, Collides;
      assert IsDoubled(t0, keeper, duplicate, o);
      assert lossless ==> !Collides(t0.links, OccasionDestinations, o, ko);
      CollidesThere(t.links, t0.links, OccasionDestinations, o, ko);
    }
  }

  lemma MergeGoesThrough(t: Tables, ko: int, o: int)
    requires Integrity(t) && o in t.occasions && o in t.posts && ko in t.posts && ko != o
    requires forall row <- t.links :: !IsOn(t.links, row, PostDestinations, o)
    ensures MergedAndDeleted(OccasionReassigned(t, ko, o), ko, o).Ok?
  {
    NoEventCascades(t, o);
    hide Integrity, CascadedOccasions;
    RecombinedRows(t.links, OccasionDestinations, o, ko);
    hide Recombined;
    var t2 := OccasionReassigned(t, ko, o).(posts := MediaMerged(t.posts, ko, o));
    forall row <- t2.links
      ensures !IsOn(t2.links, row, PostDestinations, o)
      ensures row.relation == OccasionDestinations ==> t2.links[row].post != o
    {
      assert !IsOn(t.links, row, PostDestinations, o);
      assert t2.links[row].post == o ==> row in RowsOn(t2.links, row.relation, o);
    }
  }

  lemma MergeIsSmooth(
      t0: Tables, t: Tables, keeper: int, duplicate: int, handled: set<int>, byAnchor: map<int, int>, lossless: bool,
      o: int, anchor: int)
    requires Mid(t0, t, keeper, duplicate, handled, byAnchor, lossless) && keeper != duplicate
    requires IsSmooth(t0, keeper, duplicate, lossless) && anchor in byAnchor
    requires o !in handled && KeepsDate(t0.posts, t0.occasions, duplicate, Some(anchor), o)
    ensures byAnchor[anchor] in t.posts && o in t.posts
    ensures lossless ==> !Collides(t.links, OccasionDestinations, o, byAnchor[anchor])
    ensures MergedAndDeleted(OccasionReassigned(t, byAnchor[anchor], o), byAnchor[anchor], o).Ok?
  {
    Untouched(t0, t, keeper, duplicate, handled, o);
    UntouchedPost(t0, t, keeper, handled, o);
    DateOf(t0, t, keeper, duplicate, handled, byAnchor, lossless, anchor);
    DateIsNot(t, keeper, Some(anchor), byAnchor[anchor], o);
    assert Integrity(t);
    hide Mid, Integrity, IsSmooth;
    NoCollisionOnMerge(t0, t, keeper, duplicate, handled, byAnchor, lossless, byAnchor[anchor], o, anchor);
    MergeGoesThrough(t, byAnchor[anchor], o);
  }

  lemma NoEventCascades(t: Tables, o: int)
    requires Integrity(t) && o in t.occasions
    ensures CascadedOccasions(t.occasions, o) == {o}
  {
    hide Unique, PostsRefer, RsvpsRefer, LinksRefer;
  }

  /** Rows that are also elsewhere collide there too. */
  lemma CollidesThere(here: Links, there: Links, relation: Relation, a: int, b: int)
    requires forall row <- here ::
      row.relation == relation && (here[row].post == a || here[row].post == b) ==>
        row in there && there[row] == here[row]
    ensures Collides(here, relation, a, b) ==> Collides(there, relation, a, b)
  {
    if Collides(here, relation, a, b) {
      var x, y :| x in here && y in here && IsOn(here, x, relation, a) && IsOn(here, y, relation, b)
                  && here[x].other == here[y].other;
      assert IsOn(there, x, relation, a) && IsOn(there, y, relation, b);
    }
  }

  /** Looking after one relation changes nothing about collisions in another. */
  lemma OtherCollisions(links: Links, relation: Relation, other: Relation, from: int, to: int)
    requires relation != other && from != to
    ensures Collides(Recombined(links, relation, from, to), other, from, to) <==> Collides(links, other, from, to)
  {
    RecombinedRows(links, relation, from, to);
    hide Recombined, Collides;
    CollidesThere(links, Recombined(links, relation, from, to), other, from, to);
    CollidesThere(Recombined(links, relation, from, to), links, other, from, to);
  }

  lemma NoClashNoCollision(links: Links, keeper: int, duplicate: int)
    requires NoClash(links, duplicate, keeper) && keeper != duplicate
    ensures NoCollision(links, keeper, duplicate)
  {
    var one := Recombined(links, GroupPosts, duplicate, keeper);
    OtherCollisions(links, GroupPosts, UserPosts, duplicate, keeper);
    OtherCollisions(links, GroupPosts, PostDestinations, duplicate, keeper);
    OtherCollisions(one, UserPosts, PostDestinations, duplicate, keeper);
    hide Recombined, Collides;
  }

  /** The rows on an event's post are the original ones until its turn comes. */
  lemma StaysClashFree(
      t0: Tables, t: Tables, keeper: int, duplicate: int, handled: set<int>, byAnchor: map<int, int>, lossless: bool)
    requires Mid(t0, t, keeper, duplicate, handled, byAnchor, lossless) && Integrity(t0)
    requires keeper in t0.events && duplicate in t0.events && keeper != duplicate
    requires NoClash(t0.links, duplicate, keeper)
    ensures NoCollision(t.links, keeper, duplicate)
  {
    EventHasNoOccasion(t, keeper);
    EventHasNoOccasion(t, duplicate);
    EventHasNoOccasion(t0, keeper);
    EventHasNoOccasion(t0, duplicate);
    hide Integrity, PostsMid, RsvpsMid, AnchorsMid;
    assert forall row <- t.links :: t.links[row].post == keeper || t.links[row].post == duplicate ==>
        t.links[row] == t0.links[row];
    hide LinksMid, OccasionsMid, Collides, NoCollision;
    forall relation ensures !Collides(t.links, relation, duplicate, keeper) {
      CollidesThere(t.links, t0.links, relation, duplicate, keeper);
    }
    NoClashNoCollision(t.links, keeper, duplicate);
  }

  /** No sync-out record is in the way of the event's post. */
  lemma NotInTheWay(
      t0: Tables, t: Tables, keeper: int, duplicate: int, handled: set<int>, byAnchor: map<int, int>, lossless: bool)
    requires Mid(t0, t, keeper, duplicate, handled, byAnchor, lossless) && keeper != duplicate
    requires AllHandled(t0, keeper, duplicate, handled) && OccasionsRefer(t0.posts, t0.events, t0.occasions)
    requires Detachable(t0, duplicate) && duplicate !in t.occasions
    ensures forall row <- t.links ::
      row.relation == OccasionDestinations ==> t.links[row].post !in CascadedOccasions(t.occasions, duplicate)
  {
    SingleIs(keeper, duplicate);
    forall row <- t.links | row.relation == OccasionDestinations
      ensures t.links[row].post !in CascadedOccasions(t.occasions, duplicate)
    {
      var p := t.links[row].post;
      if p in t.occasions && t.occasions[p] == duplicate {
        RowsOnUnhandled(t0, t, keeper, duplicate, handled, byAnchor, lossless, p, row);
      }
      hide Mid;
    }
    hide Mid;
  }

  lemma NotRestricted(t: Tables, t2: Tables, keeper: int, duplicate: int)
    requires PostRowsMoved(t.links, t2.links, keeper, duplicate, false) && t2.occasions == t.occasions
    requires forall row <- t.links :: !IsOn(t.links, row, OccasionDestinations, duplicate)
    requires forall row <- t.links ::
      row.relation == OccasionDestinations ==> t.links[row].post !in CascadedOccasions(t.occasions, duplicate)
    ensures !Restricted(t2, duplicate)
  {
    hide CascadedOccasions;
    forall row <- t2.links
      ensures !IsOn(t2.links, row, PostDestinations, duplicate)
      ensures row.relation == OccasionDestinations ==>
        t2.links[row].post !in CascadedOccasions(t.occasions, duplicate)
    {
      assert t.links[row].post == duplicate ==> !IsOn(t.links, row, OccasionDestinations, duplicate);
    }
  }

  lemma FinishGoesThrough(
      t0: Tables, t: Tables, keeper: int, duplicate: int, handled: set<int>, byAnchor: map<int, int>, lossless: bool)
    requires Mid(t0, t, keeper, duplicate, handled, byAnchor, lossless) && Integrity(t0)
    requires keeper in t0.events && duplicate in t0.events && keeper != duplicate
    requires AllHandled(t0, keeper, duplicate, handled) && Detachable(t0, duplicate)
    ensures keeper in t.posts && duplicate in t.posts
    ensures MergedAndDeleted(PostReassigned(t, keeper, duplicate), keeper, duplicate).Ok?
  {
    MidParts(t0, t, keeper, duplicate, handled, byAnchor, lossless);
    hide Mid, Integrity, Detachable, AllHandled, NoCollision, Restricted, CascadedOccasions, OccasionsMid, PostsMid,
         RsvpsMid, LinksMid, AnchorsMid, DatesMid, MediaMid, Recombined, Unique, PostRowsMoved;
    EventHasNoOccasion(t, keeper);
    EventHasNoOccasion(t, duplicate);
    PostRows(t, keeper, duplicate, false);
    NotInTheWay(t0, t, keeper, duplicate, handled, byAnchor, lossless);
    KeysStay(t, keeper, duplicate);
    var t1 := PostReassigned(t, keeper, duplicate);
    var t2 := t1.(posts := MediaMerged(t1.posts, keeper, duplicate));
    NotRestricted(t, t2, keeper, duplicate);
  }

  // ----- What a commit implies -----

  /** Where nothing was lost, no two of the posts that became one had a group, user or destination in common. */
  lemma CommitMeansNoClash(t0: Tables, t: Tables, home: Homes, a: int, b: int, keeper: int)
    requires Outcome(t0, t, home, true) && Integrity(t0) && a != b
    requires a in home && home[a] == keeper && a in t0.events
    requires b == keeper || (b in home && home[b] == keeper)
    requires b in t0.events && (b == keeper ==> b !in home)
    ensures NoClash(t0.links, a, b)
  {
    EventHasNoOccasion(t0, b);
    assert Unique(t.links);
    hide Integrity, RsvpsKept, OccasionsKept, PostsKept, Unique;
    forall relation ensures !Collides(t0.links, relation, a, b) {
      if Collides(t0.links, relation, a, b) {
        var x, y :| x in t0.links && y in t0.links && IsOn(t0.links, x, relation, a) && IsOn(t0.links, y, relation, b)
                    && t0.links[x].other == t0.links[y].other;
        assert RowKept(t0, t, home, true, x) && RowKept(t0, t, home, true, y);
        SamePlace(t.links, x, y);
      }
    }
  }

  lemma SamePlace(links: Links, x: Row, y: Row)
    requires Unique(links) && x in links && y in links && x.relation == y.relation && links[x] == links[y]
    ensures x == y
  {
  }

  /** Nor was there a sync-out record of an occasion that went with its event. */
  lemma CommitMeansUnrestricted(t0: Tables, t: Tables, home: Homes, lossless: bool, row: Row)
    requires Outcome(t0, t, home, lossless) && Integrity(t0) && AreHomes(t0.events, home)
    requires row in t0.links && row.relation == OccasionDestinations
    ensures !IsUnanchored(t0, home, t0.links[row].post)
  {
    var p := t0.links[row].post;
    assert RowKept(t0, t, home, lossless, row);
    assert p in t0.occasions ==> p !in t0.events;
    assert p in t.occasions ==> !IsUnanchored(t0, home, p);
    assert row in t.links ==> t.links[row].post in t.occasions;
    assert p in home ==> p in t0.events;
    hide Integrity, Outcome, AreHomes;
  }

  lemma CommitMeansClashFree(t0: Tables, t: Tables, keeper: int, duplicates: seq<int>)
    requires Collapsed(t0, t, keeper, duplicates, true) && Integrity(t0) && IsGroup(t0.events, keeper, duplicates)
    ensures ClashFree(t0.links, keeper, duplicates)
  {
    var home := AllTo(keeper, duplicates);
    hide Integrity, Outcome, NoClash;
    forall d <- duplicates ensures NoClash(t0.links, d, keeper) {
      CommitMeansNoClash(t0, t, home, d, keeper, keeper);
    }
    forall i, j | 0 <= i < j < |duplicates| ensures NoClash(t0.links, duplicates[j], duplicates[i]) {
      CommitMeansNoClash(t0, t, home, duplicates[j], duplicates[i], keeper);
    }
  }

  lemma DoubledIsPreceded(t: Tables, keeper: int, duplicates: seq<int>, elder: int, d: int, o: int)
    requires d in duplicates && (elder == keeper || (elder in duplicates && ComesBefore(duplicates, elder, d)))
    ensures IsDoubled(t, elder, d, o) ==>
      IsAnchored(t, AllTo(keeper, duplicates), o) && IsPreceded(t, AllTo(keeper, duplicates), duplicates, o)
  {
    hide HasDate, ComesBefore;
  }

  // A doubled occasion has been merged away, which a record of its post would not have allowed.
  lemma CommitMeansUndoubled(
      t0: Tables, t: Tables, keeper: int, duplicates: seq<int>, lossless: bool, elder: int, d: int, row: Row)
    requires OccasionsKept(t0, t, AllTo(keeper, duplicates)) && PostsKept(t0, t, AllTo(keeper, duplicates))
    requires LinksKept(t0, t, AllTo(keeper, duplicates), lossless)
    requires FirstKeeps(t0, t, AllTo(keeper, duplicates), duplicates)
    requires d in duplicates && (elder == keeper || (elder in duplicates && ComesBefore(duplicates, elder, d)))
    requires row in t0.links && row.relation == PostDestinations && t0.links[row].post !in duplicates
    ensures !IsDoubled(t0, elder, d, t0.links[row].post)
  {
    var home, o := AllTo(keeper, duplicates), t0.links[row].post;
    assert RowKept(t0, t, home, lossless, row);
    assert IsAnchored(t0, home, o) ==> o in t0.posts && (o in t.posts <==> o in t.occasions);
    DoubledIsPreceded(t0, keeper, duplicates, elder, d, o);
    hide HasDate, KeepsDate, OccasionsKept, PostsKept, LinksKept, IsPreceded, IsDoubled, IsAnchored, AllTo;
  }

  /** A sync-out row of the group's for an anchor is on a date of the keeper's for it. */
  lemma RowOnDate(
      t0: Tables, t: Tables, home: Homes, keeper: int, anchor: int, e: int, o: int, row: Row)
    requires Outcome(t0, t, home, true) && Sound(t) && o !in home
    requires (e == keeper && keeper !in home) || (e in home && home[e] == keeper)
    requires KeepsDate(t0.posts, t0.occasions, e, Some(anchor), o)
    requires row in t0.links && IsOn(t0.links, row, OccasionDestinations, o)
    ensures row in t.links && t.links[row].other == t0.links[row].other
    ensures KeepsDate(t.posts, t.occasions, keeper, Some(anchor), t.links[row].post)
  {
    OutcomeParts(t0, t, home, true);
    assert RowKept(t0, t, home, true, row);
    assert row in t.links ==> t.links[row].other == t0.links[row].other;
    hide Outcome, OccasionsKept, PostsKept, LinksKept, Sound;
    if e == keeper {
      OccasionStays(t0, t, home, o);
    }
  }

  lemma CommitMeansNoSharedDate(t0: Tables, t: Tables, home: Homes, keeper: int, elder: int, d: int)
    requires Outcome(t0, t, home, true) && Integrity(t0) && AreHomes(t0.events, home) && elder != d
    requires d in home && home[d] == keeper && (elder == keeper || (elder in home && home[elder] == keeper))
    requires DistinctDates(t0, keeper)
    ensures NoSharedDate(t0, elder, d)
  {
    OutcomeParts(t0, t, home, true);
    SoundParts(t0);
    SoundParts(t);
    assert keeper !in home;
    assert Unique(t.links);
    hide Outcome, Integrity, Unique, OccasionsKept, PostsKept, LinksKept, DatesMerged, Sound, HasDate;
    StaysDistinct(t0, t, home, keeper);
    forall anchor: int, x, o
      | KeepsDate(t0.posts, t0.occasions, elder, Some(anchor), x)
        && KeepsDate(t0.posts, t0.occasions, d, Some(anchor), o)
      ensures !Collides(t0.links, OccasionDestinations, o, x)
    {
      if Collides(t0.links, OccasionDestinations, o, x) {
        var a, b :| a in t0.links && b in t0.links && IsOn(t0.links, a, OccasionDestinations, o)
                    && IsOn(t0.links, b, OccasionDestinations, x) && t0.links[a].other == t0.links[b].other;
        NoEvent(t0, home, o);
        NoEvent(t0, home, x);
        RowOnDate(t0, t, home, keeper, anchor, d, o, a);
        RowOnDate(t0, t, home, keeper, anchor, elder, x, b);
        SamePlace(t.links, a, b);
      }
    }
  }

  lemma NoEvent(t: Tables, home: Homes, o: int)
    requires Integrity(t) && AreHomes(t.events, home)
    ensures o in t.occasions ==> o !in home
  {
    assert Separate(t.events, t.occasions);
    hide Integrity;
  }

  lemma SoundParts(t: Tables)
    requires Integrity(t)
    ensures Sound(t)
  {
  }

  /** A group that was collapsed had nothing in the way, where the order of loading does not matter. */
  lemma CommitMeansCompatible(
      t0: Tables, t: Tables, keeper: int, duplicates: seq<int>, lossless: bool, elder: int, d: int, aborts: bool)
    requires Collapsed(t0, t, keeper, duplicates, lossless) && (aborts ==> lossless)
    requires Integrity(t0) && IsGroup(t0.events, keeper, duplicates) && d in duplicates && elder != d
    requires elder == keeper || (elder in duplicates && ComesBefore(duplicates, elder, d))
    requires aborts ==> SyncFree(t0.links, t0.occasions, d) || DistinctDates(t0, keeper)
    ensures Compatible(t0, elder, d, aborts)
  {
    var home := AllTo(keeper, duplicates);
    GroupHomes(t0.events, keeper, duplicates);
    CollapsedIs(t0, t, keeper, duplicates, lossless);
    OutcomeParts(t0, t, home, lossless);
    hide Collapsed, Outcome, OccasionsKept, PostsKept, LinksKept, DatesMerged, FirstKeeps, Integrity, AreHomes, NoClash,
         NoSharedDate, IsDoubled, ComesBefore, SyncFree, HasDate;
    forall row <- t0.links | row.relation == PostDestinations ensures !IsDoubled(t0, elder, d, t0.links[row].post) {
      if t0.links[row].post in duplicates {
        NotDoubled(t0, elder, d, t0.links[row].post);
      } else {
        CommitMeansUndoubled(t0, t, keeper, duplicates, lossless, elder, d, row);
      }
    }
    if aborts {
      CommitMeansNoClash(t0, t, home, d, elder, keeper);
      if SyncFree(t0.links, t0.occasions, d) {
        SyncFreeCompatible(t0, elder, d, true);
      } else {
        CommitMeansNoSharedDate(t0, t, home, keeper, elder, d);
      }
    }
  }

  lemma NotDoubled(t: Tables, elder: int, d: int, o: int)
    requires Integrity(t) && o in t.events
    ensures !IsDoubled(t, elder, d, o)
  {
    EventHasNoOccasion(t, o);
    hide Integrity;
  }

  lemma CommitMeansDetachable(t0: Tables, t: Tables, keeper: int, duplicates: seq<int>, lossless: bool, d: int)
    requires Collapsed(t0, t, keeper, duplicates, lossless)
    requires Integrity(t0) && IsGroup(t0.events, keeper, duplicates) && d in duplicates
    ensures Detachable(t0, d)
  {
    GroupHomes(t0.events, keeper, duplicates);
    var home := AllTo(keeper, duplicates);
    assert Outcome(t0, t, home, lossless);
    hide Collapsed, Outcome, Integrity, AreHomes;
    forall row <- t0.links | row.relation == OccasionDestinations ensures !IsLoose(t0, d, t0.links[row].post) {
      CommitMeansUnrestricted(t0, t, home, lossless, row);
    }
  }

  /** Without sync-out records, groups are predictable and only clashes count. */
  lemma SyncFreeGroup(t: Tables, keeper: int, duplicates: seq<int>, aborts: bool)
    requires AllSyncFree(t, duplicates)
    ensures IsPredictable(t, keeper, duplicates)
    ensures CompatibleGroup(t, keeper, duplicates, aborts) <==> !aborts || ClashFree(t.links, keeper, duplicates)
  {
    hide SyncFree, Compatible, NoClash, Detachable, DistinctDates;
    forall d <- duplicates
      ensures Detachable(t, d) && (Compatible(t, keeper, d, aborts) <==> !aborts || NoClash(t.links, d, keeper))
    {
      SyncFreeCompatible(t, keeper, d, aborts);
    }
    forall i, j | 0 <= i < j < |duplicates|
      ensures Compatible(t, duplicates[i], duplicates[j], aborts)
         <==> !aborts || NoClash(t.links, duplicates[j], duplicates[i])
    {
      SyncFreeCompatible(t, duplicates[i], duplicates[j], aborts);
    }
  }

  lemma CommitMeansCompatibleGroup(
      t0: Tables, t: Tables, keeper: int, duplicates: seq<int>, lossless: bool, aborts: bool)
    requires Collapsed(t0, t, keeper, duplicates, lossless) && (aborts ==> lossless)
    requires Integrity(t0) && IsGroup(t0.events, keeper, duplicates)
    requires aborts ==> IsPredictable(t0, keeper, duplicates)
    ensures CompatibleGroup(t0, keeper, duplicates, aborts)
  {
    hide Collapsed, Integrity, Compatible, Detachable, SyncFree, DistinctDates;
    forall d <- duplicates ensures Detachable(t0, d) && Compatible(t0, keeper, d, aborts) {
      CommitMeansDetachable(t0, t, keeper, duplicates, lossless, d);
      CommitMeansCompatible(t0, t, keeper, duplicates, lossless, keeper, d, aborts);
    }
    forall i, j | 0 <= i < j < |duplicates| ensures Compatible(t0, duplicates[i], duplicates[j], aborts) {
      assert duplicates[j] in duplicates && ComesBefore(duplicates, duplicates[i], duplicates[j]);
      CommitMeansCompatible(t0, t, keeper, duplicates, lossless, duplicates[i], duplicates[j], aborts);
    }
  }
}
