/** What one collapse leaves in the way of the next, within its group and outside it: nothing that was not in its way
    before. A duplicate meets what it shared with the keeper or with a duplicate collapsed earlier, and an event
    outside the groups sees no difference. */
module EventSequence {
  import opened Wrappers
  import opened EventTables
  import opened EventCollapse
  import opened EventOutcome
  import opened EventGroups
  import opened EventDates
  import opened EventObstacles

  // ----- The next duplicate of the group -----

  /** An event outside the groups collapsed, at either end. */
  ghost predicate IsOutside(t: Tables, t': Tables, home: Homes, event: int) {
    && event !in t.occasions && event !in t'.occasions && event !in home
    && forall d <- home :: home[d] != event
  }

  /** Its rows are what they were. */
  lemma RowsOutside(t: Tables, t': Tables, home: Homes, lossless: bool, event: int, row: Row)
    requires LinksKept(t, t', home, lossless) && IsOutside(t, t', home, event)
    ensures row in t.links && t.links[row].post == event ==> row in t'.links && t'.links[row] == t.links[row]
    ensures row in t'.links && t'.links[row].post == event ==> row in t.links && t.links[row] == t'.links[row]
  {
    assert row in t.links ==> RowKept(t, t', home, lossless, row);
    hide IsUnanchored;
  }

  /** No sync-out row comes to an occasion of an event that is no keeper. */
  lemma SyncFreeAfter(t: Tables, t': Tables, home: Homes, lossless: bool, event: int)
    requires OccasionsKept(t, t', home) && LinksKept(t, t', home, lossless)
    requires forall d <- home :: home[d] !in t'.occasions && home[d] != event
    requires event !in home && SyncFree(t.links, t.occasions, event)
    ensures SyncFree(t'.links, t'.occasions, event)
  {
    forall row <- t'.links | row.relation == OccasionDestinations || row.relation == PostDestinations
      ensures !(t'.links[row].post in t'.occasions && t'.occasions[t'.links[row].post] == event)
    {
      var p' := t'.links[row].post;
      assert RowKept(t, t', home, lossless, row);
      assert p' in t'.occasions ==> p' in t.occasions && t'.occasions[p'] == HomeOf(home, t.occasions[p']);
      hide OccasionsKept, LinksKept, SyncFree, IsUnanchored;
    }
  }

  /** The next duplicate clashes with the keeper only if it clashed with it or with one collapsed before. */
  lemma NoClashWithKeeper(t: Tables, t': Tables, keeper: int, duplicates: seq<int>, lossless: bool, duplicate: int)
    requires LinksKept(t, t', AllTo(keeper, duplicates), lossless)
    requires IsOutside(t, t', map[], duplicate) && IsOutside(t, t', map[], keeper)
    requires duplicate != keeper && duplicate !in duplicates
    requires NoClash(t.links, duplicate, keeper) && forall d <- duplicates :: NoClash(t.links, duplicate, d)
    ensures NoClash(t'.links, duplicate, keeper)
  {
    hide LinksKept;
    forall relation ensures !Collides(t'.links, relation, duplicate, keeper) {
      if Collides(t'.links, relation, duplicate, keeper) {
        var a, b :| a in t'.links && b in t'.links && IsOn(t'.links, a, relation, duplicate)
                    && IsOn(t'.links, b, relation, keeper) && t'.links[a].other == t'.links[b].other;
        ClashBefore(t, t', keeper, duplicates, lossless, duplicate, relation, a, b);
      }
    }
  }

  lemma ClashBefore(
      t: Tables, t': Tables, keeper: int, duplicates: seq<int>, lossless: bool, duplicate: int,
      relation: Relation, a: Row, b: Row)
    requires LinksKept(t, t', AllTo(keeper, duplicates), lossless)
    requires IsOutside(t, t', map[], duplicate) && IsOutside(t, t', map[], keeper)
    requires duplicate != keeper && duplicate !in duplicates
    requires IsOn(t'.links, a, relation, duplicate) && IsOn(t'.links, b, relation, keeper)
    requires t'.links[a].other == t'.links[b].other
    ensures exists d :: (d == keeper || d in duplicates) && Collides(t.links, relation, duplicate, d)
  {
    var home := AllTo(keeper, duplicates);
    RowsOutside(t, t', home, lossless, duplicate, a);
    assert b in t.links && t.links[b].other == t'.links[b].other;
    assert RowKept(t, t', home, lossless, b);
    var d := t.links[b].post;
    assert d == keeper || d in duplicates by {
      hide LinksKept, IsUnanchored;
    }
    assert IsOn(t.links, a, relation, duplicate) && IsOn(t.links, b, relation, d);
    hide LinksKept, RowKept;
  }

  /** A row on an occasion of an event that is no keeper was there before. */
  lemma RowWas(t: Tables, t': Tables, home: Homes, lossless: bool, event: int, o: int, row: Row)
    requires LinksKept(t, t', home, lossless) && o in t'.occasions && t'.occasions[o] == event
    requires forall d <- home :: home[d] !in t'.occasions
    requires forall d <- home :: home[d] != event
    requires row in t'.links && t'.links[row].post == o
    ensures row in t.links && t.links[row] == t'.links[row]
  {
    assert row in t.links && RowKept(t, t', home, lossless, row);
    assert t'.links[row].other == t.links[row].other;
    NotKeepers(t, home, event, t.links[row].post);
    hide LinksKept, IsUnanchored, IsAnchored;
  }

  lemma NotKeepers(t: Tables, home: Homes, event: int, p: int)
    requires forall d <- home :: home[d] != event
    ensures IsAnchored(t, home, p) ==> home[t.occasions[p]] != event
  {
    if IsAnchored(t, home, p) {
      var d := t.occasions[p];
      assert home[d] != event;
    }
  }

  /** A sync-out row on a keeper's date was on it, or on a duplicate's for the same anchor. */
  lemma RowCame(
      t: Tables, t': Tables, home: Homes, lossless: bool, keeper: int, anchor: Option<int>, x: int, row: Row)
    requires OccasionsKept(t, t', home) && PostsKept(t, t', home) && LinksKept(t, t', home, lossless)
    requires forall d <- home :: home[d] !in t'.occasions
    requires KeepsDate(t'.posts, t'.occasions, keeper, anchor, x)
    requires row in t'.links && IsOn(t'.links, row, OccasionDestinations, x)
    ensures row in t.links && t.links[row].other == t'.links[row].other
    ensures var q := t.links[row].post;
      && q in t.occasions && KeepsDate(t.posts, t.occasions, t.occasions[q], anchor, q)
      && (t.occasions[q] == keeper || (t.occasions[q] in home && home[t.occasions[q]] == keeper))
  {
    assert row in t.links && RowKept(t, t', home, lossless, row);
    DateWas(t, t', home, keeper, anchor, x);
    hide LinksKept, OccasionsKept, PostsKept, IsUnanchored;
  }

  /** The next duplicate's dates are what they were. */
  lemma NextDates(t0: Tables, t: Tables, keeper: int, duplicates: seq<int>, d: int, anchor: Option<int>, o: int)
    requires OccasionsKept(t0, t, AllTo(keeper, duplicates)) && PostsKept(t0, t, AllTo(keeper, duplicates))
    requires d != keeper
    ensures KeepsDate(t.posts, t.occasions, d, anchor, o) ==> KeepsDate(t0.posts, t0.occasions, d, anchor, o)
  {
    if KeepsDate(t.posts, t.occasions, d, anchor, o) {
      DateWas(t0, t, AllTo(keeper, duplicates), d, anchor, o);
    }
    hide OccasionsKept, PostsKept;
  }

  lemma DoubledBefore(t0: Tables, t: Tables, keeper: int, duplicates: seq<int>, d: int, o: int)
    requires OccasionsKept(t0, t, AllTo(keeper, duplicates)) && PostsKept(t0, t, AllTo(keeper, duplicates))
    requires d != keeper
    ensures IsDoubled(t, keeper, d, o) ==> exists e :: (e == keeper || e in duplicates) && IsDoubled(t0, e, d, o)
  {
    if IsDoubled(t, keeper, d, o) {
      var anchor := t.posts[o].anchor;
      NextDates(t0, t, keeper, duplicates, d, anchor, o);
      DateCameFrom(t0, t, AllTo(keeper, duplicates), keeper, anchor);
      hide OccasionsKept, PostsKept, HasDate;
      if HasDate(t0.posts, t0.occasions, keeper, anchor) {
        assert IsDoubled(t0, keeper, d, o);
      } else {
        var e :| e in AllTo(keeper, duplicates) && HasDate(t0.posts, t0.occasions, e, anchor);
        assert IsDoubled(t0, e, d, o);
      }
    }
  }

  lemma StillNoneShared(
      t0: Tables, t: Tables, keeper: int, duplicates: seq<int>, lossless: bool, d: int, anchor: int, x: int, o: int)
    requires OccasionsKept(t0, t, AllTo(keeper, duplicates)) && PostsKept(t0, t, AllTo(keeper, duplicates))
    requires LinksKept(t0, t, AllTo(keeper, duplicates), lossless)
    requires keeper !in t.occasions && d != keeper
    requires KeepsDate(t.posts, t.occasions, keeper, Some(anchor), x)
    requires KeepsDate(t.posts, t.occasions, d, Some(anchor), o)
    ensures Collides(t.links, OccasionDestinations, o, x) ==>
      exists e :: (e == keeper || e in duplicates) && !NoSharedDate(t0, e, d)
  {
    var home := AllTo(keeper, duplicates);
    NextDates(t0, t, keeper, duplicates, d, Some(anchor), o);
    hide OccasionsKept, PostsKept, LinksKept;
    if Collides(t.links, OccasionDestinations, o, x) {
      var a, b :| a in t.links && b in t.links && IsOn(t.links, a, OccasionDestinations, o)
                  && IsOn(t.links, b, OccasionDestinations, x) && t.links[a].other == t.links[b].other;
      RowWas(t0, t, home, lossless, d, o, a);
      RowCame(t0, t, home, lossless, keeper, Some(anchor), x, b);
      var q := t0.links[b].post;
      assert IsOn(t0.links, a, OccasionDestinations, o) && IsOn(t0.links, b, OccasionDestinations, q);
      assert Collides(t0.links, OccasionDestinations, o, q);
      assert !NoSharedDate(t0, t0.occasions[q], d);
    }
  }

  lemma StaysCompatible(
      t0: Tables, t: Tables, keeper: int, duplicates: seq<int>, lossless: bool, d: int, aborts: bool)
    requires OccasionsKept(t0, t, AllTo(keeper, duplicates)) && PostsKept(t0, t, AllTo(keeper, duplicates))
    requires LinksKept(t0, t, AllTo(keeper, duplicates), lossless)
    requires IsOutside(t0, t, map[], keeper) && IsOutside(t0, t, map[], d) && d != keeper && d !in duplicates
    requires Compatible(t0, keeper, d, aborts) && forall e <- duplicates :: Compatible(t0, e, d, aborts)
    ensures Compatible(t, keeper, d, aborts)
  {
    hide OccasionsKept, PostsKept, LinksKept, HasDate, NoClash, NoSharedDate, Collides, IsDoubled;
    forall row <- t.links | row.relation == PostDestinations ensures !IsDoubled(t, keeper, d, t.links[row].post) {
      var o := t.links[row].post;
      DoubledBefore(t0, t, keeper, duplicates, d, o);
      if IsDoubled(t, keeper, d, o) {
        DoubledIs(t, keeper, d, o);
        RowWas(t0, t, AllTo(keeper, duplicates), lossless, d, o, row);
      }
    }
    if aborts {
      NoClashWithKeeper(t0, t, keeper, duplicates, lossless, d);
      StaysUnshared(t0, t, keeper, duplicates, lossless, d);
    }
  }

  lemma DoubledIs(t: Tables, elder: int, d: int, o: int)
    requires IsDoubled(t, elder, d, o)
    ensures o in t.occasions && t.occasions[o] == d
  {
  }

  lemma StaysUnshared(t0: Tables, t: Tables, keeper: int, duplicates: seq<int>, lossless: bool, d: int)
    requires OccasionsKept(t0, t, AllTo(keeper, duplicates)) && PostsKept(t0, t, AllTo(keeper, duplicates))
    requires LinksKept(t0, t, AllTo(keeper, duplicates), lossless)
    requires keeper !in t.occasions && d != keeper
    requires NoSharedDate(t0, keeper, d) && forall e <- duplicates :: NoSharedDate(t0, e, d)
    ensures NoSharedDate(t, keeper, d)
  {
    hide OccasionsKept, PostsKept, LinksKept, Collides;
    forall anchor: int, x, o
      | KeepsDate(t.posts, t.occasions, keeper, Some(anchor), x) && KeepsDate(t.posts, t.occasions, d, Some(anchor), o)
      ensures !Collides(t.links, OccasionDestinations, o, x)
    {
      StillNoneShared(t0, t, keeper, duplicates, lossless, d, anchor, x, o);
      hide KeepsDate;
    }
  }

  lemma StaysDetachable(t: Tables, t': Tables, home: Homes, lossless: bool, d: int)
    requires OccasionsKept(t, t', home) && PostsKept(t, t', home) && LinksKept(t, t', home, lossless)
    requires forall e <- home :: home[e] !in t'.occasions
    requires forall e <- home :: home[e] != d
    requires Detachable(t, d)
    ensures Detachable(t', d)
  {
    hide OccasionsKept, PostsKept, LinksKept;
    forall row <- t'.links | row.relation == OccasionDestinations ensures !IsLoose(t', d, t'.links[row].post) {
      var o := t'.links[row].post;
      if IsLoose(t', d, o) {
        DateWas(t, t', home, d, None, o);
        RowWas(t, t', home, lossless, d, o, row);
      }
    }
  }

  lemma EarlierOnes(duplicates: seq<int>, i: nat, x: int)
    requires i < |duplicates| && x in duplicates[..i]
    ensures exists j :: 0 <= j < i && duplicates[j] == x
  {
  }

  lemma NextClashFree(t0: Tables, t: Tables, keeper: int, duplicates: seq<int>, i: nat, lossless: bool)
    requires i < |duplicates| && keeper != duplicates[i]
    requires duplicates[i] !in duplicates[..i] && keeper !in duplicates[..i]
    requires IsOutside(t0, t, map[], keeper) && IsOutside(t0, t, map[], duplicates[i])
    requires LinksKept(t0, t, AllTo(keeper, duplicates[..i]), lossless) && ClashFree(t0.links, keeper, duplicates)
    ensures NoClash(t.links, duplicates[i], keeper)
  {
    hide LinksKept, NoClash;
    forall x <- duplicates[..i] ensures NoClash(t0.links, duplicates[i], x) {
      EarlierOnes(duplicates, i, x);
    }
    NoClashWithKeeper(t0, t, keeper, duplicates[..i], lossless, duplicates[i]);
  }

  lemma NextCompatible(
      t0: Tables, t: Tables, keeper: int, duplicates: seq<int>, i: nat, lossless: bool, aborts: bool)
    requires i < |duplicates| && keeper != duplicates[i]
    requires duplicates[i] !in duplicates[..i] && keeper !in duplicates[..i]
    requires IsOutside(t0, t, map[], keeper) && IsOutside(t0, t, map[], duplicates[i])
    requires OccasionsKept(t0, t, AllTo(keeper, duplicates[..i])) && PostsKept(t0, t, AllTo(keeper, duplicates[..i]))
    requires LinksKept(t0, t, AllTo(keeper, duplicates[..i]), lossless)
    requires CompatibleGroup(t0, keeper, duplicates, aborts)
    ensures CompatibleGroup(t, keeper, [duplicates[i]], aborts)
  {
    hide OccasionsKept, PostsKept, LinksKept, Compatible, Detachable;
    forall x <- duplicates[..i] ensures Compatible(t0, x, duplicates[i], aborts) {
      EarlierOnes(duplicates, i, x);
    }
    StaysCompatible(t0, t, keeper, duplicates[..i], lossless, duplicates[i], aborts);
    StaysDetachable(t0, t, AllTo(keeper, duplicates[..i]), lossless, duplicates[i]);
  }

  lemma NextPredictable(t0: Tables, t: Tables, keeper: int, duplicates: seq<int>, i: nat, lossless: bool)
    requires i < |duplicates| && keeper != duplicates[i]
    requires duplicates[i] !in duplicates[..i] && keeper !in duplicates[..i]
    requires IsOutside(t0, t, map[], keeper) && IsOutside(t0, t, map[], duplicates[i])
    requires OccasionsKept(t0, t, AllTo(keeper, duplicates[..i])) && PostsKept(t0, t, AllTo(keeper, duplicates[..i]))
    requires LinksKept(t0, t, AllTo(keeper, duplicates[..i]), lossless) && Sound(t)
    requires DatesMerged(t0, t, AllTo(keeper, duplicates[..i])) && IsPredictable(t0, keeper, duplicates)
    ensures IsPredictable(t, keeper, [duplicates[i]])
  {
    var d, home := duplicates[i], AllTo(keeper, duplicates[..i]);
    assert IsOutside(t0, t, map[], keeper) ==> keeper !in t.occasions;
    hide *;
    OneKeeper(keeper, duplicates[..i]);
    PredictableParts(t0, keeper, duplicates, i);
    if SyncFree(t0.links, t0.occasions, d) {
      SyncFreeAfter(t0, t, home, lossless, d);
    } else {
      StaysDistinct(t0, t, home, keeper);
      StaysDistinct(t0, t, home, d);
    }
    PredictableOne(t, keeper, d);
  }

  lemma PredictableParts(t: Tables, keeper: int, duplicates: seq<int>, i: nat)
    requires i < |duplicates| && IsPredictable(t, keeper, duplicates)
    ensures SyncFree(t.links, t.occasions, duplicates[i])
         || (DistinctDates(t, keeper) && DistinctDates(t, duplicates[i]))
  {
    hide SyncFree, DistinctDates;
  }

  lemma PredictableOne(t: Tables, keeper: int, d: int)
    requires SyncFree(t.links, t.occasions, d) || (DistinctDates(t, keeper) && DistinctDates(t, d))
    ensures IsPredictable(t, keeper, [d])
  {
    hide SyncFree, DistinctDates;
  }

  /** Collapsing the first of its duplicates leaves nothing more in the way of the next. */
  lemma NextSmooth(t0: Tables, t: Tables, keeper: int, duplicates: seq<int>, i: nat, lossless: bool, aborts: bool)
    requires i < |duplicates| && Integrity(t0) && Integrity(t)
    requires Collapsed(t0, t, keeper, duplicates[..i], lossless)
    requires keeper in t0.events && keeper in t.events && duplicates[i] in t0.events && duplicates[i] in t.events
    requires keeper != duplicates[i] && duplicates[i] !in duplicates[..i] && keeper !in duplicates[..i]
    ensures ClashFree(t0.links, keeper, duplicates) ==> NoClash(t.links, duplicates[i], keeper)
    ensures IsPredictable(t0, keeper, duplicates) ==> IsPredictable(t, keeper, [duplicates[i]])
    ensures CompatibleGroup(t0, keeper, duplicates, aborts) ==> CompatibleGroup(t, keeper, [duplicates[i]], aborts)
  {
    EventHasNoOccasion(t0, keeper);
    EventHasNoOccasion(t, keeper);
    EventHasNoOccasion(t0, duplicates[i]);
    EventHasNoOccasion(t, duplicates[i]);
    assert IsOutside(t0, t, map[], keeper) && IsOutside(t0, t, map[], duplicates[i]);
    hide *;
    SoundParts(t);
    CollapsedIs(t0, t, keeper, duplicates[..i], lossless);
    OutcomeParts(t0, t, AllTo(keeper, duplicates[..i]), lossless);
    if ClashFree(t0.links, keeper, duplicates) {
      NextClashFree(t0, t, keeper, duplicates, i, lossless);
    }
    if IsPredictable(t0, keeper, duplicates) {
      NextPredictable(t0, t, keeper, duplicates, i, lossless);
    }
    if CompatibleGroup(t0, keeper, duplicates, aborts) {
      NextCompatible(t0, t, keeper, duplicates, i, lossless, aborts);
    }
  }

  // ----- Events outside the group -----

  /** The event, or an occasion of its. */
  ghost predicate IsItsPost(t: Tables, event: int, p: int) {
    p == event || (p in t.occasions && t.occasions[p] == event && p in t.posts)
  }

  /** The event's dates and the rows on it and them are the same. */
  ghost predicate SameView(t: Tables, t': Tables, event: int) {
    && (forall anchor, o ::
          KeepsDate(t.posts, t.occasions, event, anchor, o) <==> KeepsDate(t'.posts, t'.occasions, event, anchor, o))
    && (forall row <- t.links ::
          IsItsPost(t, event, t.links[row].post) ==> row in t'.links && t'.links[row] == t.links[row])
    && (forall row <- t'.links ::
          IsItsPost(t', event, t'.links[row].post) ==> row in t.links && t.links[row] == t'.links[row])
  }

  lemma OutsideView(t: Tables, t': Tables, home: Homes, lossless: bool, event: int)
    requires OccasionsKept(t, t', home) && PostsKept(t, t', home) && LinksKept(t, t', home, lossless) && Sound(t')
    requires IsOutside(t, t', home, event) && forall d <- home :: home[d] !in t'.occasions && d !in t.occasions
    ensures SameView(t, t', event)
  {
    hide OccasionsKept, PostsKept, LinksKept, Sound;
    forall anchor, o
      ensures KeepsDate(t.posts, t.occasions, event, anchor, o) <==> KeepsDate(t'.posts, t'.occasions, event, anchor, o)
    {
      OutsideDate(t, t', home, event, anchor, o);
    }
    forall row <- t.links | IsItsPost(t, event, t.links[row].post)
      ensures row in t'.links && t'.links[row] == t.links[row]
    {
      RowsOutside(t, t', home, lossless, event, row);
      if t.links[row].post != event {
        RowStaysOutside(t, t', home, lossless, event, t.links[row].post, row);
      }
    }
    forall row <- t'.links | IsItsPost(t', event, t'.links[row].post)
      ensures row in t.links && t.links[row] == t'.links[row]
    {
      RowsOutside(t, t', home, lossless, event, row);
      if t'.links[row].post != event {
        RowWas(t, t', home, lossless, event, t'.links[row].post, row);
      }
    }
  }

  lemma OutsideDate(t: Tables, t': Tables, home: Homes, event: int, anchor: Option<int>, o: int)
    requires OccasionsKept(t, t', home) && PostsKept(t, t', home) && Sound(t') && IsOutside(t, t', home, event)
    ensures KeepsDate(t.posts, t.occasions, event, anchor, o) <==> KeepsDate(t'.posts, t'.occasions, event, anchor, o)
  {
    hide OccasionsKept, PostsKept, Sound;
    if KeepsDate(t'.posts, t'.occasions, event, anchor, o) {
      DateWas(t, t', home, event, anchor, o);
    }
    if KeepsDate(t.posts, t.occasions, event, anchor, o) {
      OccasionStays(t, t', home, o);
    }
  }

  lemma RowStaysOutside(t: Tables, t': Tables, home: Homes, lossless: bool, event: int, o: int, row: Row)
    requires LinksKept(t, t', home, lossless) && event !in home && o !in home
    requires o in t.occasions && t.occasions[o] == event && row in t.links && t.links[row].post == o
    ensures row in t'.links && t'.links[row] == t.links[row]
  {
    assert RowKept(t, t', home, lossless, row);
  }

  lemma SameViewBack(t: Tables, t': Tables, event: int)
    requires SameView(t, t', event)
    ensures SameView(t', t, event)
  {
    hide KeepsDate, IsItsPost;
  }

  lemma HasDateSeen(t: Tables, t': Tables, event: int, anchor: Option<int>)
    requires SameView(t, t', event)
    ensures HasDate(t.posts, t.occasions, event, anchor) ==> HasDate(t'.posts, t'.occasions, event, anchor)
  {
    if HasDate(t.posts, t.occasions, event, anchor) {
      var o :| o in t.occasions && KeepsDate(t.posts, t.occasions, event, anchor, o);
      assert KeepsDate(t'.posts, t'.occasions, event, anchor, o);
    }
  }

  lemma DoubledSeen(t: Tables, t': Tables, elder: int, d: int, o: int)
    requires SameView(t, t', elder) && SameView(t, t', d)
    ensures IsDoubled(t, elder, d, o) ==> IsDoubled(t', elder, d, o)
  {
    if IsDoubled(t, elder, d, o) {
      assert KeepsDate(t.posts, t.occasions, d, t.posts[o].anchor, o);
      HasDateSeen(t, t', elder, t.posts[o].anchor);
      hide HasDate;
      assert KeepsDate(t'.posts, t'.occasions, d, t.posts[o].anchor, o);
    }
  }

  lemma CollidesSeen(t: Tables, t': Tables, elder: int, d: int, relation: Relation, a: int, b: int)
    requires SameView(t, t', elder) && SameView(t, t', d) && IsItsPost(t, d, a) && IsItsPost(t, elder, b)
    ensures Collides(t.links, relation, a, b) ==> Collides(t'.links, relation, a, b)
  {
    hide KeepsDate, Collides;
    CollidesThere(t.links, t'.links, relation, a, b);
  }

  lemma CompatibleSeen(t: Tables, t': Tables, elder: int, d: int, aborts: bool)
    requires SameView(t, t', elder) && SameView(t, t', d)
    requires Compatible(t, elder, d, aborts)
    ensures Compatible(t', elder, d, aborts)
  {
    SameViewBack(t, t', elder);
    SameViewBack(t, t', d);
    forall row <- t'.links | row.relation == PostDestinations ensures !IsDoubled(t', elder, d, t'.links[row].post) {
      DoubledSeen(t', t, elder, d, t'.links[row].post);
      hide HasDate;
    }
    hide IsDoubled, Collides, SameView, KeepsDate;
    if aborts {
      forall relation ensures !Collides(t'.links, relation, d, elder) {
        CollidesSeen(t', t, elder, d, relation, d, elder);
      }
      forall anchor: int, x, o
        | KeepsDate(t'.posts, t'.occasions, elder, Some(anchor), x)
          && KeepsDate(t'.posts, t'.occasions, d, Some(anchor), o)
        ensures !Collides(t'.links, OccasionDestinations, o, x)
      {
        DatesSeen(t', t, elder, Some(anchor), x);
        DatesSeen(t', t, d, Some(anchor), o);
        CollidesSeen(t', t, elder, d, OccasionDestinations, o, x);
      }
    }
  }

  lemma DatesSeen(t: Tables, t': Tables, event: int, anchor: Option<int>, o: int)
    requires SameView(t, t', event) && KeepsDate(t.posts, t.occasions, event, anchor, o)
    ensures KeepsDate(t'.posts, t'.occasions, event, anchor, o) && IsItsPost(t, event, o)
  {
  }

  lemma DetachableSeen(t: Tables, t': Tables, event: int)
    requires SameView(t, t', event) && Detachable(t, event)
    ensures Detachable(t', event)
  {
    forall row <- t'.links | row.relation == OccasionDestinations ensures !IsLoose(t', event, t'.links[row].post) {
      var o := t'.links[row].post;
      assert IsLoose(t', event, o) ==> KeepsDate(t'.posts, t'.occasions, event, None, o) && IsItsPost(t', event, o);
      assert KeepsDate(t.posts, t.occasions, event, None, o) ==> IsLoose(t, event, o);
    }
  }

  lemma DistinctSeen(t: Tables, t': Tables, event: int)
    requires SameView(t, t', event) && DistinctDates(t, event)
    ensures DistinctDates(t', event)
  {
    hide KeepsDate;
  }
}
