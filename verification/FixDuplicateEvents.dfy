/** The repair tool itself: a connection, its statistics, and the procedures that run on them. Each procedure is
    proved against the functions and predicates on tables of the other modules, and says what it adds to the
    statistics and, for a sound connection, when it succeeds. */
module FixDuplicateEvents {
  import opened Wrappers
  import opened EventTables
  import opened EventCollapse
  import opened EventOutcome
  import opened EventGroups
  import opened EventDates
  import opened EventObstacles
  import opened EventSequence
  import opened EventRuns
  import opened EventLaws

  class Stats {
    var groupsCollapsed: nat
    var eventsDeleted: nat
    var occasionsDeleted: nat
    var mediaMerged: nat
    var relationsReassigned: nat
    var relationsDropped: nat

    constructor ()
      ensures groupsCollapsed == eventsDeleted == occasionsDeleted == mediaMerged == 0
      ensures relationsReassigned == relationsDropped == 0
    {
      groupsCollapsed, eventsDeleted, occasionsDeleted := 0, 0, 0;
      mediaMerged, relationsReassigned, relationsDropped := 0, 0, 0;
    }
  }

  /** A connection inside a transaction. In Postgres a failed statement aborts the transaction: every later one
      fails too, until it is rolled back. `abortsOnError` is false for a database that does no such thing.
      A `reliable` connection never fails for reasons of its own. */
  class Connection {
    var tables: Tables
    var aborted: bool
    const abortsOnError: bool
    const reliable: bool

    constructor (tables: Tables, abortsOnError: bool, reliable: bool)
      ensures this.tables == tables && this.abortsOnError == abortsOnError && this.reliable == reliable && !aborted
    {
      this.tables := tables;
      this.abortsOnError := abortsOnError;
      this.reliable := reliable;
      aborted := false;
    }

    /** Whether something outside the model goes wrong. */
    method Breaks() returns (broken: bool)
      ensures reliable ==> !broken
    {
      broken := false;
      if * {
        broken := !reliable;
      }
    }

    /** One statement: it changes the tables as a whole or not at all. */
    method Execute(change: QueryResult<Tables>, count: nat) returns (r: QueryResult<nat>)
      modifies this
      ensures r.Ok? ==> !old(aborted) && r.value == count && change == Ok(tables) && !aborted
      ensures r.Err? ==> tables == old(tables) && aborted == (old(aborted) || abortsOnError)
      ensures r == Err(UniqueViolation) ==> change == Err(UniqueViolation)
      ensures reliable && !old(aborted) ==> r.Ok? == change.Ok? && (r.Err? ==> r.error == change.error)
    {
      if aborted {
        return Err(TransactionAborted);
      }
      var broken := Breaks();
      if broken {
        aborted := abortsOnError;
        return Err(Unavailable);
      }
      match change
      case Ok(changed) =>
        tables := changed;
        r := Ok(count);
      case Err(error) =>
        aborted := abortsOnError;
        r := Err(error);
    }

    method Rollback(snapshot: Tables)
      modifies this
      ensures tables == snapshot && !aborted
    {
      tables, aborted := snapshot, false;
    }

    method LoadMedia(post: int) returns (r: QueryResult<seq<MediaRef>>)
      modifies this`aborted
      ensures r.Ok? ==> !old(aborted) && !aborted && post in tables.posts && r.value == tables.posts[post].media
      ensures reliable && !old(aborted) && post in tables.posts ==> r.Ok?
    {
      if aborted {
        return Err(TransactionAborted);
      }
      var broken := Breaks();
      if broken {
        aborted := abortsOnError;
        return Err(Unavailable);
      }
      r := if post in tables.posts then Ok(tables.posts[post].media) else Err(NotFound);
    }

    /** An event's occasions with their anchors, in no particular order. */
    method LoadOccasions(event: int) returns (r: QueryResult<seq<(int, Option<int>)>>)
      modifies this`aborted
      ensures r.Ok? ==> !old(aborted) && !aborted && AreOccasions(tables, event, r.value)
      ensures reliable && !old(aborted) ==> r.Ok?
    {
      if aborted {
        return Err(TransactionAborted);
      }
      var broken := Breaks();
      if broken {
        aborted := abortsOnError;
        return Err(Unavailable);
      }
      var t := tables;
      var found := set o <- t.occasions | t.occasions[o] == event && o in t.posts;
      var ids := InSomeOrder(found);
      var rows := seq(|ids|, i requires 0 <= i < |ids| && ids[i] in t.posts => (ids[i], t.posts[ids[i]].anchor));
      assert forall i :: 0 <= i < |ids| ==> rows[i].0 == ids[i];
      forall o <- t.occasions | t.occasions[o] == event && o in t.posts
        ensures exists i :: 0 <= i < |rows| && rows[i].0 == o
      {
        assert o in found && o in ids;
        var i :| 0 <= i < |ids| && ids[i] == o;
        assert rows[i].0 == o;
      }
      r := Ok(rows);
    }
  }

  method InSomeOrder<T(==, !new)>(ids: set<T>) returns (listed: seq<T>)
    ensures |listed| == |ids| && (forall id <- ids :: id in listed)
    ensures forall i :: 0 <= i < |listed| ==> listed[i] in ids
    ensures forall i, j :: 0 <= i < j < |listed| ==> listed[i] != listed[j]
  {
    listed := [];
    var left := ids;
    while left != {}
      invariant left <= ids && |left| + |listed| == |ids|
      invariant forall id :: id in ids <==> id in left || id in listed
      invariant forall id <- listed :: id !in left
      invariant forall i, j :: 0 <= i < j < |listed| ==> listed[i] != listed[j]
      decreases |left|
    {
      var id :| id in left;
      listed := listed + [id];
      left := left - {id};
    }
  }

  predicate IsRow(t: Tables, event: int, row: (int, Option<int>)) {
    row.0 in t.occasions && t.occasions[row.0] == event && row.0 in t.posts && row.1 == t.posts[row.0].anchor
  }

  ghost predicate AreOccasions(t: Tables, event: int, rows: seq<(int, Option<int>)>) {
    && (forall i :: 0 <= i < |rows| ==> IsRow(t, event, rows[i]))
    && (forall i, j :: 0 <= i < j < |rows| ==> rows[i].0 != rows[j].0)
    && (forall o <- t.occasions ::
          t.occasions[o] == event && o in t.posts ==> exists i :: 0 <= i < |rows| && rows[i].0 == o)
  }

  // ----- The helpers of a collapse -----

  /** Reassigns the rows of one relation, or drops them all where one collides. On a connection that aborts it can
      only ever reassign: after the collision even the dropping fails. */
  method ReassignOrDropComposite(conn: Connection, duplicate: int, keeper: int, stats: Stats, relation: Relation)
    returns (r: QueryResult<()>)
    requires !conn.aborted
    modifies conn, stats`relationsReassigned, stats`relationsDropped
    ensures r.Ok? && conn.abortsOnError ==> !Collides(old(conn.tables.links), relation, duplicate, keeper)
    ensures conn.reliable ==>
      (r.Ok? <==> !(conn.abortsOnError && Collides(old(conn.tables.links), relation, duplicate, keeper)))
    ensures r.Ok? ==>
      && !conn.aborted
      && conn.tables ==
         old(conn.tables).(links := Recombined(old(conn.tables.links), relation, duplicate, keeper))
      && stats.relationsReassigned + stats.relationsDropped
         == old(stats.relationsReassigned + stats.relationsDropped)
          + |RowsOn(old(conn.tables.links), relation, duplicate)|
    ensures Collides(old(conn.tables.links), relation, duplicate, keeper) ==>
      stats.relationsReassigned == old(stats.relationsReassigned)
    ensures conn.abortsOnError || !Collides(old(conn.tables.links), relation, duplicate, keeper) ==>
      stats.relationsDropped == old(stats.relationsDropped)
  {
    var links := conn.tables.links;
    var count := |RowsOn(links, relation, duplicate)|;
    var reassigned := conn.Execute(MoveLinks(conn.tables, relation, duplicate, keeper), count);
    match reassigned
    case Ok(moved) =>
      stats.relationsReassigned := stats.relationsReassigned + moved;
      r := Ok(());
    case Err(UniqueViolation) =>
      var dropped := conn.Execute(Ok(conn.tables.(links := WithoutLinks(links, relation, duplicate))), count);
      if dropped.Err? {
        return Err(dropped.error);
      }
      stats.relationsDropped := stats.relationsDropped + dropped.value;
      r := Ok(());
    case Err(error) =>
      r := Err(error);
  }

  method ReassignOccasionRelations(conn: Connection, keeper: int, duplicate: int, stats: Stats)
    returns (r: QueryResult<()>)
    requires !conn.aborted
    modifies conn, stats`relationsReassigned, stats`relationsDropped
    ensures r.Ok? ==>
      && !conn.aborted
      && conn.tables == OccasionReassigned(old(conn.tables), keeper, duplicate)
      && stats.relationsReassigned + stats.relationsDropped
         == old(stats.relationsReassigned + stats.relationsDropped)
          + |set x <- old(conn.tables.rsvps) | old(conn.tables.rsvps)[x] == duplicate|
          + |RowsOn(old(conn.tables.links), OccasionDestinations, duplicate)|
    ensures r.Ok? && conn.abortsOnError ==>
      && !Collides(old(conn.tables.links), OccasionDestinations, duplicate, keeper)
    ensures conn.reliable ==>
      (r.Ok? <==> !(conn.abortsOnError && Collides(old(conn.tables.links), OccasionDestinations, duplicate, keeper)))
    ensures conn.abortsOnError ==> stats.relationsDropped == old(stats.relationsDropped)
  {
    var t := conn.tables;
    var onDuplicate := set x <- t.rsvps | t.rsvps[x] == duplicate;
    var moved := conn.Execute(Ok(t.(rsvps := MovedRsvps(t.rsvps, duplicate, keeper))), |onDuplicate|);
    if moved.Err? {
      return Err(moved.error);
    }
    stats.relationsReassigned := stats.relationsReassigned + moved.value;
    r := ReassignOrDropComposite(conn, duplicate, keeper, stats, OccasionDestinations);
  }

  lemma OtherRows(links: Links, relation: Relation, from: int, to: int)
    ensures forall other, post ::
      other != relation ==> RowsOn(Recombined(links, relation, from, to), other, post) == RowsOn(links, other, post)
  {
    hide Collides;
  }

  method ReassignPostRelations(conn: Connection, keeper: int, duplicate: int, stats: Stats) returns (r: QueryResult<()>)
    requires !conn.aborted
    modifies conn, stats`relationsReassigned, stats`relationsDropped
    ensures r.Ok? ==>
      && !conn.aborted
      && conn.tables == PostReassigned(old(conn.tables), keeper, duplicate)
      && stats.relationsReassigned + stats.relationsDropped
         == old(stats.relationsReassigned + stats.relationsDropped)
          + |set p <- old(conn.tables.posts) | old(conn.tables.posts)[p].parent == Some(duplicate)|
          + |RowsOn(old(conn.tables.links), GroupPosts, duplicate)|
          + |RowsOn(old(conn.tables.links), UserPosts, duplicate)|
          + |RowsOn(old(conn.tables.links), PostDestinations, duplicate)|
    ensures r.Ok? && conn.abortsOnError ==> NoCollision(old(conn.tables.links), keeper, duplicate)
    ensures conn.reliable ==> (r.Ok? <==> !conn.abortsOnError || NoCollision(old(conn.tables.links), keeper, duplicate))
    ensures conn.abortsOnError ==> stats.relationsDropped == old(stats.relationsDropped)
  {
    var t := conn.tables;
    var replies := set p <- t.posts | t.posts[p].parent == Some(duplicate);
    var moved := conn.Execute(Ok(t.(posts := MovedReplies(t.posts, duplicate, keeper))), |replies|);
    if moved.Err? {
      return Err(moved.error);
    }
    stats.relationsReassigned := stats.relationsReassigned + moved.value;
    hide Recombined, Collides, RowsOn;
    OtherRows(t.links, GroupPosts, duplicate, keeper);
    r := ReassignOrDropComposite(conn, duplicate, keeper, stats, GroupPosts);
    if r.Err? {
      return;
    }
    OtherRows(conn.tables.links, UserPosts, duplicate, keeper);
    r := ReassignOrDropComposite(conn, duplicate, keeper, stats, UserPosts);
    if r.Err? {
      return;
    }
    r := ReassignOrDropComposite(conn, duplicate, keeper, stats, PostDestinations);
  }

  /** The keeper's media and each of the duplicate's it lacks, with the number of those. */
  method MergeMedia(keeperMedia: seq<MediaRef>, duplicateMedia: seq<MediaRef>)
    returns (merged: seq<MediaRef>, newlyAdded: nat)
    ensures merged == Merged(keeperMedia, duplicateMedia)
    ensures newlyAdded == |merged| - |keeperMedia|
  {
    merged, newlyAdded := keeperMedia, 0;
    for i := 0 to |duplicateMedia|
      invariant merged == Merged(keeperMedia, duplicateMedia[..i])
      invariant newlyAdded == |merged| - |keeperMedia|
    {
      assert duplicateMedia[..i + 1][..i] == duplicateMedia[..i];
      if duplicateMedia[i] !in merged {
        merged := merged + [duplicateMedia[i]];
        newlyAdded := newlyAdded + 1;
      }
    }
    assert duplicateMedia[..|duplicateMedia|] == duplicateMedia;
  }

  method MergeAndDeletePost(conn: Connection, keeper: int, duplicate: int, stats: Stats) returns (r: QueryResult<()>)
    requires !conn.aborted && keeper in conn.tables.posts && duplicate in conn.tables.posts && keeper != duplicate
    modifies conn, stats`mediaMerged
    ensures r.Ok? ==>
      && !conn.aborted
      && MergedAndDeleted(old(conn.tables), keeper, duplicate) == Ok(conn.tables)
    ensures conn.reliable ==> (r.Ok? <==> MergedAndDeleted(old(conn.tables), keeper, duplicate).Ok?)
    ensures r.Ok? ==>
      stats.mediaMerged == old(stats.mediaMerged)
        + |Merged(old(conn.tables).posts[keeper].media, old(conn.tables).posts[duplicate].media)|
        - |old(conn.tables).posts[keeper].media|
    ensures stats.mediaMerged >= old(stats.mediaMerged)
  {
    var t := conn.tables;
    var duplicateMedia := conn.LoadMedia(duplicate);
    if duplicateMedia.Err? {
      return Err(duplicateMedia.error);
    }
    if duplicateMedia.value != [] {
      var keeperMedia := conn.LoadMedia(keeper);
      if keeperMedia.Err? {
        return Err(keeperMedia.error);
      }
      var merged, newlyAdded := MergeMedia(keeperMedia.value, duplicateMedia.value);
      if newlyAdded > 0 {
        var updated := conn.Execute(Ok(t.(posts := t.posts[keeper := t.posts[keeper].(media := merged)])), 1);
        if updated.Err? {
          return Err(updated.error);
        }
        stats.mediaMerged := stats.mediaMerged + newlyAdded;
      } else {
        assert merged == keeperMedia.value;
      }
    }
    assert conn.tables == t.(posts := MediaMerged(t.posts, keeper, duplicate));
    var deleted := conn.Execute(DeletePost(conn.tables, duplicate), 1);
    r := if deleted.Ok? then Ok(()) else Err(deleted.error);
  }

  // ----- One duplicate -----

  lemma MidStarts(t: Tables, keeper: int, duplicate: int, byAnchor: map<int, int>, lossless: bool)
    requires Integrity(t)
    requires forall a <- byAnchor :: KeepsDate(t.posts, t.occasions, keeper, Some(a), byAnchor[a])
    requires forall o <- t.occasions ::
      t.occasions[o] == keeper && o in t.posts && t.posts[o].anchor.Some? ==> t.posts[o].anchor.value in byAnchor
    ensures Mid(t, t, keeper, duplicate, {}, byAnchor, lossless)
  {
    hide Unique;
  }

  /** `keeper_by_anchor` as loaded: where several of the keeper's occasions share an anchor, the last row counts. */
  method IndexByAnchor(ghost t: Tables, ghost keeper: int, rows: seq<(int, Option<int>)>)
    returns (byAnchor: map<int, int>)
    requires AreOccasions(t, keeper, rows)
    ensures forall a <- byAnchor :: KeepsDate(t.posts, t.occasions, keeper, Some(a), byAnchor[a])
    ensures forall o <- t.occasions ::
      t.occasions[o] == keeper && o in t.posts && t.posts[o].anchor.Some? ==> t.posts[o].anchor.value in byAnchor
  {
    byAnchor := map[];
    for i := 0 to |rows|
      invariant forall a <- byAnchor :: KeepsDate(t.posts, t.occasions, keeper, Some(a), byAnchor[a])
      invariant forall j :: 0 <= j < i && rows[j].1.Some? ==> rows[j].1.value in byAnchor
    {
      assert IsRow(t, keeper, rows[i]);
      if rows[i].1.Some? {
        byAnchor := byAnchor[rows[i].1.value := rows[i].0];
      }
    }
    forall o <- t.occasions | t.occasions[o] == keeper && o in t.posts && t.posts[o].anchor.Some?
      ensures t.posts[o].anchor.value in byAnchor
    {
      var j :| 0 <= j < |rows| && rows[j].0 == o;
      assert IsRow(t, keeper, rows[j]);
    }
  }

  /** The anchored ones among the first `n` rows. */
  ghost function HandledRows(rows: seq<(int, Option<int>)>, n: nat): set<int>
    requires n <= |rows|
  {
    set j | 0 <= j < n && rows[j].1.Some? :: rows[j].0
  }

  lemma NoneHandled(rows: seq<(int, Option<int>)>, occasions: Occasions)
    ensures HandledRows(rows, 0) == {} && |GoneOf(occasions, HandledRows(rows, 0))| == 0
  {
    assert GoneOf(occasions, {}) == {};
  }

  lemma OneMoreRow(rows: seq<(int, Option<int>)>, n: nat)
    requires n < |rows|
    ensures HandledRows(rows, n + 1) == HandledRows(rows, n) + if rows[n].1.Some? then {rows[n].0} else {}
  {
  }

  lemma RowAt(t: Tables, event: int, rows: seq<(int, Option<int>)>, n: nat)
    requires n < |rows| && AreOccasions(t, event, rows)
    ensures var (o, anchor) := rows[n];
      && o in t.occasions && t.occasions[o] == event && o in t.posts && anchor == t.posts[o].anchor
      && o !in HandledRows(rows, n)
  {
    assert IsRow(t, event, rows[n]);
  }

  lemma RowsAllHandled(t: Tables, keeper: int, duplicate: int, rows: seq<(int, Option<int>)>)
    requires AreOccasions(t, duplicate, rows)
    ensures AllHandled(t, keeper, duplicate, HandledRows(rows, |rows|))
  {
    SingleIs(keeper, duplicate);
    forall o <- HandledRows(rows, |rows|) ensures IsAnchored(t, Single(keeper, duplicate), o) {
      var j :| 0 <= j < |rows| && rows[j].1.Some? && rows[j].0 == o;
      assert IsRow(t, duplicate, rows[j]);
    }
    forall o | IsAnchored(t, Single(keeper, duplicate), o) ensures o in HandledRows(rows, |rows|) {
      var j :| 0 <= j < |rows| && rows[j].0 == o;
      assert IsRow(t, duplicate, rows[j]);
    }
  }

  lemma MergePossible(
      t0: Tables, t: Tables, keeper: int, duplicate: int, handled: set<int>, byAnchor: map<int, int>, lossless: bool,
      o: int, anchor: int)
    requires Mid(t0, t, keeper, duplicate, handled, byAnchor, lossless) && keeper != duplicate
    requires o in t0.occasions && t0.occasions[o] == duplicate && o !in handled && o in t0.posts && anchor in byAnchor
    ensures byAnchor[anchor] in t.posts && o in t.posts && byAnchor[anchor] != o
    ensures o in t.occasions && t.occasions[o] == duplicate
    ensures OccasionReassigned(t, byAnchor[anchor], o).posts == t.posts
  {
    Untouched(t0, t, keeper, duplicate, handled, o);
    UntouchedPost(t0, t, keeper, handled, o);
    DateOf(t0, t, keeper, duplicate, handled, byAnchor, lossless, anchor);
    DateIsNot(t, keeper, Some(anchor), byAnchor[anchor], o);
  }

  lemma Adoptable(
      t0: Tables, t: Tables, keeper: int, duplicate: int, handled: set<int>, byAnchor: map<int, int>, lossless: bool)
    requires Mid(t0, t, keeper, duplicate, handled, byAnchor, lossless)
    ensures t.events == t0.events
  {
  }

  lemma IsDuplicatesDate(t: Tables, duplicate: int, o: int, anchor: int)
    requires o in t.occasions && t.occasions[o] == duplicate && o in t.posts && t.posts[o].anchor == Some(anchor)
    ensures KeepsDate(t.posts, t.occasions, duplicate, Some(anchor), o)
  {
  }

  lemma MergedOut(t: Tables, ko: int, o: int)
    requires ko in t.posts && o in t.posts && OccasionReassigned(t, ko, o).posts == t.posts
    ensures var merged := MergedAndDeleted(OccasionReassigned(t, ko, o), ko, o);
      merged.Ok? ==> o !in merged.value.occasions
  {
    hide Recombined, Merged, WithoutPost, WithoutPostLinks;
  }

  /** One anchored occasion of the duplicate: merged into the keeper's for the same anchor, or adopted. */
  method CollapseOccasion(
      conn: Connection, keeper: int, o: int, anchor: int, index: map<int, int>, stats: Stats,
      ghost t0: Tables, ghost duplicate: int, ghost handled: set<int>)
    returns (r: QueryResult<()>, byAnchor: map<int, int>)
    requires !conn.aborted && Integrity(t0) && keeper in t0.events && keeper != duplicate
    requires Mid(t0, conn.tables, keeper, duplicate, handled, index, conn.abortsOnError)
    requires o in t0.occasions && t0.occasions[o] == duplicate && o !in handled
    requires o in t0.posts && t0.posts[o].anchor == Some(anchor)
    modifies conn, stats`relationsReassigned, stats`relationsDropped, stats`mediaMerged, stats`occasionsDeleted
    ensures r.Ok? ==>
      && !conn.aborted && Mid(t0, conn.tables, keeper, duplicate, handled + {o}, byAnchor, conn.abortsOnError)
      && (o in conn.tables.occasions <==> anchor !in index)
    ensures conn.reliable && IsSmooth(t0, keeper, duplicate, conn.abortsOnError) ==> r.Ok?
    ensures r.Ok? ==>
      && stats.mediaMerged + |Added(t0.posts, old(conn.tables.posts))|
         == old(stats.mediaMerged) + |Added(t0.posts, conn.tables.posts)|
      && stats.occasionsDeleted + |GoneOf(old(conn.tables.occasions), handled)|
         == old(stats.occasionsDeleted) + |GoneOf(conn.tables.occasions, handled + {o})|
    ensures stats.mediaMerged >= old(stats.mediaMerged) && stats.occasionsDeleted >= old(stats.occasionsDeleted)
    ensures conn.abortsOnError ==> stats.relationsDropped == old(stats.relationsDropped)
  {
    hide *;
    ghost var t := conn.tables;
    byAnchor := index;
    if anchor in byAnchor {
      MergePossible(t0, t, keeper, duplicate, handled, byAnchor, conn.abortsOnError, o, anchor);
      IsDuplicatesDate(t0, duplicate, o, anchor);
      if IsSmooth(t0, keeper, duplicate, conn.abortsOnError) {
        MergeIsSmooth(t0, t, keeper, duplicate, handled, byAnchor, conn.abortsOnError, o, anchor);
      }
      r := ReassignOccasionRelations(conn, byAnchor[anchor], o, stats);
      if r.Err? {
        return;
      }
      r := MergeAndDeletePost(conn, byAnchor[anchor], o, stats);
      if r.Err? {
        return;
      }
      Merge(t0, t, keeper, duplicate, handled, byAnchor, conn.abortsOnError, o, anchor);
      MergedOut(t, byAnchor[anchor], o);
      stats.occasionsDeleted := stats.occasionsDeleted + 1;
    } else {
      Adoptable(t0, t, keeper, duplicate, handled, byAnchor, conn.abortsOnError);
      Adopt(t0, t, keeper, duplicate, handled, byAnchor, conn.abortsOnError, o, anchor);
      var adopted := conn.Execute(Ok(conn.tables.(occasions := conn.tables.occasions[o := keeper])), 1);
      if adopted.Err? {
        return Err(adopted.error), byAnchor;
      }
      byAnchor := byAnchor[anchor := o];
      r := Ok(());
    }
  }

  /** The loop over the duplicate's occasions. */
  method CollapseOccasions(
      conn: Connection, keeper: int, rows: seq<(int, Option<int>)>, index: map<int, int>, stats: Stats,
      ghost t0: Tables, ghost duplicate: int)
    returns (r: QueryResult<()>, byAnchor: map<int, int>)
    requires !conn.aborted && Integrity(t0) && keeper in t0.events && keeper != duplicate
    requires AreOccasions(t0, duplicate, rows)
    requires Mid(t0, conn.tables, keeper, duplicate, {}, index, conn.abortsOnError)
    modifies conn, stats`relationsReassigned, stats`relationsDropped, stats`mediaMerged, stats`occasionsDeleted
    ensures r.Ok? ==>
      && !conn.aborted
      && Mid(t0, conn.tables, keeper, duplicate, HandledRows(rows, |rows|), byAnchor, conn.abortsOnError)
      && stats.mediaMerged + |Added(t0.posts, old(conn.tables.posts))|
         == old(stats.mediaMerged) + |Added(t0.posts, conn.tables.posts)|
      && stats.occasionsDeleted
         == old(stats.occasionsDeleted) + |GoneOf(conn.tables.occasions, HandledRows(rows, |rows|))|
    ensures conn.reliable && IsSmooth(t0, keeper, duplicate, conn.abortsOnError) ==> r.Ok?
    ensures stats.mediaMerged >= old(stats.mediaMerged) && stats.occasionsDeleted >= old(stats.occasionsDeleted)
    ensures conn.abortsOnError ==> stats.relationsDropped == old(stats.relationsDropped)
  {
    hide *;
    byAnchor := index;
    ghost var handled := HandledRows(rows, 0);
    NoneHandled(rows, conn.tables.occasions);
    for i := 0 to |rows|
      invariant !conn.aborted && handled == HandledRows(rows, i)
      invariant Mid(t0, conn.tables, keeper, duplicate, handled, byAnchor, conn.abortsOnError)
      invariant stats.mediaMerged + |Added(t0.posts, old(conn.tables.posts))|
        == old(stats.mediaMerged) + |Added(t0.posts, conn.tables.posts)|
      invariant stats.occasionsDeleted == old(stats.occasionsDeleted) + |GoneOf(conn.tables.occasions, handled)|
      invariant stats.mediaMerged >= old(stats.mediaMerged) && stats.occasionsDeleted >= old(stats.occasionsDeleted)
      invariant conn.abortsOnError ==> stats.relationsDropped == old(stats.relationsDropped)
    {
      var o := rows[i].0;
      RowAt(t0, duplicate, rows, i);
      OneMoreRow(rows, i);
      if rows[i].1.None? {
        continue;
      }
      r, byAnchor := CollapseOccasion(conn, keeper, o, rows[i].1.value, byAnchor, stats, t0, duplicate, handled);
      if r.Err? {
        return;
      }
      handled := handled + {o};
    }
    r := Ok(());
  }

  lemma RepliesKeepMedia(t: Tables, keeper: int, duplicate: int)
    ensures var posts := PostReassigned(t, keeper, duplicate).posts;
      forall p <- t.posts :: p in posts && posts[p].media == t.posts[p].media
  {
    hide Recombined;
  }

  lemma EventsBothThere(
      t0: Tables, t: Tables, keeper: int, duplicate: int, handled: set<int>, byAnchor: map<int, int>, lossless: bool)
    requires Mid(t0, t, keeper, duplicate, handled, byAnchor, lossless)
    requires keeper in t0.events && duplicate in t0.events
    ensures keeper in t.posts && duplicate in t.posts
  {
  }

  /** The last step: the event's own post. */
  method MergeEvent(
      conn: Connection, keeper: int, duplicate: int, stats: Stats,
      ghost t0: Tables, ghost handled: set<int>, ghost byAnchor: map<int, int>)
    returns (r: QueryResult<()>)
    requires !conn.aborted && Integrity(t0)
    requires keeper in t0.events && duplicate in t0.events && keeper != duplicate
    requires Mid(t0, conn.tables, keeper, duplicate, handled, byAnchor, conn.abortsOnError)
    requires AllHandled(t0, keeper, duplicate, handled)
    modifies conn, stats`relationsReassigned, stats`relationsDropped, stats`mediaMerged
    ensures r.Ok? ==>
      && !conn.aborted
      && Collapsed(t0, conn.tables, keeper, [duplicate], conn.abortsOnError)
      && stats.mediaMerged + |Added(t0.posts, old(conn.tables.posts))|
         == old(stats.mediaMerged) + |Added(t0.posts, conn.tables.posts)|
      && |MergedAway(t0, conn.tables, AllTo(keeper, [duplicate]))| == |GoneOf(old(conn.tables.occasions), handled)|
    ensures conn.reliable && Detachable(t0, duplicate) ==>
      (!conn.abortsOnError || NoClash(t0.links, duplicate, keeper) ==> r.Ok?)
    ensures stats.mediaMerged >= old(stats.mediaMerged)
    ensures conn.abortsOnError ==> stats.relationsDropped == old(stats.relationsDropped)
  {
    hide *;
    ghost var t := conn.tables;
    EventsBothThere(t0, t, keeper, duplicate, handled, byAnchor, conn.abortsOnError);
    if Detachable(t0, duplicate) {
      FinishGoesThrough(t0, t, keeper, duplicate, handled, byAnchor, conn.abortsOnError);
    }
    if NoClash(t0.links, duplicate, keeper) {
      StaysClashFree(t0, t, keeper, duplicate, handled, byAnchor, conn.abortsOnError);
    }
    r := ReassignPostRelations(conn, keeper, duplicate, stats);
    if r.Err? {
      return;
    }
    CollapsedOne(t0, t, keeper, duplicate, handled, byAnchor, conn.abortsOnError);
    KeysStay(t, keeper, duplicate);
    RepliesKeepMedia(t, keeper, duplicate);
    r := MergeAndDeletePost(conn, keeper, duplicate, stats);
  }

  lemma SmoothIff(t: Tables, keeper: int, duplicate: int, aborts: bool)
    ensures IsPredictable(t, keeper, [duplicate]) && CompatibleGroup(t, keeper, [duplicate], aborts) ==>
      IsSmooth(t, keeper, duplicate, aborts) && Detachable(t, duplicate)
      && (aborts ==> NoClash(t.links, duplicate, keeper))
  {
    assert duplicate in [duplicate];
    hide SyncFree, DistinctDates, Detachable, NoClash, NoSharedDate;
  }

  /** One duplicate into its keeper. Where the order of its occasions does not matter, whether that succeeds is settled
      beforehand. */
  method CollapseDuplicateEvent(conn: Connection, keeper: int, duplicate: int, stats: Stats)
    returns (r: QueryResult<()>)
    requires !conn.aborted && Integrity(conn.tables)
    requires keeper in conn.tables.events && duplicate in conn.tables.events && keeper != duplicate
    modifies conn, stats`relationsReassigned, stats`relationsDropped, stats`mediaMerged, stats`occasionsDeleted
    ensures r.Ok? ==>
      && !conn.aborted
      && Collapsed(old(conn.tables), conn.tables, keeper, [duplicate], conn.abortsOnError)
      && stats.mediaMerged == old(stats.mediaMerged) + |Added(old(conn.tables).posts, conn.tables.posts)|
      && stats.occasionsDeleted
         == old(stats.occasionsDeleted) + |MergedAway(old(conn.tables), conn.tables, AllTo(keeper, [duplicate]))|
    ensures r.Ok? ==> CompatibleGroup(old(conn.tables), keeper, [duplicate], false)
    ensures r.Ok? && conn.abortsOnError ==> ClashFree(old(conn.tables.links), keeper, [duplicate])
    ensures conn.reliable && IsPredictable(old(conn.tables), keeper, [duplicate]) ==>
      (r.Ok? <==> CompatibleGroup(old(conn.tables), keeper, [duplicate], conn.abortsOnError))
    ensures stats.mediaMerged >= old(stats.mediaMerged) && stats.occasionsDeleted >= old(stats.occasionsDeleted)
    ensures conn.abortsOnError ==> stats.relationsDropped == old(stats.relationsDropped)
  {
    hide *;
    ghost var t0 := conn.tables;
    var keeperOccasions := conn.LoadOccasions(keeper);
    if keeperOccasions.Err? {
      return Err(keeperOccasions.error);
    }
    var byAnchor := IndexByAnchor(t0, keeper, keeperOccasions.value);
    var duplicateOccasions := conn.LoadOccasions(duplicate);
    if duplicateOccasions.Err? {
      return Err(duplicateOccasions.error);
    }
    var rows := duplicateOccasions.value;
    MidStarts(t0, keeper, duplicate, byAnchor, conn.abortsOnError);
    NothingAdded(t0.posts);
    SmoothIff(t0, keeper, duplicate, conn.abortsOnError);
    OneIsGroup(t0.events, keeper, duplicate);
    r, byAnchor := CollapseOccasions(conn, keeper, rows, byAnchor, stats, t0, duplicate);
    if r.Err? {
      return;
    }
    RowsAllHandled(t0, keeper, duplicate, rows);
    r := MergeEvent(conn, keeper, duplicate, stats, t0, HandledRows(rows, |rows|), byAnchor);
    if r.Ok? {
      Committed(t0, conn.tables, keeper, [duplicate], conn.abortsOnError);
    }
  }

  lemma NothingAdded(posts: Posts)
    ensures |Added(posts, posts)| == 0
  {
    assert Added(posts, posts) == {};
  }

  lemma OneIsGroup(events: Events, keeper: int, duplicate: int)
    requires keeper in events && duplicate in events && keeper != duplicate
    ensures IsGroup(events, keeper, [duplicate])
  {
  }

  /** What a commit tells about the tables before it. */
  lemma Committed(t0: Tables, t: Tables, keeper: int, duplicates: seq<int>, lossless: bool)
    requires Collapsed(t0, t, keeper, duplicates, lossless)
    requires Integrity(t0) && IsGroup(t0.events, keeper, duplicates)
    ensures Integrity(t) && CompatibleGroup(t0, keeper, duplicates, false)
    ensures IsPredictable(t0, keeper, duplicates) ==> CompatibleGroup(t0, keeper, duplicates, lossless)
    ensures lossless ==> ClashFree(t0.links, keeper, duplicates)
  {
    hide *;
    CollapsedIs(t0, t, keeper, duplicates, lossless);
    OutcomeParts(t0, t, AllTo(keeper, duplicates), lossless);
    CommitMeansCompatibleGroup(t0, t, keeper, duplicates, lossless, false);
    if IsPredictable(t0, keeper, duplicates) {
      CommitMeansCompatibleGroup(t0, t, keeper, duplicates, lossless, lossless);
    }
    if lossless {
      CommitMeansClashFree(t0, t, keeper, duplicates);
    }
  }

  // ----- One group, in one transaction -----

  lemma GroupStarts(t: Tables, keeper: int, duplicates: seq<int>, lossless: bool)
    requires Integrity(t) && IsGroup(t.events, keeper, duplicates)
    ensures Collapsed(t, t, keeper, duplicates[..0], lossless) && |Added(t.posts, t.posts)| == 0
    ensures |MergedAway(t, t, AllTo(keeper, duplicates[..0]))| == 0
    ensures duplicates[..|duplicates|] == duplicates
  {
    NoneCollapsed(t, keeper, lossless);
    hide Collapsed, Added, MergedAway, AllTo;
    assert duplicates[..0] == [];
  }

  lemma BeforeNext(t0: Tables, t: Tables, keeper: int, duplicates: seq<int>, i: nat, lossless: bool, aborts: bool)
    requires i < |duplicates| && Collapsed(t0, t, keeper, duplicates[..i], lossless) && Integrity(t0)
    requires IsGroup(t0.events, keeper, duplicates)
    ensures Integrity(t) && keeper in t.events && duplicates[i] in t.events && keeper != duplicates[i]
    ensures IsPredictable(t0, keeper, duplicates) ==> IsPredictable(t, keeper, [duplicates[i]])
    ensures CompatibleGroup(t0, keeper, duplicates, aborts) ==> CompatibleGroup(t, keeper, [duplicates[i]], aborts)
  {
    hide Collapsed, Integrity, IsGroup, ClashFree, IsPredictable, CompatibleGroup;
    StillThere(t0, t, keeper, duplicates, i, lossless);
    NextSmooth(t0, t, keeper, duplicates, i, lossless, aborts);
  }

  lemma AfterNext(t0: Tables, t: Tables, t': Tables, keeper: int, duplicates: seq<int>, i: nat, lossless: bool)
    requires i < |duplicates| && Collapsed(t0, t, keeper, duplicates[..i], lossless) && Integrity(t0)
    requires IsGroup(t0.events, keeper, duplicates) && Collapsed(t, t', keeper, [duplicates[i]], lossless)
    ensures Collapsed(t0, t', keeper, duplicates[..i + 1], lossless)
    ensures |Added(t0.posts, t'.posts)| == |Added(t0.posts, t.posts)| + |Added(t.posts, t'.posts)|
    ensures |MergedAway(t0, t', AllTo(keeper, duplicates[..i + 1]))|
         == |MergedAway(t0, t, AllTo(keeper, duplicates[..i]))| + |MergedAway(t, t', AllTo(keeper, [duplicates[i]]))|
  {
    hide *;
    StillThere(t0, t, keeper, duplicates, i, lossless);
    assert duplicates[..i + 1] == duplicates[..i] + [duplicates[i]];
    CollapsedNext(t0, t, t', keeper, duplicates[..i], duplicates[i], lossless);
  }

  lemma StillThere(t0: Tables, t: Tables, keeper: int, duplicates: seq<int>, i: nat, lossless: bool)
    requires i < |duplicates| && Collapsed(t0, t, keeper, duplicates[..i], lossless)
    requires IsGroup(t0.events, keeper, duplicates)
    ensures Integrity(t) && keeper in t0.events && keeper in t.events
    ensures duplicates[i] in t0.events && duplicates[i] in t.events
    ensures keeper != duplicates[i] && duplicates[i] !in duplicates[..i] && keeper !in duplicates[..i]
    ensures IsGroup(t0.events, keeper, duplicates[..i + 1])
  {
    assert duplicates[i] in duplicates;
    assert forall d <- duplicates[..i + 1] :: d in duplicates;
    assert AllTo(keeper, duplicates[..i]).Keys == set d <- duplicates[..i];
    hide Integrity, RsvpsKept, OccasionsKept, LinksKept, PostsKept, DatesMerged, MediaSupplied, MediaMergedAll,
         FirstKeeps;
  }

  /** One more duplicate of the group. */
  method CollapseNext(
      conn: Connection, keeper: int, duplicates: seq<int>, i: nat, stats: Stats, ghost t0: Tables)
    returns (r: QueryResult<()>)
    requires !conn.aborted && Integrity(t0) && IsGroup(t0.events, keeper, duplicates) && i < |duplicates|
    requires Collapsed(t0, conn.tables, keeper, duplicates[..i], conn.abortsOnError)
    modifies conn, stats`relationsReassigned, stats`relationsDropped, stats`mediaMerged, stats`occasionsDeleted
    ensures r.Ok? ==>
      && !conn.aborted
      && Collapsed(t0, conn.tables, keeper, duplicates[..i + 1], conn.abortsOnError)
      && stats.mediaMerged + |Added(t0.posts, old(conn.tables.posts))|
         == old(stats.mediaMerged) + |Added(t0.posts, conn.tables.posts)|
      && stats.occasionsDeleted + |MergedAway(t0, old(conn.tables), AllTo(keeper, duplicates[..i]))|
         == old(stats.occasionsDeleted) + |MergedAway(t0, conn.tables, AllTo(keeper, duplicates[..i + 1]))|
    ensures conn.reliable && IsPredictable(t0, keeper, duplicates) ==>
      (CompatibleGroup(t0, keeper, duplicates, conn.abortsOnError) ==> r.Ok?)
    ensures stats.mediaMerged >= old(stats.mediaMerged) && stats.occasionsDeleted >= old(stats.occasionsDeleted)
    ensures conn.abortsOnError ==> stats.relationsDropped == old(stats.relationsDropped)
  {
    hide *;
    ghost var t := conn.tables;
    BeforeNext(t0, t, keeper, duplicates, i, conn.abortsOnError, conn.abortsOnError);
    r := CollapseDuplicateEvent(conn, keeper, duplicates[i], stats);
    if r.Ok? {
      AfterNext(t0, t, conn.tables, keeper, duplicates, i, conn.abortsOnError);
    }
  }

  /** All duplicates or none: a failure anywhere leaves the tables as they were. On a connection that aborts, a group
      commits only without clashes: what its dropping branch is for never comes to pass. */
  method CollapseGroup(conn: Connection, keeper: int, duplicates: seq<int>, stats: Stats) returns (r: QueryResult<()>)
    requires !conn.aborted && Integrity(conn.tables)
    requires IsGroup(conn.tables.events, keeper, duplicates)
    modifies conn, stats`relationsReassigned, stats`relationsDropped, stats`mediaMerged, stats`occasionsDeleted
    ensures !conn.aborted && Integrity(conn.tables)
    ensures r.Ok? ==>
      && Collapsed(old(conn.tables), conn.tables, keeper, duplicates, conn.abortsOnError)
      && stats.mediaMerged == old(stats.mediaMerged) + |Added(old(conn.tables).posts, conn.tables.posts)|
      && stats.occasionsDeleted
         == old(stats.occasionsDeleted) + |MergedAway(old(conn.tables), conn.tables, AllTo(keeper, duplicates))|
    ensures r.Err? ==> conn.tables == old(conn.tables)
    ensures r.Ok? ==> CompatibleGroup(old(conn.tables), keeper, duplicates, false)
    ensures r.Ok? && conn.abortsOnError ==> ClashFree(old(conn.tables.links), keeper, duplicates)
    ensures conn.reliable && IsPredictable(old(conn.tables), keeper, duplicates) ==>
      (r.Ok? <==> CompatibleGroup(old(conn.tables), keeper, duplicates, conn.abortsOnError))
    ensures stats.mediaMerged >= old(stats.mediaMerged) && stats.occasionsDeleted >= old(stats.occasionsDeleted)
    ensures conn.abortsOnError ==> stats.relationsDropped == old(stats.relationsDropped)
  {
    hide *;
    var snapshot := conn.tables;
    GroupStarts(snapshot, keeper, duplicates, conn.abortsOnError);
    for i := 0 to |duplicates|
      invariant !conn.aborted
      invariant Collapsed(snapshot, conn.tables, keeper, duplicates[..i], conn.abortsOnError)
      invariant stats.mediaMerged == old(stats.mediaMerged) + |Added(snapshot.posts, conn.tables.posts)|
      invariant stats.occasionsDeleted
        == old(stats.occasionsDeleted) + |MergedAway(snapshot, conn.tables, AllTo(keeper, duplicates[..i]))|
      invariant conn.abortsOnError ==> stats.relationsDropped == old(stats.relationsDropped)
    {
      r := CollapseNext(conn, keeper, duplicates, i, stats, snapshot);
      if r.Err? {
        conn.Rollback(snapshot);
        return;
      }
    }
    Committed(snapshot, conn.tables, keeper, duplicates, conn.abortsOnError);
    r := Ok(());
  }

  /** Two events of one UID, both cross-posted to the same group. */
  function SharedGroup(): Tables {
    var post := Post(None, [], None, true);
    Tables(map[1 := post, 2 := post], map[1 := Event(None, Some("uid"), 1), 2 := Event(None, Some("uid"), 2)],
           map[], map[], map[Row(GroupPosts, 1) := Link(7, 1), Row(GroupPosts, 2) := Link(7, 2)])
  }

  lemma SharedGroupClashes()
    ensures var t := SharedGroup();
      Integrity(t) && IsGroup(t.events, 1, [2]) && AllSyncFree(t, [2]) && !ClashFree(t.links, 1, [2])
  {
    var links := SharedGroup().links;
    assert IsOn(links, Row(GroupPosts, 2), GroupPosts, 2) && IsOn(links, Row(GroupPosts, 1), GroupPosts, 1);
    assert 2 in [2] && Collides(links, GroupPosts, 2, 1);
  }

  /** A sound connection cannot collapse them if it aborts, and can if it does not. */
  method CollapseSharedGroup(stats: Stats) returns (aborting: QueryResult<()>, lenient: QueryResult<()>)
    modifies stats
    ensures aborting.Err? && lenient.Ok?
  {
    SharedGroupClashes();
    var t := SharedGroup();
    hide *;
    SyncFreeGroup(t, 1, [2], true);
    SyncFreeGroup(t, 1, [2], false);
    var first := new Connection(t, true, true);
    aborting := CollapseGroup(first, 1, [2], stats);
    var second := new Connection(t, false, true);
    lenient := CollapseGroup(second, 1, [2], stats);
  }

  /** Two events of one UID, each with an occasion for anchor 5, and the second with one without an anchor. The second's
      anchored occasion has an RSVP, a cross-post and a reply, the other one an RSVP. */
  function SharedDate(): Tables {
    var event, date := Post(None, [], None, true), Post(None, [], Some(5), true);
    Tables(map[1 := event, 2 := event, 11 := date, 12 := date, 13 := event, 21 := Post(Some(12), [], None, false)],
           map[1 := Event(None, Some("uid"), 1), 2 := Event(None, Some("uid"), 2)],
           map[11 := 1, 12 := 2, 13 := 2], map[100 := 12, 101 := 13], map[Row(GroupPosts, 1) := Link(7, 12)])
  }

  lemma SharedDateIsFree()
    ensures var t := SharedDate();
      Integrity(t) && IsGroup(t.events, 1, [2]) && AllSyncFree(t, [2]) && ClashFree(t.links, 1, [2])
  {
    hide Unique, PostsRefer, OccasionsRefer, Separate, RsvpsRefer, LinksRefer, SyncFree, NoClash, SharedDate, IsGroup;
    SharedDateHolds();
    var t := SharedDate();
    OneCrossPost(t.links, t.occasions, Row(GroupPosts, 1), Link(7, 12));
  }

  lemma OneCrossPost(links: Links, occasions: Occasions, row: Row, link: Link)
    requires links == map[row := link] && row.relation == GroupPosts
    ensures Unique(links)
    ensures forall event :: SyncFree(links, occasions, event)
    ensures forall a, b :: a != b ==> NoClash(links, a, b)
  {
  }

  lemma SharedDateHolds()
    ensures var t := SharedDate();
      && PostsRefer(t.posts) && OccasionsRefer(t.posts, t.events, t.occasions) && Separate(t.events, t.occasions)
      && RsvpsRefer(t.occasions, t.rsvps) && LinksRefer(t.posts, t.occasions, t.links) && IsGroup(t.events, 1, [2])
      && t.links == map[Row(GroupPosts, 1) := Link(7, 12)]
  {
  }

  lemma SharedDateBefore()
    ensures var t, home := SharedDate(), AllTo(1, [2]);
      && IsAnchored(t, home, 12) && IsUnanchored(t, home, 13) && IsPreceded(t, home, [2], 12) && IsSole(t, 12)
      && Lists([2], home) && home == map[2 := 1] && t.occasions == map[11 := 1, 12 := 2, 13 := 2]
      && t.rsvps == map[100 := 12, 101 := 13] && 12 in t.posts && 13 in t.posts && t.posts[12].anchor == Some(5)
      && t.links == map[Row(GroupPosts, 1) := Link(7, 12)] && 21 in t.posts && t.posts[21].parent == Some(12)
  {
    var t := SharedDate();
    assert KeepsDate(t.posts, t.occasions, 1, Some(5), 11);
  }

  lemma SharedDateReply(t: Tables)
    requires PostsKept(SharedDate(), t, AllTo(1, [2]))
    ensures 21 in t.posts
  {
    hide MediaUnited, IsKeeping, Extends, ParentKept;
  }

  lemma LinksWere(t0: Tables, t: Tables, home: Homes, lossless: bool)
    requires LinksKept(t0, t, home, lossless)
    ensures forall row <- t.links :: row in t0.links
  {
    hide RowKept;
  }

  lemma SharedDateRows(t: Tables, lossless: bool)
    requires OccasionsKept(SharedDate(), t, AllTo(1, [2])) && PostsKept(SharedDate(), t, AllTo(1, [2]))
    requires LinksKept(SharedDate(), t, AllTo(1, [2]), lossless)
    requires FirstKeeps(SharedDate(), t, AllTo(1, [2]), [2])
    ensures 12 !in t.occasions && t.links == map[] && 21 in t.posts && t.posts[21].parent == None
  {
    hide *;
    SharedDateBefore();
    SharedDateReply(t);
    var t0, home := SharedDate(), AllTo(1, [2]);
    LinksWere(t0, t, home, lossless);
    SurvivesIff(t0, t, home, [2], 12);
    CrossPostKeptIff(t0, t, home, [2], lossless, Row(GroupPosts, 1));
    ReplyKeptIff(t0, t, home, [2], 21);
  }

  lemma RsvpIs(t0: Tables, t: Tables, home: Homes, r: int)
    requires RsvpsKept(t0, t, home)
    ensures r in t.rsvps ==> r in t0.rsvps
    ensures r in t0.rsvps && t0.rsvps[r] in t0.occasions && t0.rsvps[r] in t0.posts ==>
      && (r in t.rsvps <==> !IsUnanchored(t0, home, t0.rsvps[r]))
      && (r in t.rsvps ==>
            var o := t0.rsvps[r];
            KeepsDate(t.posts, t.occasions, HomeOf(home, t0.occasions[o]), t0.posts[o].anchor, t.rsvps[r]))
  {
    hide IsUnanchored, HomeOf, KeepsDate;
  }

  lemma HomeIs(home: Homes, event: int)
    requires event in home
    ensures HomeOf(home, event) == home[event]
  {
  }

  lemma AnchoredNotLoose(t: Tables, home: Homes, o: int)
    ensures !(IsAnchored(t, home, o) && IsUnanchored(t, home, o))
  {
  }

  lemma SharedDateRsvps(t: Tables)
    requires OccasionsKept(SharedDate(), t, AllTo(1, [2])) && PostsKept(SharedDate(), t, AllTo(1, [2]))
    requires RsvpsKept(SharedDate(), t, AllTo(1, [2])) && 12 !in t.occasions
    ensures t.rsvps == map[100 := 11]
  {
    hide *;
    SharedDateBefore();
    var t0, home := SharedDate(), AllTo(1, [2]);
    AnchoredNotLoose(t0, home, 12);
    AnchoredNotLoose(t0, home, 13);
    HomeIs(home, 2);
    forall r ensures r in t.rsvps <==> r == 100 {
      RsvpIs(t0, t, home, r);
    }
    RsvpIs(t0, t, home, 100);
    DateWas(t0, t, home, 1, Some(5), t.rsvps[100]);
    DateIs(t.posts, t.occasions, 1, Some(5), t.rsvps[100]);
  }

  /** The second's anchored occasion is merged, its cross-post is lost and its reply orphaned; of the RSVPs only the
      one for the anchored occasion is left. */
  lemma SharedDateMerged(t: Tables, lossless: bool)
    requires Collapsed(SharedDate(), t, 1, [2], lossless)
    ensures 12 !in t.occasions && t.rsvps == map[100 := 11]
    ensures t.links == map[] && 21 in t.posts && t.posts[21].parent == None
  {
    hide *;
    CollapsedIs(SharedDate(), t, 1, [2], lossless);
    OutcomeParts(SharedDate(), t, AllTo(1, [2]), lossless);
    SharedDateRows(t, lossless);
    SharedDateRsvps(t);
  }

  /** It comes to that on any sound connection. */
  method CollapseSharedDate(abortsOnError: bool, stats: Stats) returns (conn: Connection, r: QueryResult<()>)
    modifies stats
    ensures r.Ok? && conn.abortsOnError == abortsOnError && Collapsed(SharedDate(), conn.tables, 1, [2], abortsOnError)
    ensures 12 !in conn.tables.occasions && conn.tables.rsvps == map[100 := 11] && conn.tables.links == map[]
    ensures 21 in conn.tables.posts && conn.tables.posts[21].parent == None
  {
    SharedDateIsFree();
    var t := SharedDate();
    hide *;
    SyncFreeGroup(t, 1, [2], abortsOnError);
    conn := new Connection(t, abortsOnError, true);
    r := CollapseGroup(conn, 1, [2], stats);
    SharedDateMerged(conn.tables, abortsOnError);
  }

  // ----- The whole run -----

  method LoadGroups(t: Tables) returns (byUid: map<string, set<int>>)
    ensures forall uid <- byUid :: byUid[uid] == GroupOf(t, uid)
    ensures forall e <- t.events, uid :: HasUid(t, e, uid) ==> uid in byUid
  {
    byUid := map[];
    var synced := set e <- t.events | e in t.posts && t.posts[e].synced;
    var rows := InSomeOrder(synced);
    for i := 0 to |rows|
      invariant forall uid <- byUid, e :: e in byUid[uid] <==> e in rows[..i] && HasUid(t, e, uid)
      invariant forall e <- rows[..i], uid :: HasUid(t, e, uid) ==> uid in byUid
    {
      var e := rows[i];
      assert e in synced && rows[..i + 1] == rows[..i] + [e];
      if t.events[e].uid.Some? {
        var uid := t.events[e].uid.value;
        byUid := byUid[uid := (if uid in byUid then byUid[uid] else {}) + {e}];
      }
    }
    assert rows[..|rows|] == rows;
    forall uid <- byUid ensures byUid[uid] == GroupOf(t, uid) {
      forall e ensures e in byUid[uid] <==> e in GroupOf(t, uid) {
        if HasUid(t, e, uid) {
          assert e in synced && e in rows;
        }
      }
    }
  }

  method Oldest(events: Events, group: set<int>) returns (oldest: int)
    requires group != {} && group <= events.Keys
    ensures oldest in group && forall e <- group :: e != oldest ==> IsOlder(events, oldest, e)
  {
    var rows := InSomeOrder(group);
    oldest := rows[0];
    for i := 1 to |rows|
      invariant oldest in rows[..i] && forall e <- rows[..i] :: e != oldest ==> IsOlder(events, oldest, e)
    {
      assert rows[..i + 1] == rows[..i] + [rows[i]];
      if IsOlder(events, rows[i], oldest) {
        oldest := rows[i];
      }
    }
    assert rows[..|rows|] == rows;
  }

  method SortByAge(events: Events, group: set<int>) returns (sorted: seq<int>)
    requires group <= events.Keys
    ensures SortedByAge(events, group, sorted) && |sorted| == |group|
  {
    sorted := [];
    var left := group;
    while left != {}
      invariant left <= group && |left| + |sorted| == |group|
      invariant SortedByAge(events, group - left, sorted)
      invariant forall e <- sorted, f <- left :: e in events && f in events && IsOlder(events, e, f)
      decreases |left|
    {
      var oldest := Oldest(events, left);
      sorted := sorted + [oldest];
      left := left - {oldest};
    }
    assert group - left == group;
  }

  /** One UID of the run; `events` are those loaded at the start. */
  method RepairGroup(
      conn: Connection, events: Events, group: set<int>, stats: Stats,
      ghost t0: Tables, ghost collapsed: set<string>, ghost home: Homes, ghost uid: string)
    returns (r: QueryResult<()>, ghost home': Homes)
    requires !conn.aborted && Integrity(t0)
    requires Progress(t0, conn.tables, collapsed, home, conn.abortsOnError) && uid !in collapsed
    requires events == t0.events && group == GroupOf(t0, uid) && |group| >= 2
    modifies conn, stats
    ensures !conn.aborted
    ensures Progress(t0, conn.tables, if r.Ok? then collapsed + {uid} else collapsed, home', conn.abortsOnError)
    ensures Judged(t0, old(conn.tables), uid, r.Ok?, conn.abortsOnError, conn.reliable)
    ensures OthersSame(t0, old(conn.tables), conn.tables, collapsed, uid)
    ensures stats.eventsDeleted + |conn.tables.events.Keys| == old(stats.eventsDeleted) + |old(conn.tables).events.Keys|
    ensures stats.groupsCollapsed == old(stats.groupsCollapsed) + if r.Ok? then 1 else 0
    ensures var added, merged := |Added(t0.posts, conn.tables.posts)|, |MergedAway(t0, conn.tables, home')|;
      && stats.mediaMerged + |Added(t0.posts, old(conn.tables.posts))| >= old(stats.mediaMerged) + added
      && stats.occasionsDeleted + |MergedAway(t0, old(conn.tables), home)| >= old(stats.occasionsDeleted) + merged
      && (r.Ok? ==>
            && stats.mediaMerged + |Added(t0.posts, old(conn.tables.posts))| == old(stats.mediaMerged) + added
            && stats.occasionsDeleted + |MergedAway(t0, old(conn.tables), home)|
               == old(stats.occasionsDeleted) + merged)
    ensures conn.abortsOnError ==> stats.relationsDropped == old(stats.relationsDropped)
  {
    hide *;
    home' := home;
    GroupAmongEvents(t0, uid);
    var sorted := SortByAge(events, group);
    ghost var t := conn.tables;
    GroupReady(t0, t, collapsed, home, uid, sorted, conn.abortsOnError);
    OthersUntouched(t0, t, collapsed, uid);
    r := CollapseGroup(conn, sorted[0], sorted[1..], stats);
    GroupJudged(t0, t, uid, sorted, r.Ok?, conn.abortsOnError, conn.reliable);
    if r.Ok? {
      GroupDone(t0, t, conn.tables, collapsed, home, uid, sorted, conn.abortsOnError);
      home' := home + AllTo(sorted[0], sorted[1..]);
      stats.groupsCollapsed := stats.groupsCollapsed + 1;
      stats.eventsDeleted := stats.eventsDeleted + |sorted[1..]|;
    }
  }

  /** One more UID. */
  method RepairNext(
      conn: Connection, events: Events, group: set<int>, uids: seq<string>, i: nat, stats: Stats,
      ghost t0: Tables, ghost before: set<string>, ghost homeBefore: Homes)
    returns (ghost collapsed: set<string>, ghost home: Homes)
    requires !conn.aborted && Integrity(t0) && events == t0.events && AllDifferent(uids) && i < |uids|
    requires group == GroupOf(t0, uids[i]) && Progress(t0, conn.tables, before, homeBefore, conn.abortsOnError)
    requires Settled(t0, conn.tables, before, uids, i, conn.abortsOnError, conn.reliable)
    modifies conn, stats
    ensures !conn.aborted && Progress(t0, conn.tables, collapsed, home, conn.abortsOnError)
    ensures Settled(t0, conn.tables, collapsed, uids, i + 1, conn.abortsOnError, conn.reliable)
    ensures stats.eventsDeleted + |conn.tables.events.Keys| == old(stats.eventsDeleted) + |old(conn.tables).events.Keys|
    ensures stats.groupsCollapsed + |before| == old(stats.groupsCollapsed) + |collapsed|
    ensures var added, merged := |Added(t0.posts, conn.tables.posts)|, |MergedAway(t0, conn.tables, home)|;
      && stats.mediaMerged + |Added(t0.posts, old(conn.tables.posts))| >= old(stats.mediaMerged) + added
      && stats.occasionsDeleted + |MergedAway(t0, old(conn.tables), homeBefore)|
         >= old(stats.occasionsDeleted) + merged
      && (AllTaken(t0, collapsed, uids[..i + 1]) ==>
            && AllTaken(t0, before, uids[..i])
            && stats.mediaMerged + |Added(t0.posts, old(conn.tables.posts))| == old(stats.mediaMerged) + added
            && stats.occasionsDeleted + |MergedAway(t0, old(conn.tables), homeBefore)|
               == old(stats.occasionsDeleted) + merged)
    ensures conn.abortsOnError ==> stats.relationsDropped == old(stats.relationsDropped)
  {
    hide *;
    collapsed, home := before, homeBefore;
    ghost var t := conn.tables;
    NextIsNew(t0, t, before, uids, i, conn.abortsOnError, conn.reliable);
    TakenNext(t0, before, uids[..i], uids[i]);
    if |group| < 2 {
      SettledSkip(t0, t, before, uids, i, conn.abortsOnError, conn.reliable);
      return;
    }
    var r;
    r, home := RepairGroup(conn, events, group, stats, t0, before, home, uids[i]);
    SettledNext(t0, t, conn.tables, before, uids, i, r.Ok?, conn.abortsOnError, conn.reliable);
    if r.Ok? {
      collapsed := before + {uids[i]};
    }
  }

  /** The loop over the UIDs. */
  method RepairGroups(
      conn: Connection, events: Events, byUid: map<string, set<int>>, uids: seq<string>, stats: Stats, ghost t0: Tables)
    returns (ghost collapsed: set<string>, ghost home: Homes)
    requires !conn.aborted && Integrity(t0) && conn.tables == t0 && events == t0.events && AllDifferent(uids)
    requires forall uid <- uids :: uid in byUid && byUid[uid] == GroupOf(t0, uid)
    modifies conn, stats
    ensures Progress(t0, conn.tables, collapsed, home, conn.abortsOnError)
    ensures Settled(t0, conn.tables, collapsed, uids, |uids|, conn.abortsOnError, conn.reliable)
    ensures stats.eventsDeleted + |conn.tables.events.Keys| == old(stats.eventsDeleted) + |t0.events.Keys|
    ensures stats.groupsCollapsed == old(stats.groupsCollapsed) + |collapsed|
    ensures stats.mediaMerged >= old(stats.mediaMerged) + |Added(t0.posts, conn.tables.posts)|
    ensures stats.occasionsDeleted >= old(stats.occasionsDeleted) + |MergedAway(t0, conn.tables, home)|
    ensures AllTaken(t0, collapsed, uids) ==>
      && stats.mediaMerged == old(stats.mediaMerged) + |Added(t0.posts, conn.tables.posts)|
      && stats.occasionsDeleted == old(stats.occasionsDeleted) + |MergedAway(t0, conn.tables, home)|
    ensures conn.abortsOnError ==> stats.relationsDropped == old(stats.relationsDropped)
  {
    hide *;
    collapsed, home := {}, map[];
    RunStarts(t0, conn.abortsOnError);
    SettledAtFirst(t0, uids, conn.abortsOnError, conn.reliable);
    for i := 0 to |uids|
      invariant !conn.aborted && Progress(t0, conn.tables, collapsed, home, conn.abortsOnError)
      invariant Settled(t0, conn.tables, collapsed, uids, i, conn.abortsOnError, conn.reliable)
      invariant stats.eventsDeleted + |conn.tables.events.Keys| == old(stats.eventsDeleted) + |t0.events.Keys|
      invariant stats.groupsCollapsed == old(stats.groupsCollapsed) + |collapsed|
      invariant stats.mediaMerged >= old(stats.mediaMerged) + |Added(t0.posts, conn.tables.posts)|
      invariant stats.occasionsDeleted >= old(stats.occasionsDeleted) + |MergedAway(t0, conn.tables, home)|
      invariant AllTaken(t0, collapsed, uids[..i]) ==>
        && stats.mediaMerged == old(stats.mediaMerged) + |Added(t0.posts, conn.tables.posts)|
        && stats.occasionsDeleted == old(stats.occasionsDeleted) + |MergedAway(t0, conn.tables, home)|
      invariant conn.abortsOnError ==> stats.relationsDropped == old(stats.relationsDropped)
    {
      collapsed, home := RepairNext(conn, events, byUid[uids[i]], uids, i, stats, t0, collapsed, home);
    }
    assert uids[..|uids|] == uids;
  }

  /** The tool: it renames the keys, then collapses group after group, in any order, each or not at all.
      `collapsed` are the UIDs of the groups it managed, `home` where their events have gone. */
  method RepairAll(conn: Connection, stats: Stats)
    returns (r: QueryResult<()>, ghost collapsed: set<string>, ghost home: Homes)
    requires !conn.aborted && Integrity(conn.tables)
    modifies conn, stats
    ensures conn.reliable ==> r.Ok?
    ensures r.Err? ==> conn.tables == old(conn.tables)
    ensures r.Ok? ==>
      && Outcome(Renamed(old(conn.tables)), conn.tables, home, conn.abortsOnError)
      && ToOldest(Renamed(old(conn.tables)), collapsed, home)
      && OldestKeeps(Renamed(old(conn.tables)), conn.tables, home)
      && EarliestStay(old(conn.tables), conn.tables, collapsed, home)
      && forall uid :: Decided(Renamed(old(conn.tables)), collapsed, uid, conn.abortsOnError, conn.reliable)
    ensures r.Ok? ==>
      && stats.eventsDeleted + |conn.tables.events.Keys| == old(stats.eventsDeleted) + |old(conn.tables).events.Keys|
      && stats.groupsCollapsed == old(stats.groupsCollapsed) + |collapsed|
      && stats.mediaMerged >= old(stats.mediaMerged) + |Added(old(conn.tables).posts, conn.tables.posts)|
      && stats.occasionsDeleted
         >= old(stats.occasionsDeleted) + |MergedAway(Renamed(old(conn.tables)), conn.tables, home)|
    ensures r.Ok? && EveryGroup(Renamed(old(conn.tables)), collapsed) ==>
      && stats.mediaMerged == old(stats.mediaMerged) + |Added(old(conn.tables).posts, conn.tables.posts)|
      && stats.occasionsDeleted
         == old(stats.occasionsDeleted) + |MergedAway(Renamed(old(conn.tables)), conn.tables, home)|
    ensures conn.abortsOnError ==> stats.relationsDropped == old(stats.relationsDropped)
  {
    hide *;
    var t0 := conn.tables.(events := KeysRenamed(conn.tables.events));
    RenamedIs(conn.tables);
    var renamed := conn.Execute(Ok(t0), |conn.tables.events|);
    if renamed.Err? {
      return Err(renamed.error), {}, map[];
    }
    var byUid := LoadGroups(t0);
    var uids := InSomeOrder(byUid.Keys);
    Different(uids);
    collapsed, home := RepairGroups(conn, t0.events, byUid, uids, stats, t0);
    AllDecided(t0, conn.tables, collapsed, uids, byUid.Keys, conn.abortsOnError, conn.reliable);
    ProgressParts(t0, conn.tables, collapsed, home, conn.abortsOnError);
    EveryTaken(t0, collapsed, uids);
    RunKeepsEarliest(old(conn.tables), conn.tables, collapsed, home, conn.abortsOnError);
    r := Ok(());
  }
}
