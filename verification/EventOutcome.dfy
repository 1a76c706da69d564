/** What has become of every row once a whole group of duplicates is collapsed. `Outcome` says so for any duplicates
    and their keepers, table by table, in terms of the tables at the start; `Collapsed` adds for one group what depends
    on the order of its duplicates. The lemmas lead from the loop's invariant to the outcome of one collapse: the last
    step moves what is on the event's own post and deletes it with its cascades. */
module EventOutcome {
  import opened Wrappers
  import opened EventTables
  import opened EventCollapse

  // ----- The outcome -----

  /** The keeper that each duplicate has been collapsed into. */
  type Homes = map<int, int>

  function Single(keeper: int, duplicate: int): Homes {
    map[duplicate := keeper]
  }

  function HomeOf(home: Homes, event: int): int {
    if event in home then home[event] else event
  }

  ghost predicate OfDuplicate(occasions: Occasions, home: Homes, o: int) {
    o in occasions && occasions[o] in home
  }

  /** The occasions of a duplicate that the tool looks after; the others go with their event. */
  ghost predicate IsAnchored(t: Tables, home: Homes, o: int) {
    OfDuplicate(t.occasions, home, o) && o in t.posts && t.posts[o].anchor.Some?
  }

  ghost predicate IsUnanchored(t: Tables, home: Homes, o: int) {
    OfDuplicate(t.occasions, home, o) && o in t.posts && t.posts[o].anchor.None?
  }

  /** Every RSVP survives, unless it was for an unanchored occasion of a duplicate, and is for a live occasion of
      the keeper, or of its own event, with the anchor it was for. */
  ghost predicate RsvpsKept(t0: Tables, t: Tables, home: Homes) {
    && (forall r <- t.rsvps :: r in t0.rsvps)
    && (forall r <- t0.rsvps ::
          var o := t0.rsvps[r];
          o in t0.occasions && o in t0.posts
          && (r in t.rsvps <==> !IsUnanchored(t0, home, o))
          && (r in t.rsvps ==>
                KeepsDate(t.posts, t.occasions, HomeOf(home, t0.occasions[o]), t0.posts[o].anchor, t.rsvps[r]))
          && (t0.occasions[o] !in home ==> t.rsvps[r] == o))
  }

  /** A live occasion of the keeper that stands for `o`: for its date, and with its media. */
  ghost predicate StandsFor(t0: Tables, t: Tables, keeper: int, o: int, date: int)
    requires o in t0.posts
  {
    KeepsDate(t.posts, t.occasions, keeper, t0.posts[o].anchor, date) && HasMedia(t.posts, date, t0.posts[o].media)
  }

  /** The keeper has each anchored date of the group, and nothing else changes hands. */
  ghost predicate OccasionsKept(t0: Tables, t: Tables, home: Homes) {
    && (forall o <- t.occasions ::
          o in t0.occasions && t.occasions[o] == HomeOf(home, t0.occasions[o]) && !IsUnanchored(t0, home, o))
    && (forall o <- t0.occasions :: t0.occasions[o] !in home ==> o in t.occasions)
    && (forall o :: IsAnchored(t0, home, o) ==>
          exists date <- t.occasions :: StandsFor(t0, t, home[t0.occasions[o]], o, date))
  }

  /** Two occasions of duplicates of one keeper, for the same anchor. */
  ghost predicate IsSameDate(t: Tables, home: Homes, o: int, p: int) {
    && IsAnchored(t, home, o) && IsAnchored(t, home, p)
    && home[t.occasions[o]] == home[t.occasions[p]] && t.posts[o].anchor == t.posts[p].anchor
  }

  /** Occasions are merged: into the keeper's, if it had one for the anchor, and into one of their own otherwise. */
  ghost predicate DatesMerged(t0: Tables, t: Tables, home: Homes) {
    && (forall o <- t.occasions ::
          IsAnchored(t0, home, o) ==> !HasDate(t0.posts, t0.occasions, home[t0.occasions[o]], t0.posts[o].anchor))
    && (forall o <- t.occasions, p <- t.occasions :: IsSameDate(t0, home, o, p) ==> o == p)
  }

  /** An occasion of a duplicate for the anchor has the medium. */
  ghost predicate Supplies(t: Tables, home: Homes, keeper: int, anchor: Option<int>, m: MediaRef) {
    exists o <- t.occasions ::
      IsAnchored(t, home, o) && home[t.occasions[o]] == keeper && t.posts[o].anchor == anchor && m in t.posts[o].media
  }

  /** All an occasion gets is the media of duplicates' occasions for the same anchor. */
  ghost predicate MediaSupplied(t0: Tables, t: Tables, home: Homes) {
    forall p <- t.posts :: p in t0.posts && p in t.occasions ==>
      forall m <- t.posts[p].media ::
        m in t0.posts[p].media || Supplies(t0, home, t.occasions[p], t0.posts[p].anchor, m)
  }

  /** Cross-posts and sync-out records: none is left on a duplicate, and with no collision none is lost but the
      cross-posts of merged occasions. */
  ghost predicate LinksKept(t0: Tables, t: Tables, home: Homes, lossless: bool) {
    && (forall row <- t.links ::
          row in t0.links && t.links[row].other == t0.links[row].other && t.links[row].post !in home)
    && (forall row <- t0.links :: RowKept(t0, t, home, lossless, row))
  }

  ghost predicate RowKept(t0: Tables, t: Tables, home: Homes, lossless: bool, row: Row)
    requires row in t0.links
  {
    var p := t0.links[row].post;
    if p in home then
      (row in t.links ==> t.links[row].post == home[p]) && (lossless ==> row in t.links)
    else if IsAnchored(t0, home, p) then
      if row.relation == OccasionDestinations then
        && (row in t.links ==>
              KeepsDate(t.posts, t.occasions, home[t0.occasions[p]], t0.posts[p].anchor, t.links[row].post))
        && (lossless ==> row in t.links)
      else
        && (row in t.links <==> p in t.posts)
        && (row in t.links ==> t.links[row] == t0.links[row])
        && (row.relation == PostDestinations ==> row in t.links)
    else
      row in t.links && t.links[row] == t0.links[row]
  }

  function ParentKept(posts: Posts, home: Homes, parent: Option<int>): Option<int> {
    if parent.Some? && parent.value in home then Some(home[parent.value]) else ParentLeft(posts, parent)
  }

  /** A keeper, or an occasion of one. */
  ghost predicate IsKeeping(occasions: Occasions, home: Homes, p: int) {
    exists d <- home :: p == home[d] || (p in occasions && occasions[p] == home[d])
  }

  /** A keeper's list of media is what it had and what its duplicates had. */
  ghost predicate MediaUnited(t0: Tables, t: Tables, home: Homes, d: int)
    requires d in home
  {
    var k := home[d];
    && d in t0.posts && k in t0.posts && k in t.posts
    && (forall m <- t0.posts[d].media :: m in t.posts[k].media)
    && (forall m <- t.posts[k].media :: m in t0.posts[k].media || IsDuplicates(t0, home, k, m))
  }

  ghost predicate IsDuplicates(t0: Tables, home: Homes, keeper: int, m: MediaRef) {
    exists d <- home :: home[d] == keeper && d in t0.posts && m in t0.posts[d].media
  }

  /** Replies follow to the keeper; lists of media only grow, by what is new and once; a keeper's becomes the union of
      its group's. */
  ghost predicate PostsKept(t0: Tables, t: Tables, home: Homes) {
    && (forall p <- t.posts ::
          && p in t0.posts && p !in home
          && t.posts[p].anchor == t0.posts[p].anchor && t.posts[p].synced == t0.posts[p].synced
          && Extends(t0.posts[p].media, t.posts[p].media)
          && t.posts[p].parent == ParentKept(t.posts, home, t0.posts[p].parent))
    && (forall p <- t0.posts :: p !in home && !IsAnchored(t0, home, p) ==> p in t.posts)
    && (forall p <- t0.posts :: IsAnchored(t0, home, p) ==> (p in t.posts <==> p in t.occasions))
    && (forall p <- t.posts :: !IsKeeping(t.occasions, home, p) ==> t.posts[p].media == t0.posts[p].media)
    && (forall d <- home :: MediaUnited(t0, t, home, d))
  }

  /** What collapses into `home` come to, table by table. */
  ghost predicate Outcome(t0: Tables, t: Tables, home: Homes, lossless: bool) {
    && Integrity(t)
    && t.events == t0.events - home.Keys
    && RsvpsKept(t0, t, home)
    && OccasionsKept(t0, t, home)
    && LinksKept(t0, t, home, lossless)
    && PostsKept(t0, t, home)
    && DatesMerged(t0, t, home)
    && MediaSupplied(t0, t, home)
  }

  // ----- One group -----

  function AllTo(keeper: int, duplicates: seq<int>): Homes {
    map d <- duplicates :: keeper
  }

  function MediaOf(posts: Posts, ids: seq<int>): seq<seq<MediaRef>> {
    seq(|ids|, i requires 0 <= i < |ids| => if ids[i] in posts then posts[ids[i]].media else [])
  }

  /** The keeper's media are merged in the order of the duplicates. */
  ghost predicate MediaMergedAll(posts0: Posts, posts: Posts, keeper: int, duplicates: seq<int>) {
    && keeper in posts0 && keeper in posts
    && posts[keeper].media == MergedAll(posts0[keeper].media, MediaOf(posts0, duplicates))
  }

  ghost predicate ComesBefore(order: seq<int>, a: int, b: int) {
    exists i, j :: 0 <= i < j < |order| && order[i] == a && order[j] == b
  }

  /** For the occasion's anchor, its keeper had one of its own, or a duplicate that was collapsed before. */
  ghost predicate IsPreceded(t: Tables, home: Homes, order: seq<int>, o: int)
    requires IsAnchored(t, home, o)
  {
    var event, anchor := t.occasions[o], t.posts[o].anchor;
    || HasDate(t.posts, t.occasions, home[event], anchor)
    || exists d <- home ::
         home[d] == home[event] && ComesBefore(order, d, event) && HasDate(t.posts, t.occasions, d, anchor)
  }

  /** Of the occasions for an anchor, the first event's is left. */
  ghost predicate FirstKeeps(t0: Tables, t: Tables, home: Homes, order: seq<int>) {
    forall o <- t.occasions :: IsAnchored(t0, home, o) ==> !IsPreceded(t0, home, order, o)
  }

  /** The occasions that have been merged into others. */
  ghost function MergedAway(t0: Tables, t: Tables, home: Homes): set<int> {
    set o <- t0.occasions | IsAnchored(t0, home, o) && o !in t.occasions
  }

  ghost predicate Collapsed(t0: Tables, t: Tables, keeper: int, duplicates: seq<int>, lossless: bool) {
    && Outcome(t0, t, AllTo(keeper, duplicates), lossless)
    && MediaMergedAll(t0.posts, t.posts, keeper, duplicates)
    && FirstKeeps(t0, t, AllTo(keeper, duplicates), duplicates)
  }

  // ----- The last step of one collapse: the event's own post -----

  function EventPosts(posts: Posts, keeper: int, duplicate: int): Posts
    requires keeper in posts && duplicate in posts
  {
    WithoutPost(MediaMerged(MovedReplies(posts, duplicate, keeper), keeper, duplicate), duplicate)
  }

  function OccasionsOf(occasions: Occasions, event: int): set<int> {
    set o <- occasions | occasions[o] == event
  }

  /** No statement of `reassign_post_relations` meets a collision. */
  ghost predicate NoCollision(links: Links, keeper: int, duplicate: int) {
    var one := Recombined(links, GroupPosts, duplicate, keeper);
    var two := Recombined(one, UserPosts, duplicate, keeper);
    && !Collides(links, GroupPosts, duplicate, keeper)
    && !Collides(one, UserPosts, duplicate, keeper)
    && !Collides(two, PostDestinations, duplicate, keeper)
  }

  ghost predicate PostRowsMoved(links: Links, links': Links, keeper: int, duplicate: int, lossless: bool) {
    && (forall row <- links' :: row in links && links'[row].other == links[row].other && links'[row].post != duplicate)
    && (forall row <- links :: links[row].post != duplicate ==> row in links' && links'[row] == links[row])
    && (forall row <- links' :: links[row].post == duplicate ==> links'[row].post == keeper)
    && (lossless ==> forall row <- links :: row in links')
  }

  /** The same while only some of the relations have been seen to. */
  ghost predicate SomeRowsMoved(
      links: Links, links': Links, keeper: int, duplicate: int, done: set<Relation>, lossless: bool)
  {
    && (forall row <- links' ::
          && row in links && links'[row].other == links[row].other
          && (links'[row] == links[row] || (links[row].post == duplicate && links'[row].post == keeper))
          && (links'[row].post == duplicate ==> row.relation !in done))
    && (forall row <- links :: links[row].post != duplicate ==> row in links')
    && (lossless ==> forall row <- links :: row in links')
  }

  lemma OneMoreRelation(
      links: Links, links': Links, keeper: int, duplicate: int, done: set<Relation>, lossless: bool, relation: Relation)
    requires SomeRowsMoved(links, links', keeper, duplicate, done, lossless) && keeper != duplicate
    requires lossless ==> !Collides(links', relation, duplicate, keeper)
    ensures SomeRowsMoved(links, Recombined(links', relation, duplicate, keeper),
                          keeper, duplicate, done + {relation}, lossless)
  {
    RecombinedRows(links', relation, duplicate, keeper);
    var links'' := Recombined(links', relation, duplicate, keeper);
    hide Recombined, Collides;
    forall row <- links'' | links''[row].post == duplicate ensures row.relation != relation {
      RowOn(links'', row, duplicate);
    }
  }

  lemma RowOn(links: Links, row: Row, post: int)
    requires row in links && links[row].post == post
    ensures row in RowsOn(links, row.relation, post)
  {
  }

  /** The rows after all three composite relations, in one go. */
  lemma PostRows(t: Tables, keeper: int, duplicate: int, lossless: bool)
    requires keeper != duplicate
    requires forall row <- t.links :: !IsOn(t.links, row, OccasionDestinations, duplicate)
    requires lossless ==> NoCollision(t.links, keeper, duplicate)
    ensures var links' := PostReassigned(t, keeper, duplicate).links;
      PostRowsMoved(t.links, links', keeper, duplicate, lossless) && WithoutPostLinks(links', duplicate) == links'
  {
    var one := Recombined(t.links, GroupPosts, duplicate, keeper);
    var two := Recombined(one, UserPosts, duplicate, keeper);
    OneMoreRelation(t.links, t.links, keeper, duplicate, {}, lossless, GroupPosts);
    OneMoreRelation(t.links, one, keeper, duplicate, {GroupPosts}, lossless, UserPosts);
    OneMoreRelation(t.links, two, keeper, duplicate, {GroupPosts, UserPosts}, lossless, PostDestinations);
    AllRowsMoved(t.links, PostReassigned(t, keeper, duplicate).links, keeper, duplicate, lossless);
  }

  lemma AllRowsMoved(links: Links, links': Links, keeper: int, duplicate: int, lossless: bool)
    requires keeper != duplicate
    requires forall row <- links :: !IsOn(links, row, OccasionDestinations, duplicate)
    requires SomeRowsMoved(links, links', keeper, duplicate, {GroupPosts} + {UserPosts} + {PostDestinations}, lossless)
    ensures PostRowsMoved(links, links', keeper, duplicate, lossless) && WithoutPostLinks(links', duplicate) == links'
  {
    forall row <- links' ensures links'[row].post != duplicate {
      assert links'[row].post == duplicate ==> !IsOn(links, row, OccasionDestinations, duplicate);
    }
  }

  /** What the end of a collapse comes to, where nothing stops it. */
  function EventMerged(t: Tables, keeper: int, duplicate: int): Tables
    requires keeper in t.posts && duplicate in t.posts
  {
    var gone := OccasionsOf(t.occasions, duplicate);
    Tables(EventPosts(t.posts, keeper, duplicate), t.events - {duplicate}, t.occasions - gone,
           WithoutRsvps(t.rsvps, gone), PostReassigned(t, keeper, duplicate).links)
  }

  lemma RepliesMoved(t: Tables, keeper: int, duplicate: int)
    requires Integrity(t) && keeper in t.posts
    ensures MovedReplies(t.posts, duplicate, keeper).Keys == t.posts.Keys
    ensures PostsRefer(MovedReplies(t.posts, duplicate, keeper))
  {
    hide Unique, LinksRefer, OccasionsRefer, RsvpsRefer, Separate;
  }

  lemma PostReassignedIntegrity(t: Tables, keeper: int, duplicate: int)
    requires Integrity(t) && keeper in t.posts && duplicate in t.posts && keeper != duplicate
    ensures Integrity(PostReassigned(t, keeper, duplicate))
  {
    hide *;
    IntegrityIs(t);
    PostReassignedIs(t, keeper, duplicate);
    var one := Recombined(t.links, GroupPosts, duplicate, keeper);
    var two := Recombined(one, UserPosts, duplicate, keeper);
    RecombinedUnique(t.links, GroupPosts, duplicate, keeper);
    RecombinedUnique(one, UserPosts, duplicate, keeper);
    RecombinedUnique(two, PostDestinations, duplicate, keeper);
    RecombinedRefer(t.posts, t.occasions, t.links, GroupPosts, duplicate, keeper);
    RecombinedRefer(t.posts, t.occasions, one, UserPosts, duplicate, keeper);
    RecombinedRefer(t.posts, t.occasions, two, PostDestinations, duplicate, keeper);
    RepliesMoved(t, keeper, duplicate);
    var t' := PostReassigned(t, keeper, duplicate);
    SameKeysRefer(t.posts, t'.posts, t.events, t.occasions, t'.links);
    IntegrityIs(t');
  }

  lemma IntegrityIs(t: Tables)
    ensures Integrity(t) <==>
      && Unique(t.links) && PostsRefer(t.posts) && OccasionsRefer(t.posts, t.events, t.occasions)
      && Separate(t.events, t.occasions) && RsvpsRefer(t.occasions, t.rsvps)
      && LinksRefer(t.posts, t.occasions, t.links)
  {
    hide Unique, PostsRefer, OccasionsRefer, Separate, RsvpsRefer, LinksRefer;
  }

  lemma PostReassignedIs(t: Tables, keeper: int, duplicate: int)
    ensures var t' := PostReassigned(t, keeper, duplicate);
      && t'.events == t.events && t'.occasions == t.occasions && t'.rsvps == t.rsvps
      && t'.posts == MovedReplies(t.posts, duplicate, keeper)
      && var one := Recombined(t.links, GroupPosts, duplicate, keeper);
         t'.links == Recombined(Recombined(one, UserPosts, duplicate, keeper), PostDestinations, duplicate, keeper)
  {
    hide Recombined, MovedReplies;
  }

  lemma SameKeysRefer(posts: Posts, posts': Posts, events: Events, occasions: Occasions, links: Links)
    requires posts'.Keys == posts.Keys
    ensures OccasionsRefer(posts, events, occasions) ==> OccasionsRefer(posts', events, occasions)
    ensures LinksRefer(posts, occasions, links) ==> LinksRefer(posts', occasions, links)
  {
  }

  lemma KeysStay(t: Tables, keeper: int, duplicate: int)
    ensures PostReassigned(t, keeper, duplicate).posts.Keys == t.posts.Keys
  {
  }

  lemma MediaKeepIntegrity(t: Tables, keeper: int, duplicate: int)
    requires Integrity(t) && keeper in t.posts && duplicate in t.posts
    ensures Integrity(t.(posts := MediaMerged(t.posts, keeper, duplicate)))
  {
    hide Unique, Merged, Separate, RsvpsRefer;
  }

  lemma FinishEquals(t: Tables, t2: Tables, keeper: int, duplicate: int)
    requires keeper in t.posts && duplicate in t.posts
    requires var t1 := PostReassigned(t, keeper, duplicate);
      keeper in t1.posts && duplicate in t1.posts && t2 == t1.(posts := MediaMerged(t1.posts, keeper, duplicate))
    requires CascadedOccasions(t.occasions, duplicate) == OccasionsOf(t.occasions, duplicate)
    requires WithoutPostLinks(t2.links, duplicate) == t2.links
    ensures Deleted(t2, duplicate) == EventMerged(t, keeper, duplicate)
  {
    hide MediaMerged, WithoutPost, WithoutPostLinks, Recombined, CascadedOccasions, OccasionsOf, WithoutRsvps;
  }

  lemma FinishShape(t: Tables, keeper: int, duplicate: int, lossless: bool)
    requires Integrity(t) && keeper in t.events && duplicate in t.events && keeper != duplicate
    requires lossless ==> NoCollision(t.links, keeper, duplicate)
    ensures keeper in t.posts && duplicate in t.posts
    ensures var merged := MergedAndDeleted(PostReassigned(t, keeper, duplicate), keeper, duplicate);
      merged.Ok? ==>
        && merged.value == EventMerged(t, keeper, duplicate)
        && Integrity(merged.value) && merged.value.events == t.events - {duplicate}
        && PostRowsMoved(t.links, PostReassigned(t, keeper, duplicate).links, keeper, duplicate, lossless)
        && forall row <- t.links :: row.relation == OccasionDestinations ==>
             t.links[row].post !in OccasionsOf(t.occasions, duplicate)
  {
    EventHasNoOccasion(t, keeper);
    EventHasNoOccasion(t, duplicate);
    hide Integrity, NoCollision, PostRowsMoved, WithoutPost, WithoutRsvps, WithoutPostLinks, Restricted, MediaMerged;
    assert CascadedOccasions(t.occasions, duplicate) == OccasionsOf(t.occasions, duplicate);
    PostReassignedIntegrity(t, keeper, duplicate);
    PostRows(t, keeper, duplicate, lossless);
    KeysStay(t, keeper, duplicate);
    var t1 := PostReassigned(t, keeper, duplicate);
    assert t1.occasions == t.occasions && t1.events == t.events;
    MediaKeepIntegrity(t1, keeper, duplicate);
    hide PostReassigned, OccasionsOf, CascadedOccasions;
    var t2 := t1.(posts := MediaMerged(t1.posts, keeper, duplicate));
    if !Restricted(t2, duplicate) {
      DeleteKeepsIntegrity(t2, duplicate);
      FinishEquals(t, t2, keeper, duplicate);
      FinishRestricted(t, t2, keeper, duplicate, lossless);
    }
  }

  lemma FinishRestricted(t: Tables, t2: Tables, keeper: int, duplicate: int, lossless: bool)
    requires PostRowsMoved(t.links, t2.links, keeper, duplicate, lossless) && t2.occasions == t.occasions
    requires CascadedOccasions(t.occasions, duplicate) == OccasionsOf(t.occasions, duplicate)
    requires duplicate !in t.occasions && !Restricted(t2, duplicate)
    ensures forall row <- t.links :: row.relation == OccasionDestinations ==>
      t.links[row].post !in OccasionsOf(t.occasions, duplicate)
  {
    forall row <- t.links | row.relation == OccasionDestinations
      ensures t.links[row].post !in OccasionsOf(t.occasions, duplicate)
    {
      assert t.links[row].post != duplicate ==> row in t2.links && t2.links[row] == t.links[row];
    }
  }

  lemma EventHasNoOccasion(t: Tables, event: int)
    requires Integrity(t) && event in t.events
    ensures event in t.posts && event !in t.occasions
    ensures forall row <- t.links :: !IsOn(t.links, row, OccasionDestinations, event)
  {
  }

  // ----- One collapse, from beginning to end -----

  /** The loop is done: every anchored occasion of the duplicate has been dealt with. */
  ghost predicate AllHandled(t0: Tables, keeper: int, duplicate: int, handled: set<int>) {
    forall o :: o in handled <==> IsAnchored(t0, Single(keeper, duplicate), o)
  }

  lemma FinishKeepsDate(t: Tables, keeper: int, duplicate: int, event: int, anchor: Option<int>, date: int)
    requires keeper in t.posts && duplicate in t.posts && event != duplicate && date != duplicate
    requires KeepsDate(t.posts, t.occasions, event, anchor, date)
    ensures var t' := EventMerged(t, keeper, duplicate); KeepsDate(t'.posts, t'.occasions, event, anchor, date)
  {
    hide Merged, PostReassigned;
  }

  lemma FinishRsvps(t0: Tables, t: Tables, keeper: int, duplicate: int, handled: set<int>)
    requires OccasionsRefer(t0.posts, t0.events, t0.occasions) && RsvpsRefer(t0.occasions, t0.rsvps)
    requires keeper in t.posts && duplicate in t.posts && keeper != duplicate && duplicate !in t.occasions
    requires handled <= t0.posts.Keys && AllHandled(t0, keeper, duplicate, handled)
    requires OccasionsMid(t0.occasions, t.occasions, keeper, duplicate, handled)
    requires PostsMid(t0.posts, t.posts, t.occasions, keeper, handled)
    requires RsvpsMid(t0.posts, t0.rsvps, t.posts, t.occasions, t.rsvps, keeper, handled)
    ensures RsvpsKept(t0, EventMerged(t, keeper, duplicate), Single(keeper, duplicate))
  {
    var t' := EventMerged(t, keeper, duplicate);
    forall r <- t0.rsvps
      ensures r in t'.rsvps <==> !IsUnanchored(t0, Single(keeper, duplicate), t0.rsvps[r])
      ensures r in t'.rsvps ==>
        KeepsDate(t'.posts, t'.occasions, HomeOf(Single(keeper, duplicate), t0.occasions[t0.rsvps[r]]),
                  t0.posts[t0.rsvps[r]].anchor, t'.rsvps[r])
      ensures t0.occasions[t0.rsvps[r]] != duplicate ==> t'.rsvps[r] == t0.rsvps[r]
    {
      var o := t0.rsvps[r];
      assert o in handled <==> IsAnchored(t0, Single(keeper, duplicate), o);
      if !IsUnanchored(t0, Single(keeper, duplicate), o) {
        var event := HomeOf(Single(keeper, duplicate), t0.occasions[o]);
        assert KeepsDate(t.posts, t.occasions, event, t0.posts[o].anchor, t.rsvps[r]);
        FinishKeepsDate(t, keeper, duplicate, event, t0.posts[o].anchor, t.rsvps[r]);
      }
    }
  }

  lemma FinishKeepsMedia(t: Tables, keeper: int, duplicate: int, p: int)
    requires keeper in t.posts && duplicate in t.posts && keeper != duplicate && p in t.posts && p != duplicate
    ensures var t' := EventMerged(t, keeper, duplicate); p in t'.posts && t.posts[p].media <= t'.posts[p].media
  {
    EventPostsAre(t.posts, keeper, duplicate);
    hide EventPosts, Merged, PostReassigned;
  }

  lemma FinishOccasions(
      t0: Tables, t: Tables, keeper: int, duplicate: int, handled: set<int>, byAnchor: map<int, int>)
    requires OccasionsRefer(t0.posts, t0.events, t0.occasions)
    requires keeper in t.posts && duplicate in t.posts && keeper != duplicate && duplicate !in t.occasions
    requires handled <= t0.posts.Keys && AllHandled(t0, keeper, duplicate, handled)
    requires OccasionsMid(t0.occasions, t.occasions, keeper, duplicate, handled)
    requires AnchorsMid(t0.posts, t.posts, t.occasions, keeper, handled, byAnchor)
    ensures OccasionsKept(t0, EventMerged(t, keeper, duplicate), Single(keeper, duplicate))
  {
    var t' := EventMerged(t, keeper, duplicate);
    SingleIs(keeper, duplicate);
    forall o | IsAnchored(t0, Single(keeper, duplicate), o)
      ensures exists date <- t'.occasions :: StandsFor(t0, t', keeper, o, date)
    {
      assert o in handled;
      var anchor := t0.posts[o].anchor.value;
      var date := byAnchor[anchor];
      assert KeepsDate(t.posts, t.occasions, keeper, Some(anchor), date) && HasMedia(t.posts, date, t0.posts[o].media);
      FinishKeepsDate(t, keeper, duplicate, keeper, Some(anchor), date);
      FinishKeepsMedia(t, keeper, duplicate, date);
      assert StandsFor(t0, t', keeper, o, date);
    }
    forall o <- t'.occasions
      ensures o in t0.occasions && t'.occasions[o] == HomeOf(Single(keeper, duplicate), t0.occasions[o])
      ensures !IsUnanchored(t0, Single(keeper, duplicate), o)
    {
      assert o in handled <==> IsAnchored(t0, Single(keeper, duplicate), o);
    }
    forall o <- t0.occasions | t0.occasions[o] != duplicate ensures o in t'.occasions {
      assert o in handled <==> IsAnchored(t0, Single(keeper, duplicate), o);
    }
  }

  lemma FinishLinks(t0: Tables, t: Tables, keeper: int, duplicate: int, handled: set<int>, lossless: bool)
    requires keeper in t.posts && duplicate in t.posts && keeper != duplicate
    requires duplicate !in t.occasions && duplicate !in t0.occasions
    requires handled <= t0.posts.Keys && AllHandled(t0, keeper, duplicate, handled)
    requires LinksMid(t0.posts, t0.links, t.posts, t.occasions, t.links, keeper, handled, lossless)
    requires PostRowsMoved(t.links, PostReassigned(t, keeper, duplicate).links, keeper, duplicate, lossless)
    ensures LinksKept(t0, EventMerged(t, keeper, duplicate), Single(keeper, duplicate), lossless)
  {
    var t' := EventMerged(t, keeper, duplicate);
    hide PostReassigned, EventPosts;
    forall row <- t0.links ensures RowKept(t0, t', Single(keeper, duplicate), lossless, row) {
      FinishRow(t0, t, keeper, duplicate, handled, lossless, row);
    }
    SingleIs(keeper, duplicate);
    hide RowKept, KeepsDate, WithoutRsvps, OccasionsOf;
  }

  lemma MovedRow(links: Links, links': Links, keeper: int, duplicate: int, lossless: bool, row: Row)
    requires PostRowsMoved(links, links', keeper, duplicate, lossless)
    ensures row in links' ==> row in links
    ensures row in links && links[row].post != duplicate ==> row in links' && links'[row] == links[row]
    ensures row in links && links[row].post == duplicate ==>
      (row in links' ==> links'[row].post == keeper) && (lossless ==> row in links')
  {
  }

  lemma FinishRow(t0: Tables, t: Tables, keeper: int, duplicate: int, handled: set<int>, lossless: bool, row: Row)
    requires keeper in t.posts && duplicate in t.posts && keeper != duplicate
    requires duplicate !in t.occasions && duplicate !in t0.occasions
    requires handled <= t0.posts.Keys && AllHandled(t0, keeper, duplicate, handled)
    requires LinksMid(t0.posts, t0.links, t.posts, t.occasions, t.links, keeper, handled, lossless)
    requires PostRowsMoved(t.links, PostReassigned(t, keeper, duplicate).links, keeper, duplicate, lossless)
    requires row in t0.links
    ensures RowKept(t0, EventMerged(t, keeper, duplicate), Single(keeper, duplicate), lossless, row)
  {
    var t' := EventMerged(t, keeper, duplicate);
    var p := t0.links[row].post;
    SingleIs(keeper, duplicate);
    assert RowMid(t0.posts, t0.links, t.posts, t.occasions, t.links, keeper, handled, lossless, row);
    MovedRow(t.links, t'.links, keeper, duplicate, lossless, row);
    assert p in handled <==> IsAnchored(t0, Single(keeper, duplicate), p);
    assert p in handled ==> p in t0.occasions && t0.occasions[p] == duplicate;
    assert p in t'.posts <==> p in t.posts && p != duplicate;
    hide LinksMid, PostRowsMoved, EventMerged, AllHandled, Single, IsAnchored;
    if p in handled && row.relation == OccasionDestinations && row in t.links {
      FinishKeepsDate(t, keeper, duplicate, keeper, t0.posts[p].anchor, t.links[row].post);
      DateIs(t.posts, t.occasions, keeper, t0.posts[p].anchor, t.links[row].post);
    }
    hide KeepsDate;
  }

  lemma DateIs(posts: Posts, occasions: Occasions, keeper: int, anchor: Option<int>, date: int)
    requires KeepsDate(posts, occasions, keeper, anchor, date)
    ensures date in occasions
  {
  }

  lemma SingleIs(keeper: int, duplicate: int)
    ensures forall p :: p in Single(keeper, duplicate) <==> p == duplicate
    ensures Single(keeper, duplicate)[duplicate] == keeper && AllTo(keeper, [duplicate]) == Single(keeper, duplicate)
  {
  }

  lemma EventPostsAre(posts: Posts, keeper: int, duplicate: int)
    requires keeper in posts && duplicate in posts && keeper != duplicate
    ensures var posts' := EventPosts(posts, keeper, duplicate);
      && posts'.Keys == posts.Keys - {duplicate}
      && (forall p <- posts' ::
            && posts'[p].anchor == posts[p].anchor && posts'[p].synced == posts[p].synced
            && posts'[p].parent == (if posts[p].parent == Some(duplicate) then Some(keeper) else posts[p].parent)
            && (p != keeper ==> posts'[p].media == posts[p].media))
      && posts'[keeper].media == Merged(posts[keeper].media, posts[duplicate].media)
  {
    hide Merged;
  }

  /** `PostsKept` for one duplicate, in terms of what the loop has handled. */
  ghost predicate PostsDone(
      before: Posts, posts: Posts, occasions: Occasions, keeper: int, duplicate: int, handled: set<int>)
  {
    && (forall p <- posts :: PostDone(before, posts, keeper, duplicate, p))
    && (forall p <- before :: p != duplicate && p !in handled ==> p in posts)
    && (forall p <- handled :: p in posts <==> p in occasions)
    && (forall p <- posts ::
          p != keeper && !(p in occasions && occasions[p] == keeper) ==> posts[p].media == before[p].media)
  }

  ghost predicate PostDone(before: Posts, posts: Posts, keeper: int, duplicate: int, p: int) {
    && p in posts && p in before && p != duplicate
    && posts[p].anchor == before[p].anchor && posts[p].synced == before[p].synced
    && Extends(before[p].media, posts[p].media)
    && posts[p].parent == ParentKept(posts, Single(keeper, duplicate), before[p].parent)
  }

  ghost predicate MediaDone(before: Posts, posts: Posts, keeper: int, duplicate: int) {
    && keeper in posts && keeper in before && duplicate in before
    && posts[keeper].media == Merged(before[keeper].media, before[duplicate].media)
  }

  lemma ParentDone(now: Posts, posts: Posts, keeper: int, duplicate: int, parent: Option<int>, between: Option<int>)
    requires posts.Keys == now.Keys - {duplicate} && keeper in posts && duplicate in now
    requires between == ParentLeft(now, parent)
    ensures ParentKept(posts, Single(keeper, duplicate), parent)
         == if between == Some(duplicate) then Some(keeper) else between
  {
    SingleIs(keeper, duplicate);
    hide Single;
  }

  lemma PostIsDone(
      before: Posts, now: Posts, occasions: Occasions, keeper: int, duplicate: int, handled: set<int>, p: int)
    requires keeper in now && duplicate in now && keeper != duplicate
    requires keeper !in occasions && duplicate !in occasions
    requires PostsMid(before, now, occasions, keeper, handled) && p in now && p != duplicate
    ensures PostDone(before, EventPosts(now, keeper, duplicate), keeper, duplicate, p)
  {
    EventPostsAre(now, keeper, duplicate);
    var posts' := EventPosts(now, keeper, duplicate);
    ParentDone(now, posts', keeper, duplicate, before[p].parent, now[p].parent);
    if p == keeper {
      ExtendsTrans(before[p].media, now[p].media, posts'[p].media);
    }
    hide EventPosts, Merged, Extends, Single, ParentKept, ParentLeft;
  }

  lemma OthersStayHere(occasions: Occasions, event: int)
    ensures forall o <- occasions - OccasionsOf(occasions, event) :: o in occasions && occasions[o] != event
    ensures forall o <- occasions :: occasions[o] != event ==> o in occasions - OccasionsOf(occasions, event)
  {
  }

  lemma PostsAreDone(before: Posts, now: Posts, occasions: Occasions, keeper: int, duplicate: int, handled: set<int>)
    requires keeper in now && duplicate in now && keeper != duplicate
    requires keeper !in occasions && duplicate !in occasions && duplicate !in handled
    requires PostsMid(before, now, occasions, keeper, handled)
    requires forall o <- handled :: o in occasions ==> occasions[o] == keeper
    ensures PostsDone(before, EventPosts(now, keeper, duplicate), occasions - OccasionsOf(occasions, duplicate),
                      keeper, duplicate, handled)
    ensures MediaDone(before, EventPosts(now, keeper, duplicate), keeper, duplicate)
  {
    hide EventPosts, Merged, Extends, ParentLeft, PostDone, OccasionsOf;
    EventPostsAre(now, keeper, duplicate);
    OthersStayHere(occasions, duplicate);
    forall p <- EventPosts(now, keeper, duplicate)
      ensures PostDone(before, EventPosts(now, keeper, duplicate), keeper, duplicate, p)
    {
      PostIsDone(before, now, occasions, keeper, duplicate, handled, p);
    }
  }

  lemma DoneIsKept(t0: Tables, t': Tables, keeper: int, duplicate: int, handled: set<int>)
    requires AllHandled(t0, keeper, duplicate, handled) && MediaDone(t0.posts, t'.posts, keeper, duplicate)
    requires PostsDone(t0.posts, t'.posts, t'.occasions, keeper, duplicate, handled)
    ensures PostsKept(t0, t', Single(keeper, duplicate))
  {
    SingleIs(keeper, duplicate);
    hide Merged, Extends, ParentKept, IsAnchored, Single;
    assert MediaUnited(t0, t', Single(keeper, duplicate), duplicate);
    hide MediaUnited, MediaDone;
    forall p <- t'.posts | !IsKeeping(t'.occasions, Single(keeper, duplicate), p)
      ensures t'.posts[p].media == t0.posts[p].media
    {
      assert duplicate in Single(keeper, duplicate);
      assert PostDone(t0.posts, t'.posts, keeper, duplicate, p);
    }
  }

  lemma FinishPosts(t0: Tables, t: Tables, keeper: int, duplicate: int, handled: set<int>)
    requires keeper in t.posts && duplicate in t.posts && keeper != duplicate
    requires keeper !in t.occasions && duplicate !in t.occasions && duplicate !in t0.occasions
    requires handled <= t0.posts.Keys && AllHandled(t0, keeper, duplicate, handled)
    requires OccasionsMid(t0.occasions, t.occasions, keeper, duplicate, handled)
    requires PostsMid(t0.posts, t.posts, t.occasions, keeper, handled)
    ensures var t' := EventMerged(t, keeper, duplicate);
      && PostsKept(t0, t', Single(keeper, duplicate))
      && MediaMergedAll(t0.posts, t'.posts, keeper, [duplicate])
  {
    assert duplicate !in handled;
    assert forall o <- handled :: o in t.occasions ==> t.occasions[o] == keeper;
    hide AllHandled, OccasionsMid, PostsMid, PostsDone, EventPosts, PostReassigned, OccasionsOf, Merged;
    PostsAreDone(t0.posts, t.posts, t.occasions, keeper, duplicate, handled);
    DoneIsKept(t0, EventMerged(t, keeper, duplicate), keeper, duplicate, handled);
    MergedOne(t0.posts, keeper, duplicate);
    hide MergedAll, MediaOf;
  }

  lemma FinishGone(t0: Tables, t: Tables, keeper: int, duplicate: int, handled: set<int>)
    requires keeper in t.posts && duplicate in t.posts && AllHandled(t0, keeper, duplicate, handled)
    requires OccasionsMid(t0.occasions, t.occasions, keeper, duplicate, handled) && keeper != duplicate
    ensures MergedAway(t0, EventMerged(t, keeper, duplicate), AllTo(keeper, [duplicate]))
         == GoneOf(t.occasions, handled)
  {
    SingleIs(keeper, duplicate);
    var t' := EventMerged(t, keeper, duplicate);
    forall o ensures o in MergedAway(t0, t', AllTo(keeper, [duplicate])) <==> o in GoneOf(t.occasions, handled) {
      assert o in handled <==> IsAnchored(t0, AllTo(keeper, [duplicate]), o);
      assert o in handled ==> o in t0.occasions && (o in t.occasions ==> t.occasions[o] == keeper);
      hide EventPosts, PostReassigned, WithoutRsvps, AllTo, IsAnchored, OccasionsMid, AllHandled;
    }
  }

  lemma FinishDates(t0: Tables, t: Tables, keeper: int, duplicate: int, handled: set<int>)
    requires keeper in t.posts && duplicate in t.posts
    requires handled <= t0.posts.Keys && AllHandled(t0, keeper, duplicate, handled)
    requires DatesMid(t0.posts, t0.occasions, t.occasions, keeper, handled)
    ensures DatesMerged(t0, EventMerged(t, keeper, duplicate), Single(keeper, duplicate))
  {
    SingleIs(keeper, duplicate);
    hide EventPosts, PostReassigned, WithoutRsvps, OccasionsOf, HasDate, Single;
  }

  lemma FinishMedia(t0: Tables, t: Tables, keeper: int, duplicate: int, handled: set<int>)
    requires keeper in t.posts && duplicate in t.posts && keeper != duplicate && keeper !in t.occasions
    requires handled <= t0.posts.Keys && AllHandled(t0, keeper, duplicate, handled)
    requires MediaMid(t0.posts, t.posts, t.occasions, keeper, handled)
    requires PostsMid(t0.posts, t.posts, t.occasions, keeper, handled)
    ensures MediaSupplied(t0, EventMerged(t, keeper, duplicate), Single(keeper, duplicate))
  {
    var t' := EventMerged(t, keeper, duplicate);
    EventPostsAre(t.posts, keeper, duplicate);
    SingleIs(keeper, duplicate);
    hide EventPosts, PostReassigned, WithoutRsvps, Single, Merged, Brings, Supplies;
    forall p <- t'.posts, m <- t'.posts[p].media
      | p in t0.posts && p in t'.occasions && m !in t0.posts[p].media
      ensures Supplies(t0, Single(keeper, duplicate), t'.occasions[p], t0.posts[p].anchor, m)
    {
      assert t.occasions[p] == keeper && Brings(t0.posts, handled, t0.posts[p].anchor, m);
      BroughtIsSupplied(t0, keeper, duplicate, handled, t0.posts[p].anchor, m);
    }
  }

  lemma BroughtIsSupplied(
      t0: Tables, keeper: int, duplicate: int, handled: set<int>, anchor: Option<int>, m: MediaRef)
    requires AllHandled(t0, keeper, duplicate, handled) && Brings(t0.posts, handled, anchor, m)
    ensures Supplies(t0, Single(keeper, duplicate), keeper, anchor, m)
  {
    var o :| o in handled && o in t0.posts && t0.posts[o].anchor == anchor && m in t0.posts[o].media;
    assert IsAnchored(t0, Single(keeper, duplicate), o);
  }

  lemma FinishAdds(t0: Tables, t: Tables, keeper: int, duplicate: int, handled: set<int>)
    requires keeper in t.posts && duplicate in t.posts && keeper != duplicate && duplicate !in t.occasions
    requires PostsMid(t0.posts, t.posts, t.occasions, keeper, handled)
    ensures |Added(t0.posts, EventMerged(t, keeper, duplicate).posts)|
         == |Added(t0.posts, t.posts)| + |Merged(t.posts[keeper].media, t.posts[duplicate].media)|
            - |t.posts[keeper].media|
  {
    EventPostsAre(t.posts, keeper, duplicate);
    assert Grown(t0.posts, t.posts) && t.posts[duplicate].media == t0.posts[duplicate].media;
    hide EventPosts, Merged, Added, PostsMid, PostReassigned;
    MergingAdds(t0.posts, t.posts, EventPosts(t.posts, keeper, duplicate), keeper, duplicate);
  }

  lemma MergedOne(posts: Posts, keeper: int, duplicate: int)
    requires keeper in posts && duplicate in posts
    ensures MergedAll(posts[keeper].media, MediaOf(posts, [duplicate]))
         == Merged(posts[keeper].media, posts[duplicate].media)
  {
    assert MediaOf(posts, [duplicate]) == [posts[duplicate].media];
    assert [posts[duplicate].media][..0] == [];
  }

  lemma CollapsedOne(
      t0: Tables, t: Tables, keeper: int, duplicate: int, handled: set<int>, byAnchor: map<int, int>, lossless: bool)
    requires Mid(t0, t, keeper, duplicate, handled, byAnchor, lossless) && Integrity(t0)
    requires AllHandled(t0, keeper, duplicate, handled)
    requires keeper in t0.events && duplicate in t0.events && keeper != duplicate
    requires lossless ==> NoCollision(t.links, keeper, duplicate)
    ensures keeper in t.posts && duplicate in t.posts
    ensures var merged := MergedAndDeleted(PostReassigned(t, keeper, duplicate), keeper, duplicate);
      merged.Ok? ==>
        && Collapsed(t0, merged.value, keeper, [duplicate], lossless)
        && |Added(t0.posts, merged.value.posts)|
           == |Added(t0.posts, t.posts)| + |Merged(t.posts[keeper].media, t.posts[duplicate].media)|
              - |t.posts[keeper].media|
        && MergedAway(t0, merged.value, AllTo(keeper, [duplicate])) == GoneOf(t.occasions, handled)
  {
    hide *;
    MidParts(t0, t, keeper, duplicate, handled, byAnchor, lossless);
    EventHasNoOccasion(t, keeper);
    EventHasNoOccasion(t, duplicate);
    EventHasNoOccasion(t0, duplicate);
    FinishShape(t, keeper, duplicate, lossless);
    KeysStay(t, keeper, duplicate);
    var merged := MergedAndDeleted(PostReassigned(t, keeper, duplicate), keeper, duplicate);
    if merged.Ok? {
      FinishRsvps(t0, t, keeper, duplicate, handled);
      FinishOccasions(t0, t, keeper, duplicate, handled, byAnchor);
      FinishLinks(t0, t, keeper, duplicate, handled, lossless);
      FinishPosts(t0, t, keeper, duplicate, handled);
      FinishAdds(t0, t, keeper, duplicate, handled);
      FinishDates(t0, t, keeper, duplicate, handled);
      FinishGone(t0, t, keeper, duplicate, handled);
      FinishMedia(t0, t, keeper, duplicate, handled);
      FinishAll(t0, merged.value, keeper, duplicate, lossless);
    }
  }

  lemma MidParts(
      t0: Tables, t: Tables, keeper: int, duplicate: int, handled: set<int>, byAnchor: map<int, int>, lossless: bool)
    requires Mid(t0, t, keeper, duplicate, handled, byAnchor, lossless) && Integrity(t0)
    ensures OccasionsRefer(t0.posts, t0.events, t0.occasions) && RsvpsRefer(t0.occasions, t0.rsvps)
    ensures PostsRefer(t0.posts)
    ensures Integrity(t) && t.events == t0.events && handled <= t0.posts.Keys
    ensures OccasionsMid(t0.occasions, t.occasions, keeper, duplicate, handled)
    ensures PostsMid(t0.posts, t.posts, t.occasions, keeper, handled)
    ensures RsvpsMid(t0.posts, t0.rsvps, t.posts, t.occasions, t.rsvps, keeper, handled)
    ensures LinksMid(t0.posts, t0.links, t.posts, t.occasions, t.links, keeper, handled, lossless)
    ensures AnchorsMid(t0.posts, t.posts, t.occasions, keeper, handled, byAnchor)
    ensures DatesMid(t0.posts, t0.occasions, t.occasions, keeper, handled)
    ensures MediaMid(t0.posts, t.posts, t.occasions, keeper, handled)
  {
    hide OccasionsMid, PostsMid, RsvpsMid, LinksMid, AnchorsMid, DatesMid, MediaMid, OccasionsRefer, RsvpsRefer,
         PostsRefer, LinksRefer, Unique, Separate;
  }

  lemma OneKeepsFirst(t0: Tables, t: Tables, keeper: int, duplicate: int)
    requires DatesMerged(t0, t, Single(keeper, duplicate))
    ensures FirstKeeps(t0, t, Single(keeper, duplicate), [duplicate])
  {
    forall d ensures !ComesBefore([duplicate], d, duplicate) {
    }
    hide HasDate, ComesBefore;
  }

  lemma FinishAll(t0: Tables, t': Tables, keeper: int, duplicate: int, lossless: bool)
    requires Integrity(t') && t'.events == t0.events - {duplicate}
    requires RsvpsKept(t0, t', Single(keeper, duplicate)) && OccasionsKept(t0, t', Single(keeper, duplicate))
    requires LinksKept(t0, t', Single(keeper, duplicate), lossless) && PostsKept(t0, t', Single(keeper, duplicate))
    requires DatesMerged(t0, t', Single(keeper, duplicate)) && MediaSupplied(t0, t', Single(keeper, duplicate))
    requires MediaMergedAll(t0.posts, t'.posts, keeper, [duplicate])
    ensures Collapsed(t0, t', keeper, [duplicate], lossless)
  {
    SingleIs(keeper, duplicate);
    OneKeepsFirst(t0, t', keeper, duplicate);
    assert Single(keeper, duplicate).Keys == {duplicate};
    hide FirstKeeps, Integrity, RsvpsKept, OccasionsKept, LinksKept, PostsKept, DatesMerged, MediaSupplied,
         MediaMergedAll;
  }
}
