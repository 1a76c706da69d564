/** Collapsing one duplicate event into its keeper: what every statement and the whole of it keep. The building blocks
    are functions of the tables; `Mid` is the invariant of the loop over the duplicate's occasions, with those dealt
    with in `handled`. An occasion is adopted, if the keeper has none for its anchor, or merged into the keeper's;
    either keeps the invariant, clause by clause. */
module EventCollapse {
  import opened Wrappers
  import opened EventTables

  // ----- The building blocks, as functions of the tables -----

  /** `reassign_or_drop_composite`: move the rows, or drop all of them where one collides. */
  function Recombined(links: Links, relation: Relation, from: int, to: int): Links {
    if Collides(links, relation, from, to) then WithoutLinks(links, relation, from)
    else MovedLinks(links, relation, from, to)
  }

  function OccasionReassigned(t: Tables, keeper: int, duplicate: int): Tables {
    t.(rsvps := MovedRsvps(t.rsvps, duplicate, keeper),
       links := Recombined(t.links, OccasionDestinations, duplicate, keeper))
  }

  function PostReassigned(t: Tables, keeper: int, duplicate: int): Tables {
    var one := Recombined(t.links, GroupPosts, duplicate, keeper);
    var two := Recombined(one, UserPosts, duplicate, keeper);
    t.(posts := MovedReplies(t.posts, duplicate, keeper),
       links := Recombined(two, PostDestinations, duplicate, keeper))
  }

  function MediaMerged(posts: Posts, keeper: int, duplicate: int): Posts
    requires keeper in posts && duplicate in posts
  {
    posts[keeper := posts[keeper].(media := Merged(posts[keeper].media, posts[duplicate].media))]
  }

  function MergedAndDeleted(t: Tables, keeper: int, duplicate: int): QueryResult<Tables>
    requires keeper in t.posts && duplicate in t.posts
  {
    DeletePost(t.(posts := MediaMerged(t.posts, keeper, duplicate)), duplicate)
  }

  // ----- Composite relations -----

  /** The rows a move can lose are those of a colliding post. */
  lemma RecombinedRows(links: Links, relation: Relation, from: int, to: int)
    requires from != to
    ensures var links' := Recombined(links, relation, from, to);
      && RowsOn(links', relation, from) == {}
      && (forall row <- links' :: row in links && links'[row].other == links[row].other)
      && (forall row <- links :: !IsOn(links, row, relation, from) ==> row in links' && links'[row] == links[row])
      && (forall row <- links' :: IsOn(links, row, relation, from) ==> links'[row].post == to)
      && (!Collides(links, relation, from, to) ==> forall row <- links :: row in links')
  {
  }

  lemma RecombinedUnique(links: Links, relation: Relation, from: int, to: int)
    requires Unique(links) && from != to
    ensures Unique(Recombined(links, relation, from, to))
  {
    if Collides(links, relation, from, to) {
    } else {
      MoveLinksUniqueIff(links, relation, from, to);
    }
  }

  lemma RecombinedRefer(posts: Posts, occasions: Occasions, links: Links, relation: Relation, from: int, to: int)
    requires LinksRefer(posts, occasions, links) && to in posts
    requires relation == OccasionDestinations ==> to in occasions
    ensures LinksRefer(posts, occasions, Recombined(links, relation, from, to))
  {
  }

  // ----- Between two occasions of a duplicate -----

  /** The dates of the duplicate that have been dealt with are in `handled`; those of `t0` are the original ones. */
  ghost predicate OccasionsMid(before: Occasions, now: Occasions, keeper: int, duplicate: int, handled: set<int>) {
    && (forall o <- now :: o in before)
    && (forall o <- before :: o !in handled ==> o in now && now[o] == before[o])
    && (forall o <- handled :: o in before && before[o] == duplicate && (o in now ==> now[o] == keeper))
  }

  function ParentLeft(posts: Posts, parent: Option<int>): Option<int> {
    if parent.Some? && parent.value in posts then parent else None
  }

  ghost predicate PostsMid(before: Posts, now: Posts, occasions: Occasions, keeper: int, handled: set<int>) {
    && (forall p <- now ::
          && p in before && now[p].anchor == before[p].anchor && now[p].synced == before[p].synced
          && now[p].parent == ParentLeft(now, before[p].parent)
          && Extends(before[p].media, now[p].media))
    && (forall p <- before :: p !in handled ==> p in now)
    && (forall o <- handled :: o in before && (o in now <==> o in occasions))
    && (forall p <- now :: !(p in occasions && occasions[p] == keeper) ==> now[p].media == before[p].media)
  }

  /** A live occasion of the keeper with the given anchor. */
  ghost predicate KeepsDate(posts: Posts, occasions: Occasions, keeper: int, anchor: Option<int>, o: int) {
    o in occasions && occasions[o] == keeper && o in posts && posts[o].anchor == anchor
  }

  ghost predicate HasMedia(posts: Posts, p: int, media: seq<MediaRef>) {
    p in posts && forall m <- media :: m in posts[p].media
  }

  ghost predicate RsvpsMid(
      posts: Posts, rsvps: Rsvps, posts': Posts, occasions': Occasions, rsvps': Rsvps, keeper: int, handled: set<int>)
    requires handled <= posts.Keys
  {
    && rsvps'.Keys == rsvps.Keys
    && (forall r <- rsvps :: rsvps[r] !in handled ==> rsvps'[r] == rsvps[r])
    && (forall r <- rsvps ::
          rsvps[r] in handled ==> KeepsDate(posts', occasions', keeper, posts[rsvps[r]].anchor, rsvps'[r]))
  }

  /** Only sync-out rows of handled occasions move; cross-posts of merged ones go with their post, and what has records
      of its own is not merged. */
  ghost predicate LinksMid(
      posts: Posts, links: Links, posts': Posts, occasions': Occasions, links': Links, keeper: int, handled: set<int>,
      lossless: bool)
    requires handled <= posts.Keys
  {
    && (forall row <- links' :: row in links && links'[row].other == links[row].other)
    && (forall row <- links :: RowMid(posts, links, posts', occasions', links', keeper, handled, lossless, row))
  }

  ghost predicate RowMid(
      posts: Posts, links: Links, posts': Posts, occasions': Occasions, links': Links, keeper: int, handled: set<int>,
      lossless: bool, row: Row)
    requires handled <= posts.Keys && row in links
  {
    var p := links[row].post;
    if p !in handled then
      row in links' && links'[row] == links[row]
    else if row.relation == OccasionDestinations then
      && (row in links' ==> KeepsDate(posts', occasions', keeper, posts[p].anchor, links'[row].post))
      && (lossless ==> row in links')
    else
      && (row in links' ==> links'[row] == links[row])
      && (row in links' <==> p in posts')
      && (row.relation == PostDestinations ==> row in links')
  }

  /** `keeper_by_anchor`: a live occasion of the keeper for each of its anchors, and for those handled, the media of
      which it has. */
  ghost predicate AnchorsMid(
      before: Posts, posts: Posts, occasions: Occasions, keeper: int, handled: set<int>, byAnchor: map<int, int>)
    requires handled <= before.Keys
  {
    && (forall a <- byAnchor :: KeepsDate(posts, occasions, keeper, Some(a), byAnchor[a]))
    && (forall o <- occasions :: occasions[o] == keeper && o in posts && posts[o].anchor.Some? ==>
          posts[o].anchor.value in byAnchor)
    && (forall o <- handled ::
          && before[o].anchor.Some? && before[o].anchor.value in byAnchor
          && HasMedia(posts, byAnchor[before[o].anchor.value], before[o].media))
  }

  /** The event has an occasion with the anchor. */
  ghost predicate HasDate(posts: Posts, occasions: Occasions, event: int, anchor: Option<int>) {
    exists o <- occasions :: KeepsDate(posts, occasions, event, anchor, o)
  }

  /** A handled occasion is left only if the keeper had none for its anchor, and only one for each anchor. */
  ghost predicate DatesMid(posts: Posts, before: Occasions, now: Occasions, keeper: int, handled: set<int>)
    requires handled <= posts.Keys
  {
    && (forall o <- handled :: o in now ==> !HasDate(posts, before, keeper, posts[o].anchor))
    && (forall o <- handled, p <- handled :: o in now && p in now && posts[o].anchor == posts[p].anchor ==> o == p)
  }

  /** The handled occasions that have been merged. */
  function GoneOf(occasions: Occasions, handled: set<int>): set<int> {
    set o <- handled | o !in occasions
  }

  lemma OneMoreGone(occasions: Occasions, handled: set<int>, o: int, keeper: int)
    requires o in occasions && o !in handled
    ensures |GoneOf(occasions - {o}, handled + {o})| == |GoneOf(occasions, handled)| + 1
    ensures GoneOf(occasions[o := keeper], handled + {o}) == GoneOf(occasions, handled)
  {
    assert GoneOf(occasions - {o}, handled + {o}) == GoneOf(occasions, handled) + {o};
  }

  /** A handled occasion for the anchor has the medium. */
  ghost predicate Brings(posts: Posts, handled: set<int>, anchor: Option<int>, m: MediaRef) {
    exists o <- handled :: o in posts && posts[o].anchor == anchor && m in posts[o].media
  }

  /** All the keeper's occasions get is the media of handled ones for the same anchor. */
  ghost predicate MediaMid(before: Posts, now: Posts, occasions: Occasions, keeper: int, handled: set<int>) {
    forall p <- now :: p in before && p in occasions && occasions[p] == keeper ==>
      forall m <- now[p].media :: m in before[p].media || Brings(before, handled, before[p].anchor, m)
  }

  ghost predicate Mid(
      t0: Tables, t: Tables, keeper: int, duplicate: int, handled: set<int>, byAnchor: map<int, int>, lossless: bool)
  {
    && Integrity(t)
    && t.events == t0.events
    && handled <= t0.posts.Keys
    && OccasionsMid(t0.occasions, t.occasions, keeper, duplicate, handled)
    && PostsMid(t0.posts, t.posts, t.occasions, keeper, handled)
    && RsvpsMid(t0.posts, t0.rsvps, t.posts, t.occasions, t.rsvps, keeper, handled)
    && LinksMid(t0.posts, t0.links, t.posts, t.occasions, t.links, keeper, handled, lossless)
    && AnchorsMid(t0.posts, t.posts, t.occasions, keeper, handled, byAnchor)
    && DatesMid(t0.posts, t0.occasions, t.occasions, keeper, handled)
    && MediaMid(t0.posts, t.posts, t.occasions, keeper, handled)
  }

  // ----- Adopting an occasion -----

  lemma AdoptPosts(before: Posts, now: Posts, occasions: Occasions, keeper: int, handled: set<int>, o: int)
    requires PostsMid(before, now, occasions, keeper, handled) && o in before && o in now
    ensures PostsMid(before, now, occasions[o := keeper], keeper, handled + {o})
  {
  }

  lemma AdoptRsvps(
      before: Posts, rsvps: Rsvps, posts: Posts, occasions: Occasions, rsvps': Rsvps, keeper: int, handled: set<int>,
      o: int)
    requires handled <= before.Keys && o in before && o !in handled && o in posts
    requires posts[o].anchor == before[o].anchor
    requires RsvpsMid(before, rsvps, posts, occasions, rsvps', keeper, handled)
    ensures RsvpsMid(before, rsvps, posts, occasions[o := keeper], rsvps', keeper, handled + {o})
  {
  }

  lemma AdoptLinks(
      before: Posts, links: Links, posts: Posts, occasions: Occasions, links': Links, keeper: int, handled: set<int>,
      lossless: bool, o: int)
    requires handled <= before.Keys && o in before && o !in handled && o in posts
    requires posts[o].anchor == before[o].anchor
    requires LinksMid(before, links, posts, occasions, links', keeper, handled, lossless)
    ensures LinksMid(before, links, posts, occasions[o := keeper], links', keeper, handled + {o}, lossless)
  {
  }

  lemma AdoptAnchors(
      before: Posts, posts: Posts, occasions: Occasions, keeper: int, handled: set<int>, byAnchor: map<int, int>,
      o: int, anchor: int)
    requires handled <= before.Keys && o in before && o in posts && o in occasions
    requires posts[o].anchor == before[o].anchor == Some(anchor) && anchor !in byAnchor
    requires posts[o].media == before[o].media
    requires AnchorsMid(before, posts, occasions, keeper, handled, byAnchor)
    ensures AnchorsMid(before, posts, occasions[o := keeper], keeper, handled + {o}, byAnchor[anchor := o])
  {
  }

  lemma AdoptDates(
      t0: Tables, t: Tables, keeper: int, duplicate: int, handled: set<int>, byAnchor: map<int, int>,
      o: int, anchor: int)
    requires handled <= t0.posts.Keys && keeper != duplicate && o in t0.posts && t0.posts[o].anchor == Some(anchor)
    requires OccasionsMid(t0.occasions, t.occasions, keeper, duplicate, handled)
    requires PostsMid(t0.posts, t.posts, t.occasions, keeper, handled)
    requires AnchorsMid(t0.posts, t.posts, t.occasions, keeper, handled, byAnchor) && anchor !in byAnchor
    requires DatesMid(t0.posts, t0.occasions, t.occasions, keeper, handled)
    ensures DatesMid(t0.posts, t0.occasions, t.occasions[o := keeper], keeper, handled + {o})
  {
    forall x <- t0.occasions ensures !KeepsDate(t0.posts, t0.occasions, keeper, Some(anchor), x) {
      NotIndexed(t0, t, keeper, duplicate, handled, byAnchor, x, anchor);
    }
    forall p <- handled ensures !(p in t.occasions && t0.posts[p].anchor == Some(anchor)) {
      assert p in t.occasions ==> t.occasions[p] == keeper && p in t.posts && t.posts[p].anchor == t0.posts[p].anchor;
      hide DatesMid, Extends, ParentLeft;
    }
    hide OccasionsMid, PostsMid, AnchorsMid, KeepsDate;
  }

  /** What is not in `keeper_by_anchor` is no date of the keeper's. */
  lemma NotIndexed(
      t0: Tables, t: Tables, keeper: int, duplicate: int, handled: set<int>, byAnchor: map<int, int>,
      x: int, anchor: int)
    requires handled <= t0.posts.Keys && keeper != duplicate
    requires OccasionsMid(t0.occasions, t.occasions, keeper, duplicate, handled)
    requires PostsMid(t0.posts, t.posts, t.occasions, keeper, handled)
    requires AnchorsMid(t0.posts, t.posts, t.occasions, keeper, handled, byAnchor) && anchor !in byAnchor
    ensures !KeepsDate(t0.posts, t0.occasions, keeper, Some(anchor), x)
  {
    assert x in t0.occasions && t0.occasions[x] == keeper ==> x in t.occasions && t.occasions[x] == keeper;
    assert x in t0.posts && x !in handled ==> x in t.posts && t.posts[x].anchor == t0.posts[x].anchor;
    hide PostsMid, OccasionsMid;
  }

  lemma AdoptMedia(before: Posts, now: Posts, occasions: Occasions, keeper: int, handled: set<int>, o: int)
    requires MediaMid(before, now, occasions, keeper, handled)
    requires o in now && o in before && now[o].media == before[o].media
    ensures MediaMid(before, now, occasions[o := keeper], keeper, handled + {o})
  {
    forall anchor, m | Brings(before, handled, anchor, m) ensures Brings(before, handled + {o}, anchor, m) {
      BringsMore(before, handled, o, anchor, m);
    }
    hide Brings;
  }

  lemma BringsMore(posts: Posts, handled: set<int>, o: int, anchor: Option<int>, m: MediaRef)
    requires Brings(posts, handled, anchor, m) || (o in posts && posts[o].anchor == anchor && m in posts[o].media)
    ensures Brings(posts, handled + {o}, anchor, m)
  {
    if Brings(posts, handled, anchor, m) {
      var x :| x in handled && x in posts && posts[x].anchor == anchor && m in posts[x].media;
      assert x in handled + {o};
    } else {
      assert o in handled + {o};
    }
  }

  lemma AdoptIntegrity(t: Tables, o: int, keeper: int)
    requires Integrity(t) && o in t.occasions && keeper in t.events
    ensures Integrity(t.(occasions := t.occasions[o := keeper]))
  {
    hide Unique;
  }

  lemma Adopt(
      t0: Tables, t: Tables, keeper: int, duplicate: int, handled: set<int>, byAnchor: map<int, int>, lossless: bool,
      o: int, anchor: int)
    requires Mid(t0, t, keeper, duplicate, handled, byAnchor, lossless) && Integrity(t0)
    requires keeper in t.events && keeper != duplicate
    requires o in t0.occasions && t0.occasions[o] == duplicate && o !in handled
    requires o in t0.posts && t0.posts[o].anchor == Some(anchor) && anchor !in byAnchor
    ensures Mid(t0, t.(occasions := t.occasions[o := keeper]), keeper, duplicate,
                handled + {o}, byAnchor[anchor := o], lossless)
    ensures GoneOf(t.occasions[o := keeper], handled + {o}) == GoneOf(t.occasions, handled)
  {
    OneMoreGone(t.occasions, handled, o, keeper);
    Untouched(t0, t, keeper, duplicate, handled, o);
    UntouchedPost(t0, t, keeper, handled, o);
    hide Integrity, OccasionsMid, PostsMid, RsvpsMid, LinksMid, AnchorsMid, DatesMid, MediaMid;
    AdoptIntegrity(t, o, keeper);
    AdoptOccasions(t0.occasions, t.occasions, keeper, duplicate, handled, o);
    AdoptPosts(t0.posts, t.posts, t.occasions, keeper, handled, o);
    AdoptRsvps(t0.posts, t0.rsvps, t.posts, t.occasions, t.rsvps, keeper, handled, o);
    AdoptLinks(t0.posts, t0.links, t.posts, t.occasions, t.links, keeper, handled, lossless, o);
    AdoptAnchors(t0.posts, t.posts, t.occasions, keeper, handled, byAnchor, o, anchor);
    AdoptDates(t0, t, keeper, duplicate, handled, byAnchor, o, anchor);
    AdoptMedia(t0.posts, t.posts, t.occasions, keeper, handled, o);
  }

  lemma AdoptOccasions(before: Occasions, now: Occasions, keeper: int, duplicate: int, handled: set<int>, o: int)
    requires OccasionsMid(before, now, keeper, duplicate, handled)
    requires o in before && before[o] == duplicate && o in now
    ensures OccasionsMid(before, now[o := keeper], keeper, duplicate, handled + {o})
  {
  }

  lemma UntouchedPost(t0: Tables, t: Tables, keeper: int, handled: set<int>, o: int)
    requires PostsMid(t0.posts, t.posts, t.occasions, keeper, handled)
    requires o in t0.posts && o !in handled
    ensures o in t.posts && t.posts[o].anchor == t0.posts[o].anchor
    ensures !(o in t.occasions && t.occasions[o] == keeper) ==> t.posts[o].media == t0.posts[o].media
  {
  }

  lemma Untouched(t0: Tables, t: Tables, keeper: int, duplicate: int, handled: set<int>, o: int)
    requires OccasionsMid(t0.occasions, t.occasions, keeper, duplicate, handled)
    requires o in t0.occasions && o !in handled
    ensures o in t.occasions && t.occasions[o] == t0.occasions[o]
  {
  }

  // ----- Merging an occasion into the keeper's -----

  /** What the merging of an occasion comes to, where nothing stops it. */
  function OccasionMerged(t: Tables, keeper: int, duplicate: int): Tables
    requires keeper in t.posts && duplicate in t.posts
  {
    Tables(MergedPosts(t.posts, keeper, duplicate), t.events, t.occasions - {duplicate},
           MovedRsvps(t.rsvps, duplicate, keeper),
           WithoutPostLinks(Recombined(t.links, OccasionDestinations, duplicate, keeper), duplicate))
  }

  lemma MergeIntegrity(t: Tables, keeper: int, duplicate: int)
    requires Integrity(t) && keeper in t.occasions && duplicate in t.occasions && keeper != duplicate
    ensures keeper in t.posts && duplicate in t.posts
    ensures Integrity(OccasionReassigned(t, keeper, duplicate).(posts := MediaMerged(t.posts, keeper, duplicate)))
  {
    RecombinedUnique(t.links, OccasionDestinations, duplicate, keeper);
    RecombinedRefer(t.posts, t.occasions, t.links, OccasionDestinations, duplicate, keeper);
    hide Recombined, Unique, Merged;
  }

  lemma MergeEquals(t: Tables, keeper: int, duplicate: int)
    requires Integrity(t) && duplicate in t.occasions && keeper != duplicate
    requires keeper in t.posts && duplicate in t.posts
    requires CascadedOccasions(t.occasions, duplicate) == {duplicate}
    ensures var t2 := OccasionReassigned(t, keeper, duplicate).(posts := MediaMerged(t.posts, keeper, duplicate));
      Deleted(t2, duplicate) == OccasionMerged(t, keeper, duplicate)
  {
    Standalone(t, duplicate);
    hide Integrity, CascadedOccasions, WithoutPost, MediaMerged, WithoutPostLinks, Recombined;
    assert WithoutRsvps(MovedRsvps(t.rsvps, duplicate, keeper), {duplicate}) == MovedRsvps(t.rsvps, duplicate, keeper);
    assert t.events - {duplicate} == t.events;
  }

  lemma MergeShape(t: Tables, keeper: int, duplicate: int)
    requires Integrity(t)
    requires keeper in t.occasions && duplicate in t.occasions && keeper != duplicate
    ensures keeper in t.posts && duplicate in t.posts
    ensures var merged := MergedAndDeleted(OccasionReassigned(t, keeper, duplicate), keeper, duplicate);
      merged.Ok? ==>
        && merged.value == OccasionMerged(t, keeper, duplicate)
        && Integrity(merged.value)
        && forall row <- t.links :: !IsOn(t.links, row, PostDestinations, duplicate)
  {
    var t2 := OccasionReassigned(t, keeper, duplicate).(posts := MediaMerged(t.posts, keeper, duplicate));
    assert CascadedOccasions(t.occasions, duplicate) == {duplicate} by {
      hide Unique, PostsRefer, RsvpsRefer, LinksRefer;
    }
    MergeIntegrity(t, keeper, duplicate);
    hide Integrity, MediaMerged, Deleted, OccasionMerged;
    if !Restricted(t2, duplicate) {
      DeleteKeepsIntegrity(t2, duplicate);
      MergeEquals(t, keeper, duplicate);
      RecombinedRows(t.links, OccasionDestinations, duplicate, keeper);
      hide Recombined, CascadedOccasions;
      forall row <- t.links ensures !IsOn(t.links, row, PostDestinations, duplicate) {
        assert !IsOn(t2.links, row, PostDestinations, duplicate);
      }
    }
  }

  lemma Standalone(t: Tables, o: int)
    requires Integrity(t) && o in t.occasions
    ensures o !in t.events
  {
  }

  /** The keeper's dates outlive the merging of another occasion. */
  lemma MergeKeepsDate(t: Tables, keeper: int, ko: int, o: int, anchor: Option<int>, date: int)
    requires ko in t.posts && o in t.posts && ko != o && date != o
    requires KeepsDate(t.posts, t.occasions, keeper, anchor, date)
    ensures var t' := OccasionMerged(t, ko, o); KeepsDate(t'.posts, t'.occasions, keeper, anchor, date)
  {
    hide Recombined, Merged;
  }

  function MergedPosts(posts: Posts, keeper: int, duplicate: int): Posts
    requires keeper in posts && duplicate in posts
  {
    WithoutPost(MediaMerged(posts, keeper, duplicate), duplicate)
  }

  lemma MergedPostsAre(posts: Posts, ko: int, o: int)
    requires ko in posts && o in posts && ko != o
    ensures var posts' := MergedPosts(posts, ko, o);
      && (forall p :: p in posts' <==> p in posts && p != o)
      && (forall p <- posts' ::
            && posts'[p].anchor == posts[p].anchor && posts'[p].synced == posts[p].synced
            && posts'[p].parent == (if posts[p].parent == Some(o) then None else posts[p].parent)
            && (p != ko ==> posts'[p].media == posts[p].media))
      && posts'[ko].media == Merged(posts[ko].media, posts[o].media)
  {
    hide Merged;
  }

  lemma MergePosts(before: Posts, now: Posts, occasions: Occasions, keeper: int, handled: set<int>, ko: int, o: int)
    requires PostsMid(before, now, occasions, keeper, handled) && PostsRefer(before)
    requires ko in now && o in now && ko != o && o !in handled && o in before
    requires ko in occasions && occasions[ko] == keeper
    ensures PostsMid(before, MergedPosts(now, ko, o), occasions - {o}, keeper, handled + {o})
  {
    MergedPostsAre(now, ko, o);
    ExtendsTrans(before[ko].media, now[ko].media, Merged(now[ko].media, now[o].media));
    hide MergedPosts, Merged, Extends, PostsRefer;
  }

  lemma MergeAdds(before: Posts, now: Posts, occasions: Occasions, keeper: int, handled: set<int>, ko: int, o: int)
    requires PostsMid(before, now, occasions, keeper, handled)
    requires ko in now && o in now && ko != o && o in before && now[o].media == before[o].media
    ensures |Added(before, MergedPosts(now, ko, o))|
         == |Added(before, now)| + |Merged(now[ko].media, now[o].media)| - |now[ko].media|
  {
    MergedPostsAre(now, ko, o);
    assert Grown(before, now);
    hide MergedPosts, Merged, Added, PostsMid;
    MergingAdds(before, now, MergedPosts(now, ko, o), ko, o);
  }

  lemma MergeRsvps(
      before: Posts, rsvps: Rsvps, t: Tables, keeper: int, duplicate: int, handled: set<int>, ko: int, o: int)
    requires handled <= before.Keys && o in before && o !in handled
    requires RsvpsMid(before, rsvps, t.posts, t.occasions, t.rsvps, keeper, handled)
    requires ko in t.posts && o in t.posts && ko != o
    requires o in t.occasions && t.occasions[o] == duplicate && keeper != duplicate
    requires KeepsDate(t.posts, t.occasions, keeper, before[o].anchor, ko)
    ensures var t' := OccasionMerged(t, ko, o);
      RsvpsMid(before, rsvps, t'.posts, t'.occasions, t'.rsvps, keeper, handled + {o})
  {
    var t' := OccasionMerged(t, ko, o);
    forall r <- rsvps | rsvps[r] in handled + {o}
      ensures KeepsDate(t'.posts, t'.occasions, keeper, before[rsvps[r]].anchor, t'.rsvps[r])
    {
      var date := if rsvps[r] == o then ko else t.rsvps[r];
      assert KeepsDate(t.posts, t.occasions, keeper, before[rsvps[r]].anchor, date);
      hide KeepsDate;
      assert date != o by {
        DateIsNot(t, keeper, before[rsvps[r]].anchor, date, o);
      }
      MergeKeepsDate(t, keeper, ko, o, before[rsvps[r]].anchor, date);
    }
    hide KeepsDate, Recombined, MediaMerged;
  }

  lemma DateIsNot(t: Tables, keeper: int, anchor: Option<int>, date: int, o: int)
    requires KeepsDate(t.posts, t.occasions, keeper, anchor, date)
    requires o in t.occasions && t.occasions[o] != keeper
    ensures date != o
  {
  }

  /** What becomes of each row. */
  lemma MergedRows(links: Links, ko: int, o: int)
    requires ko != o && forall row <- links :: !IsOn(links, row, PostDestinations, o)
    ensures var links' := WithoutPostLinks(Recombined(links, OccasionDestinations, o, ko), o);
      && (forall row <- links' :: row in links && links'[row].other == links[row].other)
      && (forall row <- links :: links[row].post != o ==> row in links' && links'[row] == links[row])
      && (forall row <- links :: links[row].post == o && row in links' ==>
            row.relation == OccasionDestinations && links'[row].post == ko)
      && (!Collides(links, OccasionDestinations, o, ko) ==>
            forall row <- links :: IsOn(links, row, OccasionDestinations, o) ==> row in links')
  {
    RecombinedRows(links, OccasionDestinations, o, ko);
    hide Recombined, Collides;
    forall row <- links | links[row].post == o
      ensures row.relation != PostDestinations
    {
      assert !IsOn(links, row, PostDestinations, o);
    }
  }

  lemma MergeRow(
      before: Posts, links: Links, t: Tables, keeper: int, duplicate: int, handled: set<int>, lossless: bool,
      ko: int, o: int, row: Row)
    requires handled <= before.Keys && o in before && o !in handled && row in links
    requires RowMid(before, links, t.posts, t.occasions, t.links, keeper, handled, lossless, row)
    requires ko in t.posts && o in t.posts && ko != o
    requires o in t.occasions && t.occasions[o] == duplicate && keeper != duplicate
    requires KeepsDate(t.posts, t.occasions, keeper, before[o].anchor, ko)
    requires forall row <- t.links :: !IsOn(t.links, row, PostDestinations, o)
    requires lossless ==> !Collides(t.links, OccasionDestinations, o, ko)
    ensures var t' := OccasionMerged(t, ko, o);
      RowMid(before, links, t'.posts, t'.occasions, t'.links, keeper, handled + {o}, lossless, row)
  {
    MergedRows(t.links, ko, o);
    MergedPostsAre(t.posts, ko, o);
    hide Recombined, MergedPosts, Collides, WithoutPostLinks, MovedRsvps, KeepsDate;
    var p := links[row].post;
    if p in handled + {o} && row.relation == OccasionDestinations && row in t.links {
      var date := if p == o then ko else t.links[row].post;
      assert KeepsDate(t.posts, t.occasions, keeper, before[p].anchor, date);
      DateIsNot(t, keeper, before[p].anchor, date, o);
      MergeKeepsDate(t, keeper, ko, o, before[p].anchor, date);
    }
  }

  lemma MergeLinks(
      before: Posts, links: Links, t: Tables, keeper: int, duplicate: int, handled: set<int>, lossless: bool,
      ko: int, o: int)
    requires handled <= before.Keys && o in before && o !in handled
    requires LinksMid(before, links, t.posts, t.occasions, t.links, keeper, handled, lossless)
    requires ko in t.posts && o in t.posts && ko != o
    requires o in t.occasions && t.occasions[o] == duplicate && keeper != duplicate
    requires KeepsDate(t.posts, t.occasions, keeper, before[o].anchor, ko)
    requires forall row <- t.links :: !IsOn(t.links, row, PostDestinations, o)
    requires lossless ==> !Collides(t.links, OccasionDestinations, o, ko)
    ensures var t' := OccasionMerged(t, ko, o);
      LinksMid(before, links, t'.posts, t'.occasions, t'.links, keeper, handled + {o}, lossless)
  {
    var t' := OccasionMerged(t, ko, o);
    MergedRows(t.links, ko, o);
    hide RowMid, KeepsDate, Recombined, MergedPosts, Collides, WithoutPostLinks, MovedRsvps;
    forall row <- links
      ensures RowMid(before, links, t'.posts, t'.occasions, t'.links, keeper, handled + {o}, lossless, row)
    {
      MergeRow(before, links, t, keeper, duplicate, handled, lossless, ko, o, row);
    }
  }

  lemma MergeOccasions(before: Occasions, now: Occasions, keeper: int, duplicate: int, handled: set<int>, o: int)
    requires OccasionsMid(before, now, keeper, duplicate, handled)
    requires o in before && before[o] == duplicate
    ensures OccasionsMid(before, now - {o}, keeper, duplicate, handled + {o})
  {
  }

  lemma MergeAnchors(
      before: Posts, t: Tables, keeper: int, duplicate: int, handled: set<int>, byAnchor: map<int, int>,
      ko: int, o: int, anchor: int)
    requires handled <= before.Keys && o in before && before[o].anchor == Some(anchor)
    requires AnchorsMid(before, t.posts, t.occasions, keeper, handled, byAnchor)
    requires anchor in byAnchor && ko == byAnchor[anchor] && ko in t.posts && o in t.posts && ko != o
    requires t.posts[o].media == before[o].media
    requires o in t.occasions && t.occasions[o] == duplicate && keeper != duplicate
    ensures var t' := OccasionMerged(t, ko, o);
      AnchorsMid(before, t'.posts, t'.occasions, keeper, handled + {o}, byAnchor)
  {
    hide OccasionMerged, MergedPosts, Merged, KeepsDate;
    var t' := OccasionMerged(t, ko, o);
    MergedIs(t, ko, o);
    forall a <- byAnchor ensures KeepsDate(t'.posts, t'.occasions, keeper, Some(a), byAnchor[a]) {
      DateIsNot(t, keeper, Some(a), byAnchor[a], o);
      MergeKeepsDate(t, keeper, ko, o, Some(a), byAnchor[a]);
    }
    MergedPostsAre(t.posts, ko, o);
    forall x <- handled + {o}
      ensures HasMedia(t'.posts, byAnchor[before[x].anchor.value], before[x].media)
    {
      var a := before[x].anchor.value;
      DateHasPost(t'.posts, t'.occasions, keeper, Some(a), byAnchor[a]);
    }
    MergedDates(t, keeper, ko, o);
  }

  lemma DateHasPost(posts: Posts, occasions: Occasions, keeper: int, anchor: Option<int>, date: int)
    requires KeepsDate(posts, occasions, keeper, anchor, date)
    ensures date in posts
  {
  }

  lemma MergedDates(t: Tables, keeper: int, ko: int, o: int)
    requires ko in t.posts && o in t.posts && ko != o
    ensures var t' := OccasionMerged(t, ko, o);
      forall p <- t'.occasions :: t'.occasions[p] == keeper && p in t'.posts ==>
        p in t.occasions && t.occasions[p] == keeper && p in t.posts && t'.posts[p].anchor == t.posts[p].anchor
  {
    MergedIs(t, ko, o);
    MergedPostsAre(t.posts, ko, o);
    hide MergedPosts, OccasionMerged;
  }

  lemma MergeDates(posts: Posts, before: Occasions, now: Occasions, keeper: int, handled: set<int>, o: int)
    requires handled <= posts.Keys && o in posts
    requires DatesMid(posts, before, now, keeper, handled)
    ensures DatesMid(posts, before, now - {o}, keeper, handled + {o})
  {
    hide HasDate;
  }

  lemma MergeMedia(
      before: Posts, now: Posts, occasions: Occasions, keeper: int, handled: set<int>, ko: int, o: int)
    requires MediaMid(before, now, occasions, keeper, handled)
    requires ko in now && o in now && ko != o && ko in before && o in before
    requires ko in occasions && occasions[ko] == keeper
    requires now[o].media == before[o].media && before[ko].anchor == before[o].anchor
    ensures MediaMid(before, MergedPosts(now, ko, o), occasions - {o}, keeper, handled + {o})
  {
    var posts' := MergedPosts(now, ko, o);
    MergedPostsAre(now, ko, o);
    hide MergedPosts, Merged, Brings;
    forall p <- posts', m <- posts'[p].media
      | p in before && p in occasions && occasions[p] == keeper && m !in before[p].media
      ensures Brings(before, handled + {o}, before[p].anchor, m)
    {
      assert m in now[p].media ==> Brings(before, handled, before[p].anchor, m);
      BringsMore(before, handled, o, before[p].anchor, m);
    }
  }

  lemma Merge(
      t0: Tables, t: Tables, keeper: int, duplicate: int, handled: set<int>, byAnchor: map<int, int>, lossless: bool,
      o: int, anchor: int)
    requires Mid(t0, t, keeper, duplicate, handled, byAnchor, lossless) && Integrity(t0)
    requires keeper != duplicate
    requires o in t0.occasions && t0.occasions[o] == duplicate && o !in handled
    requires o in t0.posts && t0.posts[o].anchor == Some(anchor) && anchor in byAnchor
    requires lossless ==> !Collides(t.links, OccasionDestinations, o, byAnchor[anchor])
    ensures var ko := byAnchor[anchor];
      && ko in t.posts && o in t.posts
      && var merged := MergedAndDeleted(OccasionReassigned(t, ko, o), ko, o);
         merged.Ok? ==>
           && Mid(t0, merged.value, keeper, duplicate, handled + {o}, byAnchor, lossless)
           && |Added(t0.posts, merged.value.posts)|
              == |Added(t0.posts, t.posts)| + |Merged(t.posts[ko].media, t.posts[o].media)| - |t.posts[ko].media|
           && |GoneOf(merged.value.occasions, handled + {o})| == |GoneOf(t.occasions, handled)| + 1
  {
    hide *;
    MidIs(t0, t, keeper, duplicate, handled, byAnchor, lossless);
    var ko := byAnchor[anchor];
    Untouched(t0, t, keeper, duplicate, handled, o);
    OneMoreGone(t.occasions, handled, o, keeper);
    UntouchedPost(t0, t, keeper, handled, o);
    DateIsKeepers(t0, t, keeper, duplicate, handled, byAnchor, lossless, anchor);
    DateIsNot(t, keeper, Some(anchor), ko, o);
    MergeShape(t, ko, o);
    ParentsThere(t0);
    SamePosts(t, ko, o);
    var merged := MergedAndDeleted(OccasionReassigned(t, ko, o), ko, o);
    if merged.Ok? {
      MergedIs(t, ko, o);
      MergeAdds(t0.posts, t.posts, t.occasions, keeper, handled, ko, o);
      MergeOccasions(t0.occasions, t.occasions, keeper, duplicate, handled, o);
      MergePosts(t0.posts, t.posts, t.occasions, keeper, handled, ko, o);
      MergeRsvps(t0.posts, t0.rsvps, t, keeper, duplicate, handled, ko, o);
      MergeLinks(t0.posts, t0.links, t, keeper, duplicate, handled, lossless, ko, o);
      MergeAnchors(t0.posts, t, keeper, duplicate, handled, byAnchor, ko, o, anchor);
      MergeDates(t0.posts, t0.occasions, t.occasions, keeper, handled, o);
      MergeMedia(t0.posts, t.posts, t.occasions, keeper, handled, ko, o);
      MidIs(t0, merged.value, keeper, duplicate, handled + {o}, byAnchor, lossless);
    }
  }

  lemma MidIs(
      t0: Tables, t: Tables, keeper: int, duplicate: int, handled: set<int>, byAnchor: map<int, int>, lossless: bool)
    requires handled <= t0.posts.Keys || Mid(t0, t, keeper, duplicate, handled, byAnchor, lossless)
    ensures handled <= t0.posts.Keys
    ensures Mid(t0, t, keeper, duplicate, handled, byAnchor, lossless) <==>
      && Integrity(t) && t.events == t0.events
      && OccasionsMid(t0.occasions, t.occasions, keeper, duplicate, handled)
      && PostsMid(t0.posts, t.posts, t.occasions, keeper, handled)
      && RsvpsMid(t0.posts, t0.rsvps, t.posts, t.occasions, t.rsvps, keeper, handled)
      && LinksMid(t0.posts, t0.links, t.posts, t.occasions, t.links, keeper, handled, lossless)
      && AnchorsMid(t0.posts, t.posts, t.occasions, keeper, handled, byAnchor)
      && DatesMid(t0.posts, t0.occasions, t.occasions, keeper, handled)
      && MediaMid(t0.posts, t.posts, t.occasions, keeper, handled)
  {
    hide Integrity, OccasionsMid, PostsMid, RsvpsMid, LinksMid, AnchorsMid, DatesMid, MediaMid;
  }

  lemma ParentsThere(t: Tables)
    requires Integrity(t)
    ensures PostsRefer(t.posts)
  {
  }

  lemma SamePosts(t: Tables, ko: int, o: int)
    ensures OccasionReassigned(t, ko, o).posts == t.posts
  {
  }

  lemma MergedIs(t: Tables, ko: int, o: int)
    requires ko in t.posts && o in t.posts
    ensures var t' := OccasionMerged(t, ko, o);
      t'.posts == MergedPosts(t.posts, ko, o) && t'.events == t.events && t'.occasions == t.occasions - {o}
  {
    hide MergedPosts, MovedRsvps, WithoutPostLinks, Recombined;
  }

  /** The keeper's date for an anchor, as it is and as it was. */
  lemma DateIsKeepers(
      t0: Tables, t: Tables, keeper: int, duplicate: int, handled: set<int>, byAnchor: map<int, int>, lossless: bool,
      anchor: int)
    requires Mid(t0, t, keeper, duplicate, handled, byAnchor, lossless) && anchor in byAnchor
    ensures var ko := byAnchor[anchor];
      && KeepsDate(t.posts, t.occasions, keeper, Some(anchor), ko)
      && ko in t.posts && ko in t0.posts && t0.posts[ko].anchor == Some(anchor)
      && ko in t.occasions && t.occasions[ko] == keeper
  {
    DateOf(t0, t, keeper, duplicate, handled, byAnchor, lossless, anchor);
    MidIs(t0, t, keeper, duplicate, handled, byAnchor, lossless);
    hide Mid, Integrity, OccasionsMid, RsvpsMid, LinksMid, AnchorsMid, DatesMid, MediaMid, Extends, ParentLeft;
  }

  lemma DateOf(
      t0: Tables, t: Tables, keeper: int, duplicate: int, handled: set<int>, byAnchor: map<int, int>, lossless: bool,
      anchor: int)
    requires Mid(t0, t, keeper, duplicate, handled, byAnchor, lossless) && anchor in byAnchor
    ensures KeepsDate(t.posts, t.occasions, keeper, Some(anchor), byAnchor[anchor])
  {
  }
}
