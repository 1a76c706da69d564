/** Collapses in a row: what holds for each of them adds up for them all. From the outcome of some collapses and that
    of the next ones follows the outcome of all of them, table by table: a keeper stays what it is, so what came to it
    stays there, and what belongs to a later duplicate is untouched until its turn comes. The same goes for the
    numbers of places added to lists of media and of occasions merged away. This serves for the duplicates of one
    group as well as for groups one after the other. */
module EventGroups {
  import opened Wrappers
  import opened EventTables
  import opened EventCollapse
  import opened EventOutcome

  /** Duplicates and keepers are different events. */
  ghost predicate AreHomes(events: Events, home: Homes) {
    forall d <- home :: d in events && home[d] in events && home[d] !in home
  }

  ghost predicate Sound(t: Tables) {
    OccasionsRefer(t.posts, t.events, t.occasions) && Separate(t.events, t.occasions)
  }

  /** What the composition needs to know of what comes next. */
  ghost predicate Next(t0: Tables, t1: Tables, t2: Tables, home: Homes, next: Homes) {
    && AreHomes(t0.events, home + next) && home.Keys !! next.Keys
    && Sound(t0) && Sound(t1) && Sound(t2)
    && t1.events == t0.events - home.Keys && t2.events == t1.events - next.Keys
  }

  lemma HomesAdd(events: Events, home: Homes, next: Homes)
    requires AreHomes(events, home + next) && home.Keys !! next.Keys
    ensures forall d :: d in home + next <==> d in home || d in next
    ensures forall d <- home :: (home + next)[d] == home[d] && home[d] !in home && home[d] !in next && home[d] in events
    ensures forall d <- next :: (home + next)[d] == next[d] && next[d] !in home && next[d] !in next && next[d] in events
    ensures forall event :: HomeOf(home + next, event) == HomeOf(next, HomeOf(home, event))
  {
    forall d <- home ensures (home + next)[d] == home[d] && home[d] !in home && home[d] !in next && home[d] in events {
      assert d in home + next;
    }
    forall d <- next ensures (home + next)[d] == next[d] && next[d] !in home && next[d] !in next && next[d] in events {
      assert d in home + next;
    }
  }

  lemma KeeperIsLeft(t0: Tables, t1: Tables, t2: Tables, home: Homes, next: Homes, d: int)
    requires Next(t0, t1, t2, home, next) && d in home
    ensures home[d] in t0.events && home[d] !in home && home[d] !in next
  {
    assert d in home + next && (home + next)[d] == home[d];
    hide Sound;
  }

  /** Events that are no duplicates have been there all along, with posts that are no occasions. */
  lemma EventsThroughout(t0: Tables, t1: Tables, t2: Tables, home: Homes, next: Homes, event: int)
    requires Next(t0, t1, t2, home, next) && event in t0.events
    ensures event in t0.posts && event !in t0.occasions
    ensures event !in home ==> event in t1.events && event in t1.posts && event !in t1.occasions
    ensures event !in home && event !in next ==> event in t2.events && event in t2.posts && event !in t2.occasions
  {
    hide AreHomes;
  }

  lemma DuplicatesAreEvents(t0: Tables, t1: Tables, t2: Tables, home: Homes, next: Homes, d: int)
    requires Next(t0, t1, t2, home, next) && (d in home || d in next)
    ensures d in t0.events && (d in next ==> d !in home)
  {
    assert d in home + next;
    hide Sound;
  }

  // ----- Occasions and RSVPs -----

  /** An occasion of an event that stays is kept, with its media. */
  lemma OccasionStays(t1: Tables, t2: Tables, next: Homes, o: int)
    requires OccasionsKept(t1, t2, next) && PostsKept(t1, t2, next) && Sound(t2)
    requires o in t1.occasions && t1.occasions[o] !in next
    ensures o in t2.occasions && t2.occasions[o] == t1.occasions[o]
    ensures o in t1.posts && o in t2.posts && t2.posts[o].anchor == t1.posts[o].anchor
    ensures t1.posts[o].media <= t2.posts[o].media
    ensures !IsAnchored(t1, next, o)
  {
    hide StandsFor, MediaUnited, IsKeeping, ParentKept, IsUnanchored;
  }

  /** An occasion of the next duplicates is as it was. */
  lemma NotYet(t0: Tables, t1: Tables, t2: Tables, home: Homes, next: Homes, o: int)
    requires Next(t0, t1, t2, home, next)
    requires OccasionsKept(t0, t1, home) && PostsKept(t0, t1, home)
    ensures IsAnchored(t1, next, o) <==> IsAnchored(t0, next, o)
    ensures IsUnanchored(t1, next, o) <==> IsUnanchored(t0, next, o)
    ensures IsAnchored(t0, home + next, o) <==> IsAnchored(t0, home, o) || IsAnchored(t0, next, o)
    ensures IsUnanchored(t0, home + next, o) <==> IsUnanchored(t0, home, o) || IsUnanchored(t0, next, o)
    ensures !(IsAnchored(t0, home, o) && IsAnchored(t0, next, o))
    ensures IsAnchored(t0, next, o) ==>
      && t1.occasions[o] == t0.occasions[o] && t1.posts[o].anchor == t0.posts[o].anchor
      && t0.posts[o].media <= t1.posts[o].media
  {
    HomesAdd(t0.events, home, next);
    hide AreHomes, StandsFor, MediaUnited, IsKeeping, ParentKept;
  }

  lemma ComposeRsvp(t0: Tables, t1: Tables, t2: Tables, home: Homes, next: Homes, r: int)
    requires Next(t0, t1, t2, home, next)
    requires OccasionsKept(t0, t1, home) && PostsKept(t0, t1, home)
    requires RsvpsKept(t0, t1, home) && RsvpsKept(t1, t2, next) && r in t0.rsvps
    ensures var o := t0.rsvps[r];
      && o in t0.occasions && o in t0.posts
      && (r in t2.rsvps <==> !IsUnanchored(t0, home + next, o))
      && (r in t2.rsvps ==>
            KeepsDate(t2.posts, t2.occasions, HomeOf(home + next, t0.occasions[o]), t0.posts[o].anchor, t2.rsvps[r]))
      && (t0.occasions[o] !in home + next ==> r in t2.rsvps && t2.rsvps[r] == o)
  {
    HomesAdd(t0.events, home, next);
    var o := t0.rsvps[r];
    NotYet(t0, t1, t2, home, next, o);
    if r in t1.rsvps {
      NotYet(t0, t1, t2, home, next, t1.rsvps[r]);
      hide Next, OccasionsKept, PostsKept;
      assert IsUnanchored(t1, next, t1.rsvps[r]) ==> t1.rsvps[r] == o;
    }
  }

  lemma ComposeRsvps(t0: Tables, t1: Tables, t2: Tables, home: Homes, next: Homes)
    requires Next(t0, t1, t2, home, next)
    requires OccasionsKept(t0, t1, home) && PostsKept(t0, t1, home)
    requires RsvpsKept(t0, t1, home) && RsvpsKept(t1, t2, next)
    ensures RsvpsKept(t0, t2, home + next)
  {
    hide Next, OccasionsKept, PostsKept, KeepsDate, IsUnanchored, HomeOf;
    forall r <- t0.rsvps
      ensures var o := t0.rsvps[r];
        && o in t0.occasions && o in t0.posts
        && (r in t2.rsvps <==> !IsUnanchored(t0, home + next, o))
        && (r in t2.rsvps ==>
              KeepsDate(t2.posts, t2.occasions, HomeOf(home + next, t0.occasions[o]), t0.posts[o].anchor, t2.rsvps[r]))
        && (t0.occasions[o] !in home + next ==> r in t2.rsvps && t2.rsvps[r] == o)
    {
      ComposeRsvp(t0, t1, t2, home, next, r);
    }
  }

  lemma EarlierDate(t0: Tables, t1: Tables, t2: Tables, next: Homes, keeper: int, o: int)
    requires OccasionsKept(t1, t2, next) && PostsKept(t1, t2, next) && Sound(t2)
    requires o in t0.posts && keeper !in next && exists date <- t1.occasions :: StandsFor(t0, t1, keeper, o, date)
    ensures exists date <- t2.occasions :: StandsFor(t0, t2, keeper, o, date)
  {
    hide OccasionsKept, PostsKept, Sound;
    var date :| date in t1.occasions && StandsFor(t0, t1, keeper, o, date);
    OccasionStays(t1, t2, next, date);
    assert StandsFor(t0, t2, keeper, o, date);
  }

  lemma LaterDate(t0: Tables, t1: Tables, t2: Tables, keeper: int, o: int)
    requires o in t0.posts && o in t1.posts && t1.posts[o].anchor == t0.posts[o].anchor
    requires t0.posts[o].media <= t1.posts[o].media
    requires exists date <- t2.occasions :: StandsFor(t1, t2, keeper, o, date)
    ensures exists date <- t2.occasions :: StandsFor(t0, t2, keeper, o, date)
  {
    var date :| date in t2.occasions && StandsFor(t1, t2, keeper, o, date);
    hide KeepsDate;
    assert StandsFor(t0, t2, keeper, o, date);
  }

  lemma ComposeDate(t0: Tables, t1: Tables, t2: Tables, home: Homes, next: Homes, o: int)
    requires Next(t0, t1, t2, home, next)
    requires OccasionsKept(t0, t1, home) && PostsKept(t0, t1, home)
    requires OccasionsKept(t1, t2, next) && PostsKept(t1, t2, next)
    requires IsAnchored(t0, home + next, o)
    ensures exists date <- t2.occasions :: StandsFor(t0, t2, (home + next)[t0.occasions[o]], o, date)
  {
    HomesAdd(t0.events, home, next);
    NotYet(t0, t1, t2, home, next, o);
    hide StandsFor, PostsKept, AreHomes, IsUnanchored;
    if IsAnchored(t0, home, o) {
      KeeperIsLeft(t0, t1, t2, home, next, t0.occasions[o]);
      EarlierDate(t0, t1, t2, next, home[t0.occasions[o]], o);
    } else {
      LaterDate(t0, t1, t2, next[t0.occasions[o]], o);
    }
  }

  lemma ComposeOccasion(t0: Tables, t1: Tables, t2: Tables, home: Homes, next: Homes, o: int)
    requires Next(t0, t1, t2, home, next)
    requires OccasionsKept(t0, t1, home) && PostsKept(t0, t1, home) && OccasionsKept(t1, t2, next)
    ensures o in t2.occasions ==>
      && o in t0.occasions && t2.occasions[o] == HomeOf(home + next, t0.occasions[o])
      && !IsUnanchored(t0, home + next, o)
    ensures o in t0.occasions && t0.occasions[o] !in home + next ==> o in t2.occasions
  {
    HomesAdd(t0.events, home, next);
    NotYet(t0, t1, t2, home, next, o);
    hide Next, IsAnchored, IsUnanchored, PostsKept, StandsFor;
  }

  lemma ComposeOccasions(t0: Tables, t1: Tables, t2: Tables, home: Homes, next: Homes)
    requires Next(t0, t1, t2, home, next)
    requires OccasionsKept(t0, t1, home) && PostsKept(t0, t1, home)
    requires OccasionsKept(t1, t2, next) && PostsKept(t1, t2, next)
    ensures OccasionsKept(t0, t2, home + next)
  {
    hide Next, PostsKept, StandsFor, IsUnanchored, HomeOf;
    forall o | IsAnchored(t0, home + next, o)
      ensures exists date <- t2.occasions :: StandsFor(t0, t2, (home + next)[t0.occasions[o]], o, date)
    {
      ComposeDate(t0, t1, t2, home, next, o);
    }
    forall o
      ensures o in t2.occasions ==>
        && o in t0.occasions && t2.occasions[o] == HomeOf(home + next, t0.occasions[o])
        && !IsUnanchored(t0, home + next, o)
      ensures o in t0.occasions && t0.occasions[o] !in home + next ==> o in t2.occasions
    {
      ComposeOccasion(t0, t1, t2, home, next, o);
    }
  }

  // ----- Cross-posts and sync-out records -----

  lemma ComposeLinks(t0: Tables, t1: Tables, t2: Tables, home: Homes, next: Homes, lossless: bool)
    requires Next(t0, t1, t2, home, next)
    requires OccasionsKept(t0, t1, home) && PostsKept(t0, t1, home)
    requires OccasionsKept(t1, t2, next) && PostsKept(t1, t2, next)
    requires LinksKept(t0, t1, home, lossless) && LinksKept(t1, t2, next, lossless)
    ensures LinksKept(t0, t2, home + next, lossless)
  {
    forall row <- t0.links ensures RowKept(t0, t2, home + next, lossless, row) {
      ComposeRow(t0, t1, t2, home, next, lossless, row);
    }
    forall row <- t2.links ensures t2.links[row].post !in home + next {
      assert row in t1.links && t1.links[row].post !in home && t2.links[row].post !in next;
      NotBack(t0, t1, t2, home, next, lossless, row);
    }
    hide Next, RowKept, OccasionsKept, PostsKept;
  }

  lemma NotBack(t0: Tables, t1: Tables, t2: Tables, home: Homes, next: Homes, lossless: bool, row: Row)
    requires Next(t0, t1, t2, home, next)
    requires OccasionsKept(t0, t1, home) && OccasionsKept(t1, t2, next)
    requires row in t1.links && row in t2.links && t1.links[row].post !in home
    requires RowKept(t1, t2, next, lossless, row)
    ensures t2.links[row].post !in home
  {
    HomesAdd(t0.events, home, next);
    var p := t2.links[row].post;
    assert p in t2.occasions ==> p in t0.occasions;
    hide OccasionsKept, IsUnanchored, StandsFor;
    if p in home {
      DuplicatesAreEvents(t0, t1, t2, home, next, p);
      EventsThroughout(t0, t1, t2, home, next, p);
    }
    hide Next;
  }

  lemma RowStays(t1: Tables, t2: Tables, next: Homes, lossless: bool, row: Row)
    requires row in t1.links && RowKept(t1, t2, next, lossless, row)
    requires t1.links[row].post !in next && !IsAnchored(t1, next, t1.links[row].post)
    ensures row in t2.links && t2.links[row] == t1.links[row]
  {
  }

  lemma ComposeRow(t0: Tables, t1: Tables, t2: Tables, home: Homes, next: Homes, lossless: bool, row: Row)
    requires Next(t0, t1, t2, home, next)
    requires OccasionsKept(t0, t1, home) && PostsKept(t0, t1, home)
    requires OccasionsKept(t1, t2, next) && PostsKept(t1, t2, next)
    requires row in t0.links && RowKept(t0, t1, home, lossless, row)
    requires row in t1.links ==> RowKept(t1, t2, next, lossless, row)
    requires row !in t1.links ==> row !in t2.links
    ensures RowKept(t0, t2, home + next, lossless, row)
  {
    HomesAdd(t0.events, home, next);
    var p := t0.links[row].post;
    NotYet(t0, t1, t2, home, next, p);
    if p in home {
      EventsThroughout(t0, t1, t2, home, next, home[p]);
      hide Next, OccasionsKept, PostsKept;
      if row in t1.links {
        RowStays(t1, t2, next, lossless, row);
      }
    } else if IsAnchored(t0, home, p) {
      AnchoredRow(t0, t1, t2, home, next, lossless, row);
    } else {
      hide Next, OccasionsKept, PostsKept, KeepsDate;
    }
  }

  lemma AnchoredRow(t0: Tables, t1: Tables, t2: Tables, home: Homes, next: Homes, lossless: bool, row: Row)
    requires Next(t0, t1, t2, home, next)
    requires OccasionsKept(t0, t1, home) && PostsKept(t0, t1, home)
    requires OccasionsKept(t1, t2, next) && PostsKept(t1, t2, next)
    requires row in t0.links && RowKept(t0, t1, home, lossless, row)
    requires row in t1.links ==> RowKept(t1, t2, next, lossless, row)
    requires row !in t1.links ==> row !in t2.links
    requires IsAnchored(t0, home, t0.links[row].post) && t0.links[row].post !in home
    ensures RowKept(t0, t2, home + next, lossless, row)
  {
    HomesAdd(t0.events, home, next);
    var p := t0.links[row].post;
    NotYet(t0, t1, t2, home, next, p);
    StayOrGo(t0, t1, t2, home, next, p);
    assert Sound(t2);
    hide Next, OccasionsKept, PostsKept, Sound;
    if row in t1.links {
      if row.relation == OccasionDestinations {
        var date := t1.links[row].post;
        KeeperIsLeft(t0, t1, t2, home, next, t0.occasions[p]);
        OccasionStays(t1, t2, next, date);
        NoDuplicate(t0, t1, t2, home, next, date);
      }
      RowStays(t1, t2, next, lossless, row);
    }
  }

  lemma NoDuplicate(t0: Tables, t1: Tables, t2: Tables, home: Homes, next: Homes, o: int)
    requires Next(t0, t1, t2, home, next) && o in t1.occasions
    ensures o !in next
  {
    if o in next {
      DuplicatesAreEvents(t0, t1, t2, home, next, o);
      EventsThroughout(t0, t1, t2, home, next, o);
    }
    hide Next;
  }

  /** A handled occasion of an earlier duplicate is its keeper's by now, or gone, and stays so. */
  lemma StayOrGo(t0: Tables, t1: Tables, t2: Tables, home: Homes, next: Homes, p: int)
    requires Next(t0, t1, t2, home, next)
    requires OccasionsKept(t0, t1, home) && PostsKept(t0, t1, home)
    requires OccasionsKept(t1, t2, next) && PostsKept(t1, t2, next)
    requires IsAnchored(t0, home, p)
    ensures p in t1.posts <==> p in t2.posts
    ensures p in t1.occasions <==> p in t2.occasions
    ensures p in t1.occasions ==> t1.occasions[p] == home[t0.occasions[p]]
    ensures p in t1.posts <==> p in t1.occasions
    ensures p !in next && !IsAnchored(t1, next, p)
  {
    HomesAdd(t0.events, home, next);
    assert p in t0.occasions && t0.occasions[p] in home;
    assert p in t1.posts <==> p in t1.occasions;
    assert p in t1.occasions ==> t1.occasions[p] == home[t0.occasions[p]];
    assert p in t2.posts ==> p in t1.posts;
    assert p in t2.occasions ==> p in t1.occasions;
    hide OccasionsKept, PostsKept, IsAnchored, AreHomes;
    if p in t1.occasions {
      OccasionStays(t1, t2, next, p);
    }
    if p in next {
      DuplicatesAreEvents(t0, t1, t2, home, next, p);
      EventsThroughout(t0, t1, t2, home, next, p);
    }
    hide Next;
  }

  // ----- Posts -----

  lemma ParentTwice(posts1: Posts, posts2: Posts, home: Homes, next: Homes, parent: Option<int>)
    requires forall p <- posts2 :: p in posts1
    requires forall d <- home :: d !in next && home[d] in posts2 && home[d] !in next
    requires forall d <- next :: d in posts1
    ensures ParentKept(posts2, next, ParentKept(posts1, home, parent)) == ParentKept(posts2, home + next, parent)
  {
    if parent.Some? {
      var p := parent.value;
      assert p in home + next <==> p in home || p in next;
      if p in home {
        assert p !in next && home[p] !in next && home[p] in posts2;
      } else if p in next {
        assert p in posts1;
      }
    }
  }

  lemma ComposeParent(t0: Tables, t1: Tables, t2: Tables, home: Homes, next: Homes, parent: Option<int>)
    requires Next(t0, t1, t2, home, next)
    requires forall p <- t2.posts :: p in t1.posts
    ensures ParentKept(t2.posts, next, ParentKept(t1.posts, home, parent)) == ParentKept(t2.posts, home + next, parent)
  {
    forall d <- home ensures d !in next && home[d] in t2.posts && home[d] !in next {
      KeeperIsLeft(t0, t1, t2, home, next, d);
      EventsThroughout(t0, t1, t2, home, next, home[d]);
    }
    forall d <- next ensures d in t1.posts {
      DuplicatesAreEvents(t0, t1, t2, home, next, d);
      EventsThroughout(t0, t1, t2, home, next, d);
    }
    hide Next, ParentKept;
    ParentTwice(t1.posts, t2.posts, home, next, parent);
  }

  lemma ComposePost(t0: Tables, t1: Tables, t2: Tables, home: Homes, next: Homes, p: int)
    requires Next(t0, t1, t2, home, next)
    requires PostsKept(t0, t1, home) && PostsKept(t1, t2, next) && p in t2.posts
    ensures p in t0.posts && p !in home + next
    ensures t2.posts[p].anchor == t0.posts[p].anchor && t2.posts[p].synced == t0.posts[p].synced
    ensures Extends(t0.posts[p].media, t2.posts[p].media)
    ensures t2.posts[p].parent == ParentKept(t2.posts, home + next, t0.posts[p].parent)
  {
    assert p in t1.posts && p in t0.posts;
    ExtendsTrans(t0.posts[p].media, t1.posts[p].media, t2.posts[p].media);
    ComposeParent(t0, t1, t2, home, next, t0.posts[p].parent);
    HomesAdd(t0.events, home, next);
    hide Next, Extends, ParentKept, MediaUnited, IsKeeping, IsAnchored;
  }

  lemma ComposeSurvivor(t0: Tables, t1: Tables, t2: Tables, home: Homes, next: Homes, p: int)
    requires Next(t0, t1, t2, home, next)
    requires OccasionsKept(t0, t1, home) && PostsKept(t0, t1, home)
    requires OccasionsKept(t1, t2, next) && PostsKept(t1, t2, next)
    requires p in t0.posts
    ensures p !in home + next && !IsAnchored(t0, home + next, p) ==> p in t2.posts
    ensures IsAnchored(t0, home + next, p) ==> (p in t2.posts <==> p in t2.occasions)
  {
    HomesAdd(t0.events, home, next);
    NotYet(t0, t1, t2, home, next, p);
    hide Next, OccasionsKept, MediaUnited, IsKeeping, ParentKept, IsAnchored, Extends;
    if IsAnchored(t0, home, p) {
      StayOrGo(t0, t1, t2, home, next, p);
      hide PostsKept;
    } else if IsAnchored(t0, next, p) {
      AnchoredIsPost(t1, next, p);
    }
  }

  lemma AnchoredIsPost(t: Tables, home: Homes, o: int)
    requires IsAnchored(t, home, o)
    ensures o in t.posts && o in t.occasions
  {
  }

  lemma NotKept(t0: Tables, t1: Tables, t2: Tables, home: Homes, next: Homes, p: int)
    requires Next(t0, t1, t2, home, next)
    requires OccasionsKept(t1, t2, next) && PostsKept(t1, t2, next)
    requires !IsKeeping(t2.occasions, home + next, p)
    ensures !IsKeeping(t1.occasions, home, p) && !IsKeeping(t2.occasions, next, p)
  {
    HomesAdd(t0.events, home, next);
    forall d <- home ensures !(p == home[d] || (p in t1.occasions && t1.occasions[p] == home[d])) {
      assert d in home + next;
      if p in t1.occasions && t1.occasions[p] == home[d] {
        OccasionStays(t1, t2, next, p);
      }
      hide Next, OccasionsKept, PostsKept;
    }
    assert forall d <- next :: d in home + next;
    hide Next, OccasionsKept, PostsKept;
  }

  /** Whatever a keeper's list has, it had, or one of its duplicates. */
  lemma KeeperMedia(t0: Tables, t1: Tables, home: Homes, k: int, m: MediaRef)
    requires PostsKept(t0, t1, home) && k in t1.posts && k !in t1.occasions && m in t1.posts[k].media
    ensures k in t0.posts && (m in t0.posts[k].media || IsDuplicates(t0, home, k, m))
  {
    if IsKeeping(t1.occasions, home, k) {
      var d :| d in home && k == home[d];
      assert MediaUnited(t0, t1, home, d);
    }
    hide IsKeeping, Extends, ParentKept, IsAnchored;
  }

  /** The next duplicates have had no media merged into them. */
  lemma NextMedia(t0: Tables, t1: Tables, t2: Tables, home: Homes, next: Homes, d: int)
    requires Next(t0, t1, t2, home, next) && PostsKept(t0, t1, home) && d in next
    ensures d in t0.posts && d in t1.posts && t1.posts[d].media == t0.posts[d].media
  {
    HomesAdd(t0.events, home, next);
    DuplicatesAreEvents(t0, t1, t2, home, next, d);
    EventsThroughout(t0, t1, t2, home, next, d);
    assert !IsKeeping(t1.occasions, home, d);
    hide Next, MediaUnited, Extends, ParentKept, IsAnchored, IsKeeping;
  }

  lemma ComposeUnited(t0: Tables, t1: Tables, t2: Tables, home: Homes, next: Homes, d: int)
    requires Next(t0, t1, t2, home, next)
    requires PostsKept(t0, t1, home) && PostsKept(t1, t2, next)
    requires d in home + next
    ensures MediaUnited(t0, t2, home + next, d)
  {
    var k := (home + next)[d];
    HomesAdd(t0.events, home, next);
    DuplicatesAreEvents(t0, t1, t2, home, next, d);
    EventsThroughout(t0, t1, t2, home, next, k);
    EventsThroughout(t0, t1, t2, home, next, d);
    if d in next {
      NextMedia(t0, t1, t2, home, next, d);
    }
    assert t1.posts[k].media <= t2.posts[k].media;
    assert if d in home then MediaUnited(t0, t1, home, d) else MediaUnited(t1, t2, next, d);
    hide Next, PostsKept, IsDuplicates;
    forall m <- t2.posts[k].media ensures m in t0.posts[k].media || IsDuplicates(t0, home + next, k, m) {
      KeeperMedia(t1, t2, next, k, m);
      if m in t1.posts[k].media {
        KeeperMedia(t0, t1, home, k, m);
      }
      DuplicatesAddUp(t0, t1, t2, home, next, k, m);
    }
  }

  lemma DuplicatesAddUp(t0: Tables, t1: Tables, t2: Tables, home: Homes, next: Homes, k: int, m: MediaRef)
    requires Next(t0, t1, t2, home, next) && PostsKept(t0, t1, home)
    ensures IsDuplicates(t0, home, k, m) || IsDuplicates(t1, next, k, m) ==> IsDuplicates(t0, home + next, k, m)
  {
    HomesAdd(t0.events, home, next);
    if IsDuplicates(t0, home, k, m) {
      var d :| d in home && home[d] == k && d in t0.posts && m in t0.posts[d].media;
      assert d in home + next;
    }
    if IsDuplicates(t1, next, k, m) {
      var d :| d in next && next[d] == k && d in t1.posts && m in t1.posts[d].media;
      NextMedia(t0, t1, t2, home, next, d);
      assert d in home + next;
    }
    hide Next, PostsKept;
  }

  lemma ComposePosts(t0: Tables, t1: Tables, t2: Tables, home: Homes, next: Homes)
    requires Next(t0, t1, t2, home, next)
    requires OccasionsKept(t0, t1, home) && PostsKept(t0, t1, home)
    requires OccasionsKept(t1, t2, next) && PostsKept(t1, t2, next)
    ensures PostsKept(t0, t2, home + next)
  {
    hide Next, OccasionsKept, IsAnchored, IsKeeping, MediaUnited, ParentKept, Extends;
    forall p <- t2.posts
      ensures p in t0.posts && p !in home + next
      ensures t2.posts[p].anchor == t0.posts[p].anchor && t2.posts[p].synced == t0.posts[p].synced
      ensures Extends(t0.posts[p].media, t2.posts[p].media)
      ensures t2.posts[p].parent == ParentKept(t2.posts, home + next, t0.posts[p].parent)
    {
      ComposePost(t0, t1, t2, home, next, p);
    }
    forall p <- t0.posts
      ensures p !in home + next && !IsAnchored(t0, home + next, p) ==> p in t2.posts
      ensures IsAnchored(t0, home + next, p) ==> (p in t2.posts <==> p in t2.occasions)
    {
      ComposeSurvivor(t0, t1, t2, home, next, p);
    }
    forall p <- t2.posts | !IsKeeping(t2.occasions, home + next, p) ensures t2.posts[p].media == t0.posts[p].media {
      NotKept(t0, t1, t2, home, next, p);
      SameMedia(t0, t1, home, t1.occasions, p);
      SameMedia(t1, t2, next, t2.occasions, p);
    }
    forall d <- home + next ensures MediaUnited(t0, t2, home + next, d) {
      ComposeUnited(t0, t1, t2, home, next, d);
    }
  }

  lemma SameMedia(t: Tables, t': Tables, home: Homes, occasions: Occasions, p: int)
    requires PostsKept(t, t', home) && occasions == t'.occasions && !IsKeeping(occasions, home, p)
    ensures p in t'.posts ==> p in t.posts && t'.posts[p].media == t.posts[p].media
  {
    hide IsKeeping, MediaUnited, Extends, ParentKept, IsAnchored;
  }

  // ----- Merged occasions -----

  lemma DateStaysThere(t0: Tables, t1: Tables, home: Homes, event: int, anchor: Option<int>)
    requires OccasionsKept(t0, t1, home) && PostsKept(t0, t1, home) && Sound(t1) && event !in home
    ensures HasDate(t0.posts, t0.occasions, event, anchor) ==> HasDate(t1.posts, t1.occasions, event, anchor)
  {
    hide OccasionsKept, PostsKept, Sound;
    if HasDate(t0.posts, t0.occasions, event, anchor) {
      var o :| o in t0.occasions && KeepsDate(t0.posts, t0.occasions, event, anchor, o);
      OccasionStays(t0, t1, home, o);
      assert KeepsDate(t1.posts, t1.occasions, event, anchor, o);
    }
  }

  /** What a duplicate had an occasion for, its keeper has. */
  lemma DateIsKept(t0: Tables, t1: Tables, home: Homes, d: int, anchor: Option<int>)
    requires OccasionsKept(t0, t1, home) && d in home && anchor.Some?
    ensures HasDate(t0.posts, t0.occasions, d, anchor) ==> HasDate(t1.posts, t1.occasions, home[d], anchor)
  {
    if HasDate(t0.posts, t0.occasions, d, anchor) {
      var o :| o in t0.occasions && KeepsDate(t0.posts, t0.occasions, d, anchor, o);
      assert IsAnchored(t0, home, o);
      var date :| date in t1.occasions && StandsFor(t0, t1, home[d], o, date);
      assert KeepsDate(t1.posts, t1.occasions, home[d], anchor, date);
    }
  }

  lemma ComposeDates(t0: Tables, t1: Tables, t2: Tables, home: Homes, next: Homes)
    requires Next(t0, t1, t2, home, next)
    requires OccasionsKept(t0, t1, home) && PostsKept(t0, t1, home) && OccasionsKept(t1, t2, next)
    requires DatesMerged(t0, t1, home) && DatesMerged(t1, t2, next)
    ensures DatesMerged(t0, t2, home + next)
  {
    forall o <- t2.occasions | IsAnchored(t0, home + next, o)
      ensures !HasDate(t0.posts, t0.occasions, (home + next)[t0.occasions[o]], t0.posts[o].anchor)
    {
      ComposeFree(t0, t1, t2, home, next, o);
    }
    forall o <- t2.occasions, p <- t2.occasions | IsSameDate(t0, home + next, o, p) ensures o == p {
      ComposeSame(t0, t1, t2, home, next, o, p);
    }
    hide Next, OccasionsKept, PostsKept, IsSameDate, HasDate, IsAnchored;
  }

  lemma WasThere(t1: Tables, t2: Tables, next: Homes, o: int)
    requires OccasionsKept(t1, t2, next) && o in t2.occasions
    ensures o in t1.occasions
  {
  }

  lemma ComposeFree(t0: Tables, t1: Tables, t2: Tables, home: Homes, next: Homes, o: int)
    requires Next(t0, t1, t2, home, next)
    requires OccasionsKept(t0, t1, home) && PostsKept(t0, t1, home) && OccasionsKept(t1, t2, next)
    requires DatesMerged(t0, t1, home) && DatesMerged(t1, t2, next)
    requires o in t2.occasions && IsAnchored(t0, home + next, o)
    ensures !HasDate(t0.posts, t0.occasions, (home + next)[t0.occasions[o]], t0.posts[o].anchor)
  {
    HomesAdd(t0.events, home, next);
    NotYet(t0, t1, t2, home, next, o);
    WasThere(t1, t2, next, o);
    hide OccasionsKept, PostsKept, HasDate, AreHomes, IsSameDate;
    if IsAnchored(t0, next, o) {
      DateStaysThere(t0, t1, home, next[t0.occasions[o]], t0.posts[o].anchor);
    }
  }

  lemma EarlierHasDate(t0: Tables, t1: Tables, home: Homes, o: int)
    requires OccasionsKept(t0, t1, home) && IsAnchored(t0, home, o)
    ensures HasDate(t1.posts, t1.occasions, home[t0.occasions[o]], t0.posts[o].anchor)
  {
    hide OccasionsKept;
    assert KeepsDate(t0.posts, t0.occasions, t0.occasions[o], t0.posts[o].anchor, o);
    DateIsKept(t0, t1, home, t0.occasions[o], t0.posts[o].anchor);
  }

  lemma MergedAt(t0: Tables, t1: Tables, home: Homes, o: int, p: int)
    requires DatesMerged(t0, t1, home) && IsSameDate(t0, home, o, p) && o in t1.occasions && p in t1.occasions
    ensures o == p
  {
  }

  /** An occasion is merged where an earlier duplicate had one for its anchor. */
  lemma LaterGoes(t0: Tables, t1: Tables, t2: Tables, home: Homes, next: Homes, o: int, p: int)
    requires OccasionsKept(t0, t1, home) && DatesMerged(t1, t2, next)
    requires IsAnchored(t0, home, o) && IsAnchored(t1, next, p)
    requires next[t1.occasions[p]] == home[t0.occasions[o]] && t1.posts[p].anchor == t0.posts[o].anchor
    ensures p !in t2.occasions
  {
    hide OccasionsKept, HasDate;
    EarlierHasDate(t0, t1, home, o);
  }

  lemma ComposeSame(t0: Tables, t1: Tables, t2: Tables, home: Homes, next: Homes, o: int, p: int)
    requires Next(t0, t1, t2, home, next)
    requires OccasionsKept(t0, t1, home) && PostsKept(t0, t1, home) && OccasionsKept(t1, t2, next)
    requires DatesMerged(t0, t1, home) && DatesMerged(t1, t2, next)
    requires o in t2.occasions && p in t2.occasions && IsSameDate(t0, home + next, o, p)
    ensures o == p
  {
    HomesAdd(t0.events, home, next);
    NotYet(t0, t1, t2, home, next, o);
    NotYet(t0, t1, t2, home, next, p);
    WasThere(t1, t2, next, o);
    WasThere(t1, t2, next, p);
    hide Next, OccasionsKept, PostsKept, DatesMerged;
    if IsAnchored(t0, home, o) {
      if IsAnchored(t0, home, p) {
        MergedAt(t0, t1, home, o, p);
      } else {
        LaterGoes(t0, t1, t2, home, next, o, p);
      }
    } else {
      if IsAnchored(t0, home, p) {
        LaterGoes(t0, t1, t2, home, next, p, o);
      } else {
        MergedAt(t1, t2, next, o, p);
      }
    }
  }

  lemma SuppliesAddUp(
      t0: Tables, t1: Tables, t2: Tables, home: Homes, next: Homes, keeper: int, anchor: Option<int>, m: MediaRef)
    requires Next(t0, t1, t2, home, next)
    requires OccasionsKept(t0, t1, home) && PostsKept(t0, t1, home)
    ensures Supplies(t0, home, keeper, anchor, m) || Supplies(t1, next, keeper, anchor, m) ==>
      Supplies(t0, home + next, keeper, anchor, m)
  {
    hide OccasionsKept, PostsKept;
    HomesAdd(t0.events, home, next);
    hide Next;
    if Supplies(t0, home, keeper, anchor, m) {
      var o :| o in t0.occasions && IsAnchored(t0, home, o) && home[t0.occasions[o]] == keeper
               && t0.posts[o].anchor == anchor && m in t0.posts[o].media;
      assert IsAnchored(t0, home + next, o);
    } else if Supplies(t1, next, keeper, anchor, m) {
      NextSupplies(t0, t1, t2, home, next, keeper, anchor, m);
    }
  }

  lemma NextSupplies(
      t0: Tables, t1: Tables, t2: Tables, home: Homes, next: Homes, keeper: int, anchor: Option<int>, m: MediaRef)
    requires Next(t0, t1, t2, home, next)
    requires OccasionsKept(t0, t1, home) && PostsKept(t0, t1, home)
    requires Supplies(t1, next, keeper, anchor, m)
    ensures Supplies(t0, home + next, keeper, anchor, m)
  {
    hide OccasionsKept, PostsKept;
    HomesAdd(t0.events, home, next);
    hide Next;
    var o :| o in t1.occasions && IsAnchored(t1, next, o) && next[t1.occasions[o]] == keeper
             && t1.posts[o].anchor == anchor && m in t1.posts[o].media;
    NotYet(t0, t1, t2, home, next, o);
    NextOccasionMedia(t0, t1, t2, home, next, o);
    assert IsAnchored(t0, home + next, o);
  }

  /** The occasions of the next duplicates have had no media merged into them. */
  lemma NextOccasionMedia(t0: Tables, t1: Tables, t2: Tables, home: Homes, next: Homes, o: int)
    requires Next(t0, t1, t2, home, next) && PostsKept(t0, t1, home)
    requires o in t1.occasions && t1.occasions[o] in next
    ensures o in t1.posts ==> o in t0.posts && t1.posts[o].media == t0.posts[o].media
  {
    forall d <- home ensures !(o == home[d] || t1.occasions[o] == home[d]) {
      KeeperIsLeft(t0, t1, t2, home, next, d);
      EventsThroughout(t0, t1, t2, home, next, home[d]);
    }
    assert !IsKeeping(t1.occasions, home, o);
    hide Next;
    SameMedia(t0, t1, home, t1.occasions, o);
  }

  lemma ComposeSupplied(t0: Tables, t1: Tables, t2: Tables, home: Homes, next: Homes)
    requires Next(t0, t1, t2, home, next)
    requires OccasionsKept(t0, t1, home) && PostsKept(t0, t1, home)
    requires OccasionsKept(t1, t2, next) && PostsKept(t1, t2, next)
    requires MediaSupplied(t0, t1, home) && MediaSupplied(t1, t2, next)
    ensures MediaSupplied(t0, t2, home + next)
  {
    hide Next, OccasionsKept, PostsKept, Supplies;
    forall p <- t2.posts, m <- t2.posts[p].media
      | p in t0.posts && p in t2.occasions && m !in t0.posts[p].media
      ensures Supplies(t0, home + next, t2.occasions[p], t0.posts[p].anchor, m)
    {
      ComposeSupply(t0, t1, t2, home, next, p, m);
    }
  }

  lemma ComposeSupply(t0: Tables, t1: Tables, t2: Tables, home: Homes, next: Homes, p: int, m: MediaRef)
    requires Next(t0, t1, t2, home, next)
    requires OccasionsKept(t0, t1, home) && PostsKept(t0, t1, home)
    requires OccasionsKept(t1, t2, next) && PostsKept(t1, t2, next)
    requires MediaSupplied(t0, t1, home) && MediaSupplied(t1, t2, next)
    requires p in t2.posts && p in t0.posts && p in t2.occasions && m in t2.posts[p].media && m !in t0.posts[p].media
    ensures Supplies(t0, home + next, t2.occasions[p], t0.posts[p].anchor, m)
  {
    SuppliesAddUp(t0, t1, t2, home, next, t2.occasions[p], t0.posts[p].anchor, m);
    WasThere(t1, t2, next, p);
    OwnerIs(t1, t2, next, p);
    assert p in t1.posts && t1.posts[p].anchor == t0.posts[p].anchor;
    hide OccasionsKept, Supplies;
    if t1.occasions[p] in next {
      NextOccasionMedia(t0, t1, t2, home, next, p);
    }
    hide Next, PostsKept;
  }

  lemma OwnerIs(t1: Tables, t2: Tables, next: Homes, p: int)
    requires OccasionsKept(t1, t2, next) && p in t2.occasions && p in t1.occasions
    ensures t2.occasions[p] == HomeOf(next, t1.occasions[p])
  {
  }

  ghost predicate Covers(order: seq<int>, home: Homes) {
    forall d <- order :: d in home
  }

  lemma BeforeInBoth(first: seq<int>, second: seq<int>, a: int, b: int)
    requires ComesBefore(first + second, a, b)
    ensures b !in second ==> ComesBefore(first, a, b)
    ensures a !in first ==> ComesBefore(second, a, b)
  {
    var order := first + second;
    var i, j :| 0 <= i < j < |order| && order[i] == a && order[j] == b;
    assert j >= |first| ==> order[j] == second[j - |first|] && order[j] in second;
    assert i < |first| ==> order[i] == first[i] && order[i] in first;
    if b !in second {
      assert first[i] == a && first[j] == b;
    }
    if a !in first {
      assert second[i - |first|] == a && second[j - |first|] == b;
    }
  }

  lemma ComposeFirst(
      t0: Tables, t1: Tables, t2: Tables, home: Homes, next: Homes, first: seq<int>, second: seq<int>)
    requires Next(t0, t1, t2, home, next) && Covers(first, home) && Covers(second, next)
    requires OccasionsKept(t0, t1, home) && PostsKept(t0, t1, home) && OccasionsKept(t1, t2, next)
    requires FirstKeeps(t0, t1, home, first) && FirstKeeps(t1, t2, next, second)
    ensures FirstKeeps(t0, t2, home + next, first + second)
  {
    forall o <- t2.occasions | IsAnchored(t0, home + next, o)
      ensures !IsPreceded(t0, home + next, first + second, o)
    {
      HomesAdd(t0.events, home, next);
      NotYet(t0, t1, t2, home, next, o);
      WasThere(t1, t2, next, o);
      if IsAnchored(t0, home, o) {
        FirstOfEarlier(t0, home, next, first, second, o);
      } else {
        FirstOfLater(t0, t1, t2, home, next, first, second, o);
      }
    }
    hide Next, OccasionsKept, PostsKept, IsPreceded, IsAnchored;
  }

  lemma FirstOfEarlier(t0: Tables, home: Homes, next: Homes, first: seq<int>, second: seq<int>, o: int)
    requires Covers(first, home) && Covers(second, next) && home.Keys !! next.Keys
    requires IsAnchored(t0, home, o) && IsAnchored(t0, home + next, o) && !IsPreceded(t0, home, first, o)
    ensures !IsPreceded(t0, home + next, first + second, o)
  {
    var event, anchor := t0.occasions[o], t0.posts[o].anchor;
    assert (home + next)[event] == home[event];
    hide ComesBefore, HasDate;
    forall d <- home + next | (home + next)[d] == home[event] && ComesBefore(first + second, d, event)
      ensures !HasDate(t0.posts, t0.occasions, d, anchor)
    {
      BeforeInBoth(first, second, d, event);
      BothAmong(first, d, event);
    }
  }

  lemma BothAmong(order: seq<int>, a: int, b: int)
    requires ComesBefore(order, a, b)
    ensures a in order && b in order
  {
  }

  lemma FirstOfLater(
      t0: Tables, t1: Tables, t2: Tables, home: Homes, next: Homes, first: seq<int>, second: seq<int>, o: int)
    requires Next(t0, t1, t2, home, next) && Covers(first, home) && Covers(second, next)
    requires OccasionsKept(t0, t1, home) && PostsKept(t0, t1, home)
    requires IsAnchored(t0, home + next, o) && IsAnchored(t0, next, o) && IsAnchored(t1, next, o)
    requires !IsPreceded(t1, next, second, o)
    ensures !IsPreceded(t0, home + next, first + second, o)
  {
    HomesAdd(t0.events, home, next);
    NotYet(t0, t1, t2, home, next, o);
    var event, anchor := t0.occasions[o], t0.posts[o].anchor;
    KeeperIsNext(t0, t1, t2, home, next, event);
    hide OccasionsKept, PostsKept, HasDate, ComesBefore, AreHomes;
    DateStaysThere(t0, t1, home, next[event], anchor);
    forall d <- home + next | (home + next)[d] == next[event] && ComesBefore(first + second, d, event)
      ensures !HasDate(t0.posts, t0.occasions, d, anchor)
    {
      if d in home {
        DateIsKept(t0, t1, home, d, anchor);
      } else {
        BeforeInBoth(first, second, d, event);
        DateStaysThere(t0, t1, home, d, anchor);
      }
    }
  }

  lemma KeeperIsNext(t0: Tables, t1: Tables, t2: Tables, home: Homes, next: Homes, d: int)
    requires Next(t0, t1, t2, home, next) && d in next
    ensures next[d] !in home && next[d] !in next && d !in home
  {
    assert d in home + next && (home + next)[d] == next[d];
    hide Sound;
  }

  /** The merged occasions of collapses in a row are those of each. */
  lemma MergedAddUp(t0: Tables, t1: Tables, t2: Tables, home: Homes, next: Homes)
    requires Next(t0, t1, t2, home, next)
    requires OccasionsKept(t0, t1, home) && PostsKept(t0, t1, home)
    requires OccasionsKept(t1, t2, next) && PostsKept(t1, t2, next)
    ensures |MergedAway(t0, t2, home + next)| == |MergedAway(t0, t1, home)| + |MergedAway(t1, t2, next)|
  {
    hide MergedAway, Next, OccasionsKept, PostsKept;
    var first, second := MergedAway(t0, t1, home), MergedAway(t1, t2, next);
    forall o
      ensures o in MergedAway(t0, t2, home + next) <==> o in first || o in second
      ensures !(o in first && o in second)
    {
      MergedIn(t0, t1, t2, home, next, o);
    }
    assert MergedAway(t0, t2, home + next) == first + second && first !! second;
  }

  lemma MergedIn(t0: Tables, t1: Tables, t2: Tables, home: Homes, next: Homes, o: int)
    requires Next(t0, t1, t2, home, next)
    requires OccasionsKept(t0, t1, home) && PostsKept(t0, t1, home)
    requires OccasionsKept(t1, t2, next) && PostsKept(t1, t2, next)
    ensures o in MergedAway(t0, t2, home + next) <==> o in MergedAway(t0, t1, home) || o in MergedAway(t1, t2, next)
    ensures !(o in MergedAway(t0, t1, home) && o in MergedAway(t1, t2, next))
  {
    NotYet(t0, t1, t2, home, next, o);
    if IsAnchored(t0, home, o) {
      StayOrGo(t0, t1, t2, home, next, o);
    }
    assert IsAnchored(t1, next, o) ==> o in t1.occasions;
    assert forall h: Homes :: IsAnchored(t0, h, o) ==> o in t0.occasions;
    hide Next, OccasionsKept, PostsKept, IsAnchored;
  }

  // ----- All of it -----

  lemma NextFollows(t0: Tables, t1: Tables, t2: Tables, home: Homes, next: Homes, lossless: bool)
    requires Integrity(t0) && AreHomes(t0.events, home + next) && home.Keys !! next.Keys
    requires Outcome(t0, t1, home, lossless) && Outcome(t1, t2, next, lossless)
    ensures Next(t0, t1, t2, home, next)
    ensures t2.events == t0.events - (home + next).Keys
  {
    hide AreHomes, RsvpsKept, OccasionsKept, LinksKept, PostsKept, DatesMerged, MediaSupplied, Unique, PostsRefer,
         RsvpsRefer, LinksRefer;
    assert Sound(t0) && Sound(t1) && Sound(t2);
    hide OccasionsRefer, Separate, Sound;
    assert (home + next).Keys == home.Keys + next.Keys;
  }

  lemma Compose(t0: Tables, t1: Tables, t2: Tables, home: Homes, next: Homes, lossless: bool)
    requires Integrity(t0) && AreHomes(t0.events, home + next) && home.Keys !! next.Keys
    requires Outcome(t0, t1, home, lossless) && Outcome(t1, t2, next, lossless)
    ensures Outcome(t0, t2, home + next, lossless)
  {
    hide Next, Integrity, AreHomes, RsvpsKept, OccasionsKept, LinksKept, PostsKept, DatesMerged, MediaSupplied;
    NextFollows(t0, t1, t2, home, next, lossless);
    ComposeRsvps(t0, t1, t2, home, next);
    ComposeOccasions(t0, t1, t2, home, next);
    ComposeLinks(t0, t1, t2, home, next, lossless);
    ComposePosts(t0, t1, t2, home, next);
    ComposeDates(t0, t1, t2, home, next);
    ComposeSupplied(t0, t1, t2, home, next);
  }

  lemma NobodyMoves(t: Tables, o: int)
    ensures !IsAnchored(t, map[], o) && !IsUnanchored(t, map[], o) && !IsKeeping(t.occasions, map[], o)
    ensures HomeOf(map[], o) == o
  {
  }

  lemma NoRsvpMoved(t: Tables)
    requires OccasionsRefer(t.posts, t.events, t.occasions) && RsvpsRefer(t.occasions, t.rsvps)
    ensures RsvpsKept(t, t, map[])
  {
    hide IsUnanchored, HomeOf;
    forall r <- t.rsvps
      ensures !IsUnanchored(t, map[], t.rsvps[r]) && HomeOf(map[], t.occasions[t.rsvps[r]]) == t.occasions[t.rsvps[r]]
    {
      NobodyMoves(t, t.rsvps[r]);
      NobodyMoves(t, t.occasions[t.rsvps[r]]);
    }
  }

  lemma NoOccasionMoved(t: Tables)
    ensures OccasionsKept(t, t, map[])
  {
    hide IsUnanchored, IsAnchored, HomeOf, StandsFor;
    forall o ensures !IsUnanchored(t, map[], o) && !IsAnchored(t, map[], o) && HomeOf(map[], o) == o {
      NobodyMoves(t, o);
    }
  }

  lemma NoLinkMoved(t: Tables, lossless: bool)
    ensures LinksKept(t, t, map[], lossless)
  {
    hide IsAnchored, KeepsDate;
    forall row <- t.links ensures RowKept(t, t, map[], lossless, row) {
      NobodyMoves(t, t.links[row].post);
    }
    hide RowKept;
  }

  lemma NoPostMoved(t: Tables)
    requires PostsRefer(t.posts)
    ensures PostsKept(t, t, map[])
  {
    hide IsAnchored, IsKeeping, MediaUnited;
    forall p ensures !IsAnchored(t, map[], p) {
      NobodyMoves(t, p);
    }
  }

  lemma NoDateMoved(t: Tables)
    ensures DatesMerged(t, t, map[]) && MediaSupplied(t, t, map[])
  {
    hide IsAnchored, HasDate, Supplies;
    forall o ensures !IsAnchored(t, map[], o) {
      NobodyMoves(t, o);
    }
  }

  lemma NothingMoved(t: Tables, lossless: bool)
    requires Integrity(t)
    ensures Outcome(t, t, map[], lossless)
  {
    assert t.events - {} == t.events;
    hide RsvpsKept, OccasionsKept, LinksKept, PostsKept, DatesMerged, MediaSupplied, Unique, PostsRefer,
         OccasionsRefer, RsvpsRefer, LinksRefer;
    NoDateMoved(t);
    NoRsvpMoved(t);
    NoOccasionMoved(t);
    NoLinkMoved(t, lossless);
    NoPostMoved(t);
  }

  // ----- The media added -----

  /** What collapses in a row have added to the lists adds up: what goes with the later duplicates had got nothing. */
  lemma AddedAddsUp(t0: Tables, t1: Tables, t2: Tables, home: Homes, next: Homes)
    requires Next(t0, t1, t2, home, next)
    requires OccasionsKept(t0, t1, home) && PostsKept(t0, t1, home)
    requires OccasionsKept(t1, t2, next) && PostsKept(t1, t2, next)
    ensures |Added(t0.posts, t2.posts)| == |Added(t0.posts, t1.posts)| + |Added(t1.posts, t2.posts)|
  {
    forall p <- t1.posts | p !in t2.posts ensures t1.posts[p].media == t0.posts[p].media {
      GoneWithNext(t0, t1, t2, home, next, p);
    }
    assert Grown(t0.posts, t1.posts) && Grown(t1.posts, t2.posts);
    hide Next, OccasionsKept, PostsKept;
    AddedInStages(t0.posts, t1.posts, t2.posts);
  }

  lemma GoneWithNext(t0: Tables, t1: Tables, t2: Tables, home: Homes, next: Homes, p: int)
    requires Next(t0, t1, t2, home, next)
    requires OccasionsKept(t0, t1, home) && PostsKept(t0, t1, home) && PostsKept(t1, t2, next)
    requires p in t1.posts && p !in t2.posts
    ensures p in t0.posts && t1.posts[p].media == t0.posts[p].media
  {
    if p in next {
      NextMedia(t0, t1, t2, home, next, p);
    } else {
      assert IsAnchored(t1, next, p);
      forall d <- home ensures !(p == home[d] || t1.occasions[p] == home[d]) {
        KeeperIsLeft(t0, t1, t2, home, next, d);
        EventsThroughout(t0, t1, t2, home, next, home[d]);
      }
      assert !IsKeeping(t1.occasions, home, p);
      hide Next, OccasionsKept;
      SameMedia(t0, t1, home, t1.occasions, p);
    }
  }

  // ----- One group -----

  ghost predicate IsGroup(events: Events, keeper: int, duplicates: seq<int>) {
    && keeper in events && keeper !in duplicates
    && (forall d <- duplicates :: d in events)
    && (forall i, j :: 0 <= i < j < |duplicates| ==> duplicates[i] != duplicates[j])
  }

  lemma GroupHomes(events: Events, keeper: int, duplicates: seq<int>)
    requires IsGroup(events, keeper, duplicates)
    ensures AreHomes(events, AllTo(keeper, duplicates))
  {
  }

  lemma OneKeeper(keeper: int, duplicates: seq<int>)
    ensures forall d :: d in AllTo(keeper, duplicates) <==> d in duplicates
    ensures forall d <- AllTo(keeper, duplicates) :: AllTo(keeper, duplicates)[d] == keeper
  {
  }

  lemma OneMoreHome(keeper: int, duplicates: seq<int>, duplicate: int)
    ensures AllTo(keeper, duplicates) + AllTo(keeper, [duplicate]) == AllTo(keeper, duplicates + [duplicate])
    ensures duplicate !in duplicates ==> AllTo(keeper, duplicates).Keys !! AllTo(keeper, [duplicate]).Keys
  {
    assert (duplicates + [duplicate])[|duplicates|] == duplicate;
    assert forall d :: d in duplicates + [duplicate] <==> d in duplicates || d == duplicate;
  }

  lemma ComposeMerged(t0: Tables, t1: Tables, t2: Tables, keeper: int, duplicates: seq<int>, duplicate: int)
    requires MediaMergedAll(t0.posts, t1.posts, keeper, duplicates)
    requires MediaMergedAll(t1.posts, t2.posts, keeper, [duplicate])
    requires duplicate in t0.posts && duplicate in t1.posts && t1.posts[duplicate].media == t0.posts[duplicate].media
    ensures MediaMergedAll(t0.posts, t2.posts, keeper, duplicates + [duplicate])
  {
    var lists := MediaOf(t0.posts, duplicates);
    assert MediaOf(t0.posts, duplicates + [duplicate]) == lists + [t0.posts[duplicate].media];
    assert (lists + [t0.posts[duplicate].media])[..|lists|] == lists;
    MergedOne(t1.posts, keeper, duplicate);
    hide Merged, MediaOf;
  }

  /** One duplicate more: the outcomes, the media added and the occasions merged add up. */
  lemma CollapsedNext(t0: Tables, t1: Tables, t2: Tables, keeper: int, duplicates: seq<int>, d: int, lossless: bool)
    requires Integrity(t0) && IsGroup(t0.events, keeper, duplicates + [d])
    requires Collapsed(t0, t1, keeper, duplicates, lossless) && Collapsed(t1, t2, keeper, [d], lossless)
    ensures Collapsed(t0, t2, keeper, duplicates + [d], lossless)
    ensures |Added(t0.posts, t2.posts)| == |Added(t0.posts, t1.posts)| + |Added(t1.posts, t2.posts)|
    ensures |MergedAway(t0, t2, AllTo(keeper, duplicates + [d]))|
         == |MergedAway(t0, t1, AllTo(keeper, duplicates))| + |MergedAway(t1, t2, AllTo(keeper, [d]))|
  {
    var home, next := AllTo(keeper, duplicates), AllTo(keeper, [d]);
    OneMoreHome(keeper, duplicates, d);
    GroupHomes(t0.events, keeper, duplicates + [d]);
    AllCover(keeper, duplicates);
    AllCover(keeper, [d]);
    assert (duplicates + [d])[|duplicates|] == d && d !in duplicates;
    hide *;
    CollapsedIs(t0, t1, keeper, duplicates, lossless);
    CollapsedIs(t1, t2, keeper, [d], lossless);
    Compose(t0, t1, t2, home, next, lossless);
    OutcomesAddUp(t0, t1, t2, home, next, lossless);
    OutcomeParts(t0, t1, home, lossless);
    OutcomeParts(t1, t2, next, lossless);
    SingleIs(keeper, d);
    NextMedia(t0, t1, t2, home, next, d);
    ComposeMerged(t0, t1, t2, keeper, duplicates, d);
    ComposeFirst(t0, t1, t2, home, next, duplicates, [d]);
    CollapsedIs(t0, t2, keeper, duplicates + [d], lossless);
  }

  lemma CollapsedIs(t0: Tables, t: Tables, keeper: int, duplicates: seq<int>, lossless: bool)
    ensures Collapsed(t0, t, keeper, duplicates, lossless) <==>
      && Outcome(t0, t, AllTo(keeper, duplicates), lossless)
      && MediaMergedAll(t0.posts, t.posts, keeper, duplicates)
      && FirstKeeps(t0, t, AllTo(keeper, duplicates), duplicates)
  {
  }

  lemma OutcomeParts(t0: Tables, t: Tables, home: Homes, lossless: bool)
    requires Outcome(t0, t, home, lossless)
    ensures Integrity(t) && t.events == t0.events - home.Keys
    ensures RsvpsKept(t0, t, home) && OccasionsKept(t0, t, home) && LinksKept(t0, t, home, lossless)
    ensures PostsKept(t0, t, home) && DatesMerged(t0, t, home) && MediaSupplied(t0, t, home)
  {
    hide Integrity, RsvpsKept, OccasionsKept, LinksKept, PostsKept, DatesMerged, MediaSupplied;
  }

  lemma AllCover(keeper: int, duplicates: seq<int>)
    ensures Covers(duplicates, AllTo(keeper, duplicates))
  {
  }

  lemma OutcomesAddUp(t0: Tables, t1: Tables, t2: Tables, home: Homes, next: Homes, lossless: bool)
    requires Integrity(t0) && AreHomes(t0.events, home + next) && home.Keys !! next.Keys
    requires Outcome(t0, t1, home, lossless) && Outcome(t1, t2, next, lossless)
    ensures |Added(t0.posts, t2.posts)| == |Added(t0.posts, t1.posts)| + |Added(t1.posts, t2.posts)|
    ensures |MergedAway(t0, t2, home + next)| == |MergedAway(t0, t1, home)| + |MergedAway(t1, t2, next)|
    ensures Next(t0, t1, t2, home, next)
  {
    hide *;
    NextFollows(t0, t1, t2, home, next, lossless);
    OutcomeParts(t0, t1, home, lossless);
    OutcomeParts(t1, t2, next, lossless);
    AddedAddsUp(t0, t1, t2, home, next);
    MergedAddUp(t0, t1, t2, home, next);
  }

  /** Before the first collapse. */
  lemma NoneCollapsed(t: Tables, keeper: int, lossless: bool)
    requires Integrity(t) && keeper in t.events
    ensures Collapsed(t, t, keeper, [], lossless) && Added(t.posts, t.posts) == {}
    ensures MergedAway(t, t, AllTo(keeper, [])) == {}
  {
    assert MediaOf(t.posts, []) == [] && AllTo(keeper, []) == map[];
    NothingMoved(t, lossless);
    hide Outcome, IsPreceded;
  }
}
