/** Which of a group's occasions are left, and what that means for what hangs on them. */
module EventDates {
  import opened Wrappers
  import opened EventTables
  import opened EventCollapse
  import opened EventOutcome
  import opened EventGroups

  // ----- The keeper's occasions -----

  /** A date of the keeper's was its own or a duplicate's. */
  lemma DateWas(t0: Tables, t: Tables, home: Homes, keeper: int, anchor: Option<int>, o: int)
    requires OccasionsKept(t0, t, home) && PostsKept(t0, t, home)
    requires KeepsDate(t.posts, t.occasions, keeper, anchor, o)
    ensures o in t0.occasions && KeepsDate(t0.posts, t0.occasions, t0.occasions[o], anchor, o)
    ensures t0.occasions[o] == keeper || (IsAnchored(t0, home, o) && home[t0.occasions[o]] == keeper)
  {
    hide StandsFor, MediaUnited, IsKeeping, ParentKept, Extends;
  }

  lemma DateCameFrom(t0: Tables, t: Tables, home: Homes, keeper: int, anchor: Option<int>)
    requires OccasionsKept(t0, t, home) && PostsKept(t0, t, home)
    requires HasDate(t.posts, t.occasions, keeper, anchor)
    ensures HasDate(t0.posts, t0.occasions, keeper, anchor)
         || exists d <- home :: home[d] == keeper && HasDate(t0.posts, t0.occasions, d, anchor)
  {
    var o :| o in t.occasions && KeepsDate(t.posts, t.occasions, keeper, anchor, o);
    DateWas(t0, t, home, keeper, anchor, o);
    hide OccasionsKept, PostsKept;
    assert HasDate(t0.posts, t0.occasions, t0.occasions[o], anchor);
  }

  /** Where the keeper had occasions for an anchor, they are all it has: duplicates' are merged into them. */
  lemma OwnDatesOnly(t0: Tables, t: Tables, home: Homes, keeper: int, anchor: Option<int>, o: int)
    requires OccasionsKept(t0, t, home) && PostsKept(t0, t, home) && DatesMerged(t0, t, home) && Sound(t)
    requires keeper !in home && HasDate(t0.posts, t0.occasions, keeper, anchor)
    ensures KeepsDate(t.posts, t.occasions, keeper, anchor, o) <==> KeepsDate(t0.posts, t0.occasions, keeper, anchor, o)
  {
    if KeepsDate(t.posts, t.occasions, keeper, anchor, o) {
      DateWas(t0, t, home, keeper, anchor, o);
    }
    hide OccasionsKept, PostsKept, HasDate, Sound;
    if KeepsDate(t0.posts, t0.occasions, keeper, anchor, o) {
      OccasionStays(t0, t, home, o);
    }
  }

  /** Where it had none and a duplicate had, it has exactly one. */
  lemma OneDateLeft(t0: Tables, t: Tables, home: Homes, keeper: int, anchor: Option<int>, d: int)
    requires OccasionsKept(t0, t, home) && PostsKept(t0, t, home) && DatesMerged(t0, t, home)
    requires anchor.Some? && d in home && home[d] == keeper && HasDate(t0.posts, t0.occasions, d, anchor)
    requires !HasDate(t0.posts, t0.occasions, keeper, anchor)
    ensures HasDate(t.posts, t.occasions, keeper, anchor)
    ensures forall o, p ::
      KeepsDate(t.posts, t.occasions, keeper, anchor, o) && KeepsDate(t.posts, t.occasions, keeper, anchor, p)
      ==> o == p
  {
    DateIsKept(t0, t, home, d, anchor);
    forall o, p
      | KeepsDate(t.posts, t.occasions, keeper, anchor, o) && KeepsDate(t.posts, t.occasions, keeper, anchor, p)
      ensures o == p
    {
      DateWas(t0, t, home, keeper, anchor, o);
      DateWas(t0, t, home, keeper, anchor, p);
      hide OccasionsKept, PostsKept, DatesMerged;
      MergedAt(t0, t, home, o, p);
    }
  }

  /** No two of the event's occasions have the same anchor. */
  ghost predicate DistinctDates(t: Tables, event: int) {
    forall anchor: int, o, p ::
      KeepsDate(t.posts, t.occasions, event, Some(anchor), o) && KeepsDate(t.posts, t.occasions, event, Some(anchor), p)
      ==> o == p
  }

  /** An event whose anchors were distinct ends up with distinct anchors, whatever its duplicates brought. */
  lemma StaysDistinct(t0: Tables, t: Tables, home: Homes, event: int)
    requires OccasionsKept(t0, t, home) && PostsKept(t0, t, home) && DatesMerged(t0, t, home) && Sound(t)
    requires event !in home && DistinctDates(t0, event)
    ensures DistinctDates(t, event)
  {
    hide OccasionsKept, PostsKept, DatesMerged, Sound, HasDate;
    forall a: int, o, p
      | KeepsDate(t.posts, t.occasions, event, Some(a), o) && KeepsDate(t.posts, t.occasions, event, Some(a), p)
      ensures o == p
    {
      var anchor := Some(a);
      DateWas(t0, t, home, event, anchor, o);
      DateWas(t0, t, home, event, anchor, p);
      if HasDate(t0.posts, t0.occasions, event, anchor) {
        OwnDatesOnly(t0, t, home, event, anchor, o);
        OwnDatesOnly(t0, t, home, event, anchor, p);
      } else {
        NotItsOwn(t0, event, anchor, o);
        NotItsOwn(t0, event, anchor, p);
        MergedAt(t0, t, home, o, p);
      }
    }
  }

  lemma NotItsOwn(t: Tables, event: int, anchor: Option<int>, o: int)
    requires !HasDate(t.posts, t.occasions, event, anchor)
    ensures !KeepsDate(t.posts, t.occasions, event, anchor, o)
  {
  }

  /** A date that the keeper has once has the media it had and those of all duplicates' occasions for the anchor. */
  lemma DateMedia(t0: Tables, t: Tables, home: Homes, keeper: int, anchor: Option<int>, date: int, m: MediaRef)
    requires OccasionsKept(t0, t, home) && PostsKept(t0, t, home) && MediaSupplied(t0, t, home)
    requires KeepsDate(t.posts, t.occasions, keeper, anchor, date)
    requires forall o <- t.occasions :: KeepsDate(t.posts, t.occasions, keeper, anchor, o) ==> o == date
    ensures date in t0.posts
    ensures m in t.posts[date].media <==> m in t0.posts[date].media || Supplies(t0, home, keeper, anchor, m)
  {
    DateWas(t0, t, home, keeper, anchor, date);
    if Supplies(t0, home, keeper, anchor, m) {
      var o :| o in t0.occasions && IsAnchored(t0, home, o) && home[t0.occasions[o]] == keeper
               && t0.posts[o].anchor == anchor && m in t0.posts[o].media;
      assert exists d <- t.occasions :: StandsFor(t0, t, keeper, o, d);
      var d :| d in t.occasions && StandsFor(t0, t, keeper, o, d);
      assert d == date;
    }
    assert t0.posts[date].media <= t.posts[date].media;
    hide OccasionsKept, PostsKept, Supplies;
  }

  // ----- The occasions left -----

  /** All duplicates are listed. */
  ghost predicate Lists(order: seq<int>, home: Homes) {
    forall d <- home :: d in order
  }

  /** No other occasion of its event has the anchor. */
  ghost predicate IsSole(t: Tables, o: int) {
    && o in t.occasions && o in t.posts
    && forall p <- t.occasions :: KeepsDate(t.posts, t.occasions, t.occasions[o], t.posts[o].anchor, p) ==> p == o
  }

  lemma OneOrTheOther(order: seq<int>, a: int, b: int)
    requires a in order && b in order
    ensures a == b || ComesBefore(order, a, b) || ComesBefore(order, b, a)
  {
    var i :| 0 <= i < |order| && order[i] == a;
    var j :| 0 <= j < |order| && order[j] == b;
  }

  lemma FirstDate(t0: Tables, t: Tables, home: Homes, order: seq<int>, o: int) returns (p: int)
    requires OccasionsKept(t0, t, home) && PostsKept(t0, t, home)
    requires FirstKeeps(t0, t, home, order) && Lists(order, home) && IsAnchored(t0, home, o)
    requires !IsPreceded(t0, home, order, o)
    ensures p in t.occasions && IsSameDate(t0, home, o, p) && t0.occasions[p] == t0.occasions[o]
  {
    var event, anchor := t0.occasions[o], t0.posts[o].anchor;
    var keeper := home[event];
    assert exists date <- t.occasions :: StandsFor(t0, t, keeper, o, date);
    p :| p in t.occasions && StandsFor(t0, t, keeper, o, p);
    DateWas(t0, t, home, keeper, anchor, p);
    hide OccasionsKept, PostsKept, StandsFor, ComesBefore;
    var owner := t0.occasions[p];
    assert HasDate(t0.posts, t0.occasions, owner, anchor);
    assert HasDate(t0.posts, t0.occasions, event, anchor) by {
      assert KeepsDate(t0.posts, t0.occasions, event, anchor, o);
    }
    assert owner != keeper && t0.posts[p].anchor == anchor && !IsPreceded(t0, home, order, p);
    OneOrTheOther(order, event, owner);
    hide HasDate;
  }

  /** A preceded occasion is gone; of the others, each event keeps exactly one for each anchor. */
  lemma SurvivesIff(t0: Tables, t: Tables, home: Homes, order: seq<int>, o: int)
    requires OccasionsKept(t0, t, home) && PostsKept(t0, t, home)
    requires FirstKeeps(t0, t, home, order) && Lists(order, home) && IsAnchored(t0, home, o)
    ensures IsPreceded(t0, home, order, o) ==> o !in t.occasions
    ensures !IsPreceded(t0, home, order, o) ==>
      exists p <- t.occasions :: IsSameDate(t0, home, o, p) && t0.occasions[p] == t0.occasions[o]
    ensures IsSole(t0, o) ==> (o in t.occasions <==> !IsPreceded(t0, home, order, o))
  {
    if !IsPreceded(t0, home, order, o) {
      var p := FirstDate(t0, t, home, order, o);
    }
    hide OccasionsKept, PostsKept, IsPreceded;
  }

  // ----- What hangs on them -----

  /** A cross-post of a duplicate's occasion survives exactly if no event before has the anchor. */
  lemma CrossPostKeptIff(t0: Tables, t: Tables, home: Homes, order: seq<int>, lossless: bool, row: Row)
    requires OccasionsKept(t0, t, home) && PostsKept(t0, t, home) && LinksKept(t0, t, home, lossless)
    requires FirstKeeps(t0, t, home, order) && Lists(order, home)
    requires row in t0.links && IsAnchored(t0, home, t0.links[row].post) && t0.links[row].post !in home
    requires row.relation == GroupPosts || row.relation == UserPosts
    ensures row in t.links <==> t0.links[row].post in t.occasions
    ensures IsSole(t0, t0.links[row].post) ==>
      (row in t.links <==> !IsPreceded(t0, home, order, t0.links[row].post))
  {
    SurvivesIff(t0, t, home, order, t0.links[row].post);
    assert RowKept(t0, t, home, lossless, row);
    hide OccasionsKept, LinksKept, FirstKeeps, IsPreceded, IsSole, KeepsDate;
  }

  /** A reply to one loses its parent exactly if some event before has the anchor. */
  lemma ReplyKeptIff(t0: Tables, t: Tables, home: Homes, order: seq<int>, p: int)
    requires OccasionsKept(t0, t, home) && PostsKept(t0, t, home)
    requires FirstKeeps(t0, t, home, order) && Lists(order, home)
    requires p in t.posts && p in t0.posts && t0.posts[p].parent.Some?
    requires IsAnchored(t0, home, t0.posts[p].parent.value) && t0.posts[p].parent.value !in home
    ensures var o := t0.posts[p].parent.value;
      && t.posts[p].parent == (if o in t.occasions then Some(o) else None)
      && (IsSole(t0, o) ==> t.posts[p].parent == if IsPreceded(t0, home, order, o) then None else Some(o))
  {
    SurvivesIff(t0, t, home, order, t0.posts[p].parent.value);
    hide OccasionsKept, FirstKeeps, IsPreceded, IsSole, MediaUnited, IsKeeping, Extends;
  }
}
