/** The tables a synced event lives in, and the SQL statements the repair tool runs on them. */
module EventTables {
  import opened Wrappers

  datatype DbError = UniqueViolation | ForeignKeyViolation | NotFound | TransactionAborted | Unavailable

  type QueryResult<T> = Result<T, DbError>

  type MediaRef = Option<int>

  /** A row of `posts`; `anchor` is its `sync_source_recurrence_anchor`. */
  datatype Post = Post(parent: Option<int>, media: seq<MediaRef>, anchor: Option<int>, synced: bool)

  /** A row of `events`: the UID in its `info`, under the key before and after the renaming. */
  datatype Event = Event(oldUid: Option<string>, uid: Option<string>, createdAt: int)

  /** The tables whose keys pair a post with something else: a group, a user or a destination. */
  datatype Relation = OccasionDestinations | GroupPosts | UserPosts | PostDestinations
  datatype Row = Row(relation: Relation, id: int)
  datatype Link = Link(other: int, post: int)

  type Posts = map<int, Post>
  type Events = map<int, Event>
  /** Occasions and events are keyed by their posts; an occasion maps to its event. */
  type Occasions = map<int, int>
  /** An RSVP maps to its occasion. */
  type Rsvps = map<int, int>
  type Links = map<Row, Link>

  datatype Tables = Tables(posts: Posts, events: Events, occasions: Occasions, rsvps: Rsvps, links: Links)

  // ----- What the schema guarantees -----

  /** Primary keys and unique indexes: one row for each pair. */
  ghost predicate Unique(links: Links) {
    forall a <- links, b <- links :: a.relation == b.relation && links[a] == links[b] ==> a == b
  }

  /** Foreign keys. */
  ghost predicate PostsRefer(posts: Posts) {
    forall p <- posts :: posts[p].parent.Some? ==> posts[p].parent.value in posts
  }

  ghost predicate OccasionsRefer(posts: Posts, events: Events, occasions: Occasions) {
    && (forall e <- events :: e in posts)
    && (forall o <- occasions :: o in posts && occasions[o] in events)
  }

  /** Events and occasions have posts of their own. */
  ghost predicate Separate(events: Events, occasions: Occasions) {
    forall o <- occasions :: o !in events
  }

  ghost predicate RsvpsRefer(occasions: Occasions, rsvps: Rsvps) {
    forall r <- rsvps :: rsvps[r] in occasions
  }

  ghost predicate LinksRefer(posts: Posts, occasions: Occasions, links: Links) {
    forall row <- links ::
      links[row].post in posts && (row.relation == OccasionDestinations ==> links[row].post in occasions)
  }

  ghost predicate Integrity(t: Tables) {
    && Unique(t.links)
    && PostsRefer(t.posts)
    && OccasionsRefer(t.posts, t.events, t.occasions)
    && Separate(t.events, t.occasions)
    && RsvpsRefer(t.occasions, t.rsvps)
    && LinksRefer(t.posts, t.occasions, t.links)
  }

  // ----- Updates -----

  function MovedRsvps(rsvps: Rsvps, from: int, to: int): Rsvps {
    map r <- rsvps :: if rsvps[r] == from then to else rsvps[r]
  }

  function MovedReplies(posts: Posts, from: int, to: int): Posts {
    map p <- posts :: if posts[p].parent == Some(from) then posts[p].(parent := Some(to)) else posts[p]
  }

  predicate IsOn(links: Links, row: Row, relation: Relation, post: int) {
    row in links && row.relation == relation && links[row].post == post
  }

  function RowsOn(links: Links, relation: Relation, post: int): set<Row> {
    set row <- links | row.relation == relation && links[row].post == post
  }

  function MovedLinks(links: Links, relation: Relation, from: int, to: int): Links {
    map row <- links ::
      if row.relation == relation && links[row].post == from then links[row].(post := to) else links[row]
  }

  function WithoutLinks(links: Links, relation: Relation, post: int): Links {
    map row <- links | !(row.relation == relation && links[row].post == post) :: links[row]
  }

  /** Both posts have a row with the same other half. */
  predicate Collides(links: Links, relation: Relation, from: int, to: int) {
    exists a <- links, b <- links ::
      IsOn(links, a, relation, from) && IsOn(links, b, relation, to) && links[a].other == links[b].other
  }

  /** `UPDATE ... SET post_id = to WHERE post_id = from` under the table's uniqueness constraint. */
  function MoveLinks(t: Tables, relation: Relation, from: int, to: int): QueryResult<Tables> {
    if Collides(t.links, relation, from, to) then Err(UniqueViolation)
    else Ok(t.(links := MovedLinks(t.links, relation, from, to)))
  }

  /** The constraint is exactly what the collision test says. */
  lemma MoveLinksUniqueIff(links: Links, relation: Relation, from: int, to: int)
    requires Unique(links) && from != to
    ensures Unique(MovedLinks(links, relation, from, to)) <==> !Collides(links, relation, from, to)
  {
    var moved := MovedLinks(links, relation, from, to);
    if Collides(links, relation, from, to) {
      var a, b :| a in links && b in links && IsOn(links, a, relation, from) && IsOn(links, b, relation, to)
                  && links[a].other == links[b].other;
      assert moved[a] == moved[b];
    } else {
      forall a <- moved, b <- moved | a.relation == b.relation && moved[a] == moved[b] ensures a == b {
        if IsOn(links, a, relation, from) && !IsOn(links, b, relation, from) {
          assert IsOn(links, b, relation, to);
        } else if IsOn(links, b, relation, from) && !IsOn(links, a, relation, from) {
          assert IsOn(links, a, relation, to);
        } else {
          assert links[a] == links[b];
        }
      }
    }
  }

  // ----- Deleting a post -----

  /** The occasions a post's deletion cascades to: its own, or its event's. */
  function CascadedOccasions(occasions: Occasions, post: int): set<int> {
    set o <- occasions | o == post || occasions[o] == post
  }

  /** Rows of the sync-out tables keep what they point at from being deleted. */
  predicate Restricted(t: Tables, post: int) {
    exists row <- t.links ::
      || IsOn(t.links, row, PostDestinations, post)
      || (row.relation == OccasionDestinations && t.links[row].post in CascadedOccasions(t.occasions, post))
  }

  function WithoutPost(posts: Posts, post: int): Posts {
    map p <- posts | p != post :: if posts[p].parent == Some(post) then posts[p].(parent := None) else posts[p]
  }

  function WithoutRsvps(rsvps: Rsvps, occasions: set<int>): Rsvps {
    map r <- rsvps | rsvps[r] !in occasions :: rsvps[r]
  }

  function WithoutPostLinks(links: Links, post: int): Links {
    map row <- links | !((row.relation == GroupPosts || row.relation == UserPosts) && links[row].post == post) ::
      links[row]
  }

  function Deleted(t: Tables, post: int): Tables {
    var gone := CascadedOccasions(t.occasions, post);
    Tables(WithoutPost(t.posts, post), t.events - {post}, t.occasions - gone,
           WithoutRsvps(t.rsvps, gone), WithoutPostLinks(t.links, post))
  }

  function DeletePost(t: Tables, post: int): QueryResult<Tables> {
    if Restricted(t, post) then Err(ForeignKeyViolation) else Ok(Deleted(t, post))
  }

  /** The cascades and the restrictions together keep every reference whole. */
  lemma DeleteKeepsIntegrity(t: Tables, post: int)
    requires Integrity(t) && !Restricted(t, post)
    ensures Integrity(Deleted(t, post))
  {
    var t' := Deleted(t, post);
    assert Unique(t'.links) by {
      hide OccasionsRefer, PostsRefer, RsvpsRefer, LinksRefer, Separate;
    }
    assert LinksRefer(t'.posts, t'.occasions, t'.links) by {
      hide OccasionsRefer, PostsRefer, RsvpsRefer, Unique, Separate;
      forall row <- t'.links
        ensures t'.links[row].post in t'.posts
        ensures row.relation == OccasionDestinations ==> t'.links[row].post in t'.occasions
      {
        assert !IsOn(t.links, row, PostDestinations, post);
        assert row.relation == OccasionDestinations ==>
          t.links[row].post !in CascadedOccasions(t.occasions, post);
      }
    }
    hide Unique, LinksRefer;
  }

  // ----- Media -----

  /** `list` with more behind it, each of that new and there once. */
  ghost predicate Extends(list: seq<MediaRef>, longer: seq<MediaRef>) {
    list <= longer && forall i, j :: |list| <= i < |longer| && 0 <= j < i ==> longer[i] != longer[j]
  }

  lemma ExtendsTrans(a: seq<MediaRef>, b: seq<MediaRef>, c: seq<MediaRef>)
    requires Extends(a, b) && Extends(b, c)
    ensures Extends(a, c)
  {
    assert forall i :: 0 <= i < |b| ==> c[i] == b[i];
  }

  /** The merging loop: what the first list lacks of the second, in order and once. */
  function Merged(keeper: seq<MediaRef>, duplicate: seq<MediaRef>): (merged: seq<MediaRef>)
    ensures Extends(keeper, merged)
    ensures forall m :: m in merged <==> m in keeper || m in duplicate
  {
    if duplicate == [] then keeper
    else
      var last := duplicate[|duplicate| - 1];
      assert duplicate == duplicate[..|duplicate| - 1] + [last];
      var merged := Merged(keeper, duplicate[..|duplicate| - 1]);
      if last in merged then merged else merged + [last]
  }

  /** So what is added keeps the order of the second list. */
  lemma MergedInOrder(keeper: seq<MediaRef>, duplicate: seq<MediaRef>, m: MediaRef)
    ensures Merged(keeper, duplicate + [m])
         == if m in keeper || m in duplicate then Merged(keeper, duplicate) else Merged(keeper, duplicate) + [m]
    ensures Merged(keeper, []) == keeper
  {
    assert (duplicate + [m])[..|duplicate|] == duplicate;
  }

  /** Merging list after list. */
  function MergedAll(keeper: seq<MediaRef>, duplicates: seq<seq<MediaRef>>): (merged: seq<MediaRef>)
    ensures Extends(keeper, merged)
    ensures forall m :: m in merged <==> m in keeper || exists d <- duplicates :: m in d
  {
    if duplicates == [] then keeper
    else
      var last := duplicates[|duplicates| - 1];
      assert duplicates == duplicates[..|duplicates| - 1] + [last];
      Merged(MergedAll(keeper, duplicates[..|duplicates| - 1]), last)
  }

  /** The new ids are the union's less the keeper's, so their number does not depend on the lists' order. */
  lemma NewMedia(keeper: seq<MediaRef>, duplicates: seq<seq<MediaRef>>)
    ensures var merged := MergedAll(keeper, duplicates);
      |merged| - |keeper| == |(set m <- merged) - (set m <- keeper)|
  {
    var merged := MergedAll(keeper, duplicates);
    var added := merged[|keeper|..];
    assert merged == keeper + added;
    DistinctCount(added);
    assert (set m <- merged) - (set m <- keeper) == set m <- added;
  }

  lemma {:induction false} DistinctCount<T>(s: seq<T>)
    requires forall i, j :: 0 <= j < i < |s| ==> s[i] != s[j]
    ensures |(set x <- s)| == |s|
  {
    if s != [] {
      var front, last := s[..|s| - 1], s[|s| - 1];
      DistinctCount(front);
      assert s == front + [last];
      assert (set x <- s) == (set x <- front) + {last};
    }
  }

  /** The places in the lists of media that were not there before. */
  ghost function Added(before: Posts, now: Posts): set<(int, int)> {
    set p, i | p in now && p in before && |before[p].media| <= i < |now[p].media| :: (p, i)
  }

  lemma {:induction false} PlacesCount(p: int, lo: nat, hi: nat)
    requires lo <= hi
    ensures |(set i | lo <= i < hi :: (p, i))| == hi - lo
    decreases hi
  {
    var places := set i | lo <= i < hi :: (p, i);
    if lo < hi {
      PlacesCount(p, lo, hi - 1);
      var fewer := set i | lo <= i < hi - 1 :: (p, i);
      assert places == fewer + {(p, hi - 1)};
    } else {
      assert places == {};
    }
  }

  lemma AddedByOne(posts: Posts, posts': Posts, p: int)
    requires p in posts && p in posts' && |posts[p].media| <= |posts'[p].media|
    requires forall q <- posts' :: q in posts && (q != p ==> posts'[q].media == posts[q].media)
    ensures |Added(posts, posts')| == |posts'[p].media| - |posts[p].media|
  {
    var lo, hi := |posts[p].media|, |posts'[p].media|;
    PlacesCount(p, lo, hi);
    assert Added(posts, posts') == set i | lo <= i < hi :: (p, i);
  }

  /** Lists that have grown. */
  ghost predicate Grown(posts: Posts, posts': Posts) {
    forall p <- posts' :: p in posts && |posts[p].media| <= |posts'[p].media|
  }

  lemma IsAdded(before: Posts, now: Posts, p: int, i: int)
    ensures (p, i) in Added(before, now) <==> p in now && p in before && |before[p].media| <= i < |now[p].media|
  {
  }

  /** What is added in two stages adds up, if what goes in the second had got nothing in the first. */
  lemma AddedInStages(posts0: Posts, posts1: Posts, posts2: Posts)
    requires Grown(posts0, posts1) && Grown(posts1, posts2)
    requires forall p <- posts1 :: p !in posts2 ==> posts1[p].media == posts0[p].media
    ensures |Added(posts0, posts2)| == |Added(posts0, posts1)| + |Added(posts1, posts2)|
  {
    hide Added;
    var first, second := Added(posts0, posts1), Added(posts1, posts2);
    forall place
      ensures place in Added(posts0, posts2) <==> place in first || place in second
      ensures !(place in first && place in second)
    {
      var (p, i) := place;
      IsAdded(posts0, posts2, p, i);
      IsAdded(posts0, posts1, p, i);
      IsAdded(posts1, posts2, p, i);
    }
    assert Added(posts0, posts2) == first + second && first !! second;
  }

  /** Merging one post, which had got nothing, into another. */
  lemma MergingAdds(before: Posts, now: Posts, merged: Posts, p: int, gone: int)
    requires Grown(before, now) && p in now && gone in now && now[gone].media == before[gone].media
    requires merged.Keys == now.Keys - {gone} && p in merged && |now[p].media| <= |merged[p].media|
    requires forall q <- merged :: q != p ==> merged[q].media == now[q].media
    ensures |Added(before, merged)| == |Added(before, now)| + |merged[p].media| - |now[p].media|
  {
    AddedByOne(now, merged, p);
    hide Added;
    AddedInStages(before, now, merged);
  }
}
