/** The time-limited cache in front of federated link previews. */
module LinkPreviewCache {
  import opened Wrappers

  const MAX_ENTRIES: nat := 500

  /** What is stored for a key: until when, and what. */
  datatype Entry<V> = Entry(expiresAt: int, value: V)
  type Entries<V> = map<string, Entry<V>>

  function Answer<V>(entries: Entries<V>, key: string, now: int): Option<V> {
    if key in entries && entries[key].expiresAt > now then Some(entries[key].value) else None
  }

  function Unexpired<V>(entries: Entries<V>, now: int): Entries<V> {
    map key <- entries | entries[key].expiresAt > now :: entries[key]
  }

  /** A put finds the cache full of entries that are all still good. */
  predicate Clears<V>(entries: Entries<V>, now: int) {
    |entries| >= MAX_ENTRIES && |Unexpired(entries, now)| >= MAX_ENTRIES
  }

  function Room<V>(entries: Entries<V>, now: int): Entries<V> {
    if |entries| < MAX_ENTRIES then entries
    else if Clears(entries, now) then map[]
    else Unexpired(entries, now)
  }

  // ----- Gets change nothing: the state is what the puts so far have made it -----

  datatype Insertion<V> = Insertion(key: string, value: V, ttl: nat, now: int)

  function Run<V>(puts: seq<Insertion<V>>): Entries<V> {
    if puts == [] then map[]
    else
      var last := puts[|puts| - 1];
      Room(Run(puts[..|puts| - 1]), last.now)[last.key := Entry(last.now + last.ttl, last.value)]
  }

  /** A map without a bound that only ever remembers the last put for each key. */
  function LastPuts<V>(puts: seq<Insertion<V>>): Entries<V> {
    if puts == [] then map[]
    else
      var last := puts[|puts| - 1];
      LastPuts(puts[..|puts| - 1])[last.key := Entry(last.now + last.ttl, last.value)]
  }

  /** The puts from the last one on that cleared the cache. */
  function SinceClear<V>(puts: seq<Insertion<V>>): seq<Insertion<V>> {
    if puts == [] then []
    else
      var before, last := puts[..|puts| - 1], puts[|puts| - 1];
      if Clears(Run(before), last.now) then [last] else SinceClear(before) + [last]
  }

  predicate Chronological<V>(puts: seq<Insertion<V>>) {
    forall i, j :: 0 <= i < j < |puts| ==> puts[i].now <= puts[j].now
  }

  predicate NoLaterThan<V>(puts: seq<Insertion<V>>, now: int) {
    forall i :: 0 <= i < |puts| ==> puts[i].now <= now
  }

  lemma KeysBounded<V>(entries: Entries<V>, key: string, entry: Entry<V>)
    ensures |entries[key := entry]| <= |entries| + 1
  {
    assert entries[key := entry].Keys == entries.Keys + {key};
  }

  lemma UnexpiredFewer<V>(entries: Entries<V>, now: int)
    ensures |Unexpired(entries, now)| <= |entries|
  {
    var kept := Unexpired(entries, now);
    assert kept.Keys <= entries.Keys;
    SubsetSize(kept.Keys, entries.Keys);
  }

  lemma {:induction false} SubsetSize<T>(a: set<T>, b: set<T>)
    requires a <= b
    ensures |a| <= |b|
    decreases |a|
  {
    assert |b| == |a| + |b - a| by {
      assert b == a + (b - a);
    }
  }

  /** The cache never outgrows its bound, clock or no clock. */
  lemma {:induction false} NeverTooLarge<V>(puts: seq<Insertion<V>>)
    ensures |Run(puts)| <= 500
  {
    if puts != [] {
      var before, last := puts[..|puts| - 1], puts[|puts| - 1];
      NeverTooLarge(before);
      KeysBounded(Room(Run(before), last.now), last.key, Entry(last.now + last.ttl, last.value));
    }
  }

  /** Every entry is the last put for its key. */
  lemma {:induction false} EntriesAreLastPuts<V>(puts: seq<Insertion<V>>, key: string)
    requires key in Run(puts)
    ensures key in LastPuts(puts) && Run(puts)[key] == LastPuts(puts)[key]
  {
    var before, last := puts[..|puts| - 1], puts[|puts| - 1];
    if key != last.key {
      EntriesAreLastPuts(before, key);
    }
  }

  /** A hit is the value last put for the key and has not expired. */
  lemma HitIsLastPut<V>(puts: seq<Insertion<V>>, key: string, now: int)
    requires Answer(Run(puts), key, now).Some?
    ensures key in LastPuts(puts)
    ensures Answer(Run(puts), key, now).value == LastPuts(puts)[key].value && LastPuts(puts)[key].expiresAt > now
  {
    EntriesAreLastPuts(puts, key);
  }

  lemma ClearStep<V>(before: seq<Insertion<V>>, last: Insertion<V>)
    requires Clears(Run(before), last.now)
    ensures Run(before + [last]) == LastPuts(SinceClear(before + [last]))
  {
    assert (before + [last])[..|before|] == before;
    assert Run(before + [last]) == map[last.key := Entry(last.now + last.ttl, last.value)] == LastPuts([last]);
  }

  lemma KeepStep<V>(before: seq<Insertion<V>>, last: Insertion<V>)
    requires !Clears(Run(before), last.now)
    ensures var entry := Entry(last.now + last.ttl, last.value);
      && Run(before + [last]) == Room(Run(before), last.now)[last.key := entry]
      && LastPuts(SinceClear(before + [last])) == LastPuts(SinceClear(before))[last.key := entry]
  {
    hide *;
    RunStep(before, last);
    SinceStep(before, last);
    LastStep(SinceClear(before), last);
  }

  lemma RunStep<V>(before: seq<Insertion<V>>, last: Insertion<V>)
    ensures Run(before + [last]) == Room(Run(before), last.now)[last.key := Entry(last.now + last.ttl, last.value)]
  {
    hide Room;
    assert (before + [last])[..|before|] == before;
  }

  lemma LastStep<V>(before: seq<Insertion<V>>, last: Insertion<V>)
    ensures LastPuts(before + [last]) == LastPuts(before)[last.key := Entry(last.now + last.ttl, last.value)]
  {
    assert (before + [last])[..|before|] == before;
  }

  lemma SinceStep<V>(before: seq<Insertion<V>>, last: Insertion<V>)
    requires !Clears(Run(before), last.now)
    ensures SinceClear(before + [last]) == SinceClear(before) + [last]
  {
    hide Clears, Run;
    assert (before + [last])[..|before|] == before;
  }

  /** With a clock that does not run backwards, the cache holds what an unbounded map fed since the last clearing
      holds, give or take entries that have expired. */
  lemma {:induction false} UnboundedSinceClear<V>(puts: seq<Insertion<V>>, now: int)
    requires Chronological(puts) && NoLaterThan(puts, now)
    ensures Unexpired(Run(puts), now) == Unexpired(LastPuts(SinceClear(puts)), now)
  {
    if puts != [] {
      var before, last := puts[..|puts| - 1], puts[|puts| - 1];
      assert puts == before + [last];
      UnboundedSinceClear(before, now);
      hide Clears, Run, LastPuts, SinceClear, Unexpired, Room;
      if Clears(Run(before), last.now) {
        ClearStep(before, last);
      } else {
        KeepStep(before, last);
        RoomUnexpired(Run(before), last.now, now);
        PutUnexpired(Room(Run(before), last.now), LastPuts(SinceClear(before)),
                     last.key, Entry(last.now + last.ttl, last.value), now);
      }
    }
  }

  lemma RoomUnexpired<V>(entries: Entries<V>, earlier: int, now: int)
    requires earlier <= now && !Clears(entries, earlier)
    ensures Unexpired(Room(entries, earlier), now) == Unexpired(entries, now)
  {
  }

  lemma PutUnexpired<V>(a: Entries<V>, b: Entries<V>, key: string, entry: Entry<V>, now: int)
    requires Unexpired(a, now) == Unexpired(b, now)
    ensures Unexpired(a[key := entry], now) == Unexpired(b[key := entry], now)
  {
    var a', b' := Unexpired(a[key := entry], now), Unexpired(b[key := entry], now);
    forall k ensures k in a' <==> k in b' {
      assert k in Unexpired(a, now) <==> k in Unexpired(b, now);
    }
    forall k <- a' ensures a'[k] == b'[k] {
      assert k in Unexpired(a, now) ==> Unexpired(a, now)[k] == Unexpired(b, now)[k];
    }
  }

  /** So it answers as that map does, and as if it had no bound at all while no put has cleared it. */
  lemma AnswersAsUnbounded<V>(puts: seq<Insertion<V>>, key: string, now: int)
    requires Chronological(puts) && NoLaterThan(puts, now)
    ensures Answer(Run(puts), key, now) == Answer(LastPuts(SinceClear(puts)), key, now)
    ensures SinceClear(puts) == puts ==> Answer(Run(puts), key, now) == Answer(LastPuts(puts), key, now)
  {
    UnboundedSinceClear(puts, now);
    var a, b := Run(puts), LastPuts(SinceClear(puts));
    assert key in Unexpired(a, now) <==> key in Unexpired(b, now);
    assert key in Unexpired(a, now) ==> Unexpired(a, now)[key] == Unexpired(b, now)[key];
  }

  /** And a put clears it exactly when that map has 500 entries that have not expired. */
  lemma ClearsIff<V>(puts: seq<Insertion<V>>, now: int)
    requires Chronological(puts) && NoLaterThan(puts, now)
    ensures var unbounded := LastPuts(SinceClear(puts));
      Clears(Run(puts), now) <==> |set key <- unbounded | unbounded[key].expiresAt > now| >= 500
  {
    UnboundedSinceClear(puts, now);
    UnexpiredFewer(Run(puts), now);
    var unbounded := LastPuts(SinceClear(puts));
    assert Unexpired(unbounded, now).Keys == set key <- unbounded | unbounded[key].expiresAt > now;
  }

  /** An entry survives a put if there are fewer than 500, or if it has not expired and those are fewer. */
  lemma RoomHolds<V>(entries: Entries<V>, now: int, key: string)
    ensures key in Room(entries, now) <==>
      key in entries
      && (|entries| < 500
          || (entries[key].expiresAt > now && |set k <- entries | entries[k].expiresAt > now| < 500))
    ensures key in Room(entries, now) ==> Room(entries, now)[key] == entries[key]
  {
    assert Unexpired(entries, now).Keys == set k <- entries | entries[k].expiresAt > now;
  }

  // ----- The cache itself -----

  class TtlCache<V(==)> {
    var entries: Entries<V>
    /** Every put there has been. */
    ghost var puts: seq<Insertion<V>>

    ghost predicate Valid()
      reads this
    {
      entries == Run(puts)
    }

    constructor ()
      ensures Valid() && puts == []
    {
      entries, puts := map[], [];
    }

    /** A hit is what was last put for the key and has not expired, whatever the clock does; and with a clock that does
        not run backwards there is a hit exactly if there would be one in an unbounded map of the puts since the last
        clearing. */
    method Get(key: string, now: int) returns (value: Option<V>)
      requires Valid()
      ensures value.Some? ==>
        key in LastPuts(puts) && LastPuts(puts)[key].expiresAt > now && value.value == LastPuts(puts)[key].value
      ensures Chronological(puts) && NoLaterThan(puts, now) ==>
        (value.Some? <==> key in LastPuts(SinceClear(puts)) && LastPuts(SinceClear(puts))[key].expiresAt > now)
      ensures value == Answer(Run(puts), key, now)
    {
      value := if key in entries && entries[key].expiresAt > now then Some(entries[key].value) else None;
      if value.Some? {
        HitIsLastPut(puts, key, now);
      }
      if Chronological(puts) && NoLaterThan(puts, now) {
        AnswersAsUnbounded(puts, key, now);
      }
    }

    method Put(key: string, value: V, ttl: nat, now: int)
      requires Valid()
      modifies this
      ensures Valid() && puts == old(puts) + [Insertion(key, value, ttl, now)]
      ensures |entries| <= 500
      ensures key in entries && entries[key] == Entry(now + ttl, value)
      ensures forall k: string | k != key ::
        && (k in entries <==>
              k in old(entries)
              && (|old(entries)| < 500
                  || (old(entries)[k].expiresAt > now
                      && |set j <- old(entries) | old(entries)[j].expiresAt > now| < 500)))
        && (k in entries ==> entries[k] == old(entries)[k])
    {
      ghost var last := Insertion(key, value, ttl, now);
      RunStep(puts, last);
      NeverTooLarge(puts + [last]);
      puts := puts + [last];
      if |entries| >= MAX_ENTRIES {
        entries := map k <- entries | entries[k].expiresAt > now :: entries[k];
        if |entries| >= MAX_ENTRIES {
          entries := map[];
        }
      }
      assert entries == Room(old(entries), now);
      forall k: string ensures k in entries <==> k in Room(old(entries), now) {
        RoomHolds(old(entries), now, k);
      }
      entries := entries[key := Entry(now + ttl, value)];
    }
  }
}
