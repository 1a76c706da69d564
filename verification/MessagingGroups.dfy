/** `find_or_create_messaging_group`: one group per set of participants. */
module MessagingGroups {

  predicate IsSorted(s: seq<int>) {
    forall i, j :: 0 <= i < j < |s| ==> s[i] <= s[j]
  }

  /** Sorted and without duplicates: what a group row may hold. */
  predicate Strict(s: seq<int>) {
    forall i, j :: 0 <= i < j < |s| ==> s[i] < s[j]
  }

  ghost predicate SameMembers(a: seq<int>, b: seq<int>) {
    forall id :: id in a <==> id in b
  }

  /** The table: ids are handed out in order, participant lists are unique. */
  class MessagingGroupTable {
    var rows: seq<seq<int>>

    ghost predicate Valid()
      reads this
    {
      && (forall i :: 0 <= i < |rows| ==> Strict(rows[i]))
      && (forall i, j :: 0 <= i < j < |rows| ==> rows[i] != rows[j])
    }

    constructor ()
      ensures Valid() && rows == []
    {
      rows := [];
    }

    /** `INSERT ... RETURNING id` under the unique index. */
    method Insert(sortedUserIds: seq<int>) returns (inserted: bool, id: nat)
      requires Valid() && Strict(sortedUserIds)
      modifies this
      ensures Valid()
      ensures inserted <==> sortedUserIds !in old(rows)
      ensures rows == if inserted then old(rows) + [sortedUserIds] else old(rows)
      ensures inserted ==> id == |old(rows)|
    {
      if sortedUserIds in rows {
        return false, 0;
      }
      inserted, id := true, |rows|;
      rows := rows + [sortedUserIds];
    }

    method Select(sortedUserIds: seq<int>) returns (id: nat)
      requires sortedUserIds in rows
      ensures id < |rows| && rows[id] == sortedUserIds
    {
      id := 0;
      while rows[id] != sortedUserIds
        invariant id < |rows| && sortedUserIds !in rows[..id]
        decreases |rows| - id
      {
        id := id + 1;
      }
    }

    /** The group returned is for exactly these participants: the one there was, or one added for them. */
    method FindOrCreate(userIds: seq<int>) returns (id: nat)
      requires Valid()
      modifies this
      ensures Valid() && old(rows) <= rows
      ensures id < |rows| && SameMembers(rows[id], userIds)
      ensures if exists i :: 0 <= i < |old(rows)| && SameMembers(old(rows)[i], userIds) then rows == old(rows)
              else |rows| == |old(rows)| + 1 && id == |old(rows)|
    {
      var sorted := Sort(userIds);
      PermutationHasSameMembers(sorted, userIds);
      var sortedUserIds := Dedup(sorted);
      PresentIff(rows, sortedUserIds, userIds);
      var inserted;
      inserted, id := Insert(sortedUserIds);
      if !inserted {
        id := Select(sortedUserIds);
      }
    }

    /** Hence two answers, however many calls apart, are the same group exactly for the same participants. */
    lemma SameGroupIff(userIds: seq<int>, id: nat, otherIds: seq<int>, otherId: nat)
      requires Valid() && id < |rows| && otherId < |rows|
      requires SameMembers(rows[id], userIds) && SameMembers(rows[otherId], otherIds)
      ensures id == otherId <==> SameMembers(userIds, otherIds)
    {
      if SameMembers(userIds, otherIds) {
        forall x ensures x in rows[id] <==> x in rows[otherId] {
          assert x in userIds <==> x in otherIds;
        }
        StrictIsCanonical(rows[id], rows[otherId]);
      } else {
        var x :| x in userIds <==> x !in otherIds;
        assert x in rows[id] <==> x !in rows[otherId];
      }
    }
  }

  lemma LastIsLargest(s: seq<int>)
    requires Strict(s) && s != []
    ensures s[|s| - 1] in s && forall id <- s :: id <= s[|s| - 1]
    ensures Strict(s[..|s| - 1]) && forall id :: id in s[..|s| - 1] <==> id in s && id != s[|s| - 1]
  {
    var front, last := s[..|s| - 1], s[|s| - 1];
    assert s == front + [last];
    assert forall id <- front :: id < last;
  }

  /** A set has one strictly sorted list. */
  lemma {:induction false} StrictIsCanonical(a: seq<int>, b: seq<int>)
    requires Strict(a) && Strict(b) && SameMembers(a, b)
    ensures a == b
  {
    assert (a != [] ==> a[0] in a) && (b != [] ==> b[0] in b);
    if a != [] && b != [] {
      LastIsLargest(a);
      LastIsLargest(b);
      hide Strict;
      var fronta, frontb, last := a[..|a| - 1], b[..|b| - 1], a[|a| - 1];
      assert last == b[|b| - 1];
      forall id ensures id in fronta <==> id in frontb {
        assert id in a <==> id in b;
      }
      StrictIsCanonical(fronta, frontb);
      assert a == fronta + [last] && b == frontb + [last];
    }
  }

  lemma PresentIff(rows: seq<seq<int>>, sorted: seq<int>, userIds: seq<int>)
    requires (forall i :: 0 <= i < |rows| ==> Strict(rows[i])) && Strict(sorted) && SameMembers(sorted, userIds)
    ensures sorted in rows <==> exists i :: 0 <= i < |rows| && SameMembers(rows[i], userIds)
  {
    hide Strict;
    if i :| 0 <= i < |rows| && SameMembers(rows[i], userIds) {
      StrictIsCanonical(rows[i], sorted);
    }
  }

  lemma Spliced(s: seq<int>, k: nat, x: int)
    requires k <= |s|
    ensures multiset(s[..k] + [x] + s[k..]) == multiset(s + [x])
  {
    assert s == s[..k] + s[k..];
  }

  lemma SplicedSorted(s: seq<int>, k: nat, x: int)
    requires k <= |s| && IsSorted(s)
    requires forall j :: 0 <= j < k ==> s[j] <= x
    requires forall j :: k <= j < |s| ==> s[j] > x
    ensures IsSorted(s[..k] + [x] + s[k..])
  {
  }

  /** `sort_unstable`, by insertion. */
  method Sort(userIds: seq<int>) returns (sorted: seq<int>)
    ensures IsSorted(sorted) && multiset(sorted) == multiset(userIds)
  {
    sorted := [];
    for i := 0 to |userIds|
      invariant IsSorted(sorted) && multiset(sorted) == multiset(userIds[..i])
    {
      var k := |sorted|;
      while k > 0 && sorted[k - 1] > userIds[i]
        invariant 0 <= k <= |sorted| && forall j :: k <= j < |sorted| ==> sorted[j] > userIds[i]
      {
        k := k - 1;
      }
      assert userIds[..i + 1] == userIds[..i] + [userIds[i]];
      Spliced(sorted, k, userIds[i]);
      SplicedSorted(sorted, k, userIds[i]);
      sorted := sorted[..k] + [userIds[i]] + sorted[k..];
    }
    assert userIds[..|userIds|] == userIds;
  }

  lemma PermutationHasSameMembers(a: seq<int>, b: seq<int>)
    requires multiset(a) == multiset(b)
    ensures SameMembers(a, b)
  {
    assert forall id :: id in a <==> id in multiset(a);
    assert forall id :: id in b <==> id in multiset(b);
  }

  /** `dedup`: drops each element equal to the one kept before it. */
  method Dedup(sorted: seq<int>) returns (kept: seq<int>)
    requires IsSorted(sorted)
    ensures Strict(kept) && SameMembers(kept, sorted)
  {
    kept := [];
    for i := 0 to |sorted|
      invariant Strict(kept) && SameMembers(kept, sorted[..i])
      invariant kept != [] ==> i > 0 && kept[|kept| - 1] == sorted[i - 1]
      invariant kept == [] ==> i == 0
    {
      assert sorted[..i + 1] == sorted[..i] + [sorted[i]];
      if kept == [] || kept[|kept| - 1] != sorted[i] {
        assert forall id <- kept :: id < sorted[i] by {
          if kept != [] {
            LastIsLargest(kept);
          }
        }
        kept := kept + [sorted[i]];
      }
    }
    assert sorted[..|sorted|] == sorted;
  }
}
