/** The heading walk of the documentation sidebar: one pass with a stack nests every heading. */
module HeadingTree {
  import opened Text

  type Level = l: int | 1 <= l <= 6 witness 1

  /** An element of the page, as the walk tells them apart. */
  datatype Node = Heading(level: Level) | Other

  /** An item of the sidebar's root list: one that was there before, or the one of the n-th heading walked. */
  datatype Item = Present(text: string) | Walked(n: nat)

  /** A stack entry; the root list's entry has no heading of its own. */
  datatype Entry = Entry(level: Level, heading: int)

  // ----- What is walked -----

  /** The levels of the headings up to the next top-level section. */
  function Levels(nodes: seq<Node>): seq<Level> {
    if nodes == [] then []
    else
      match nodes[0]
      case Other => Levels(nodes[1..])
      case Heading(level) => if level <= 2 then [] else [level] + Levels(nodes[1..])
  }

  /** Each heading counts up to the first of level 1 or 2, which ends the section. */
  lemma {:induction false} LevelsConcat(a: seq<Node>, level: Level, b: seq<Node>)
    requires forall node <- a :: node.Heading? ==> node.level > 2
    ensures Levels(a + [Heading(level)] + b) == if level <= 2 then Levels(a) else Levels(a) + [level] + Levels(b)
    ensures Levels(a + [Other] + b) == Levels(a) + Levels(b)
    ensures |Levels(a)| <= |a|
  {
    if a == [] {
      assert a + [Heading(level)] + b == [Heading(level)] + b && ([Heading(level)] + b)[1..] == b;
      assert a + [Other] + b == [Other] + b && ([Other] + b)[1..] == b;
    } else {
      LevelsConcat(a[1..], level, b);
      assert (a + [Heading(level)] + b)[1..] == a[1..] + [Heading(level)] + b;
      assert (a + [Other] + b)[1..] == a[1..] + [Other] + b;
    }
  }

  // ----- Where a heading belongs -----

  /** The nearest heading before the i-th that is of a smaller level than `level`, or -1 for the root list. */
  function Nearest(levels: seq<Level>, i: nat, level: Level): (j: int)
    requires i <= |levels|
    ensures -1 <= j < i
    ensures j >= 0 ==> levels[j] < level
    ensures forall k :: j < k < i ==> levels[k] >= level
  {
    if i == 0 then -1 else if levels[i - 1] < level then i - 1 else Nearest(levels, i - 1, level)
  }

  function Parent(levels: seq<Level>, i: nat): int
    requires i < |levels|
  {
    Nearest(levels, i, levels[i])
  }

  lemma ParentIs(levels: seq<Level>, i: nat)
    requires i < |levels|
    ensures -1 <= Parent(levels, i) < i
  {
  }

  /** There is no other. */
  lemma NearestIs(levels: seq<Level>, i: nat, level: Level, j: int)
    requires i <= |levels| && -1 <= j < i
    requires j >= 0 ==> levels[j] < level
    requires forall k :: j < k < i ==> levels[k] >= level
    ensures Nearest(levels, i, level) == j
  {
    var r := Nearest(levels, i, level);
  }

  /** The headings from `lo` up to `hi` that belong under `p`, in document order. */
  function Children(levels: seq<Level>, p: int, lo: nat, hi: nat): (cs: seq<nat>)
    requires lo <= hi <= |levels|
    ensures forall i :: i in cs <==> lo <= i < hi && Parent(levels, i) == p
    decreases hi
  {
    if lo == hi then [] else Children(levels, p, lo, hi - 1) + if Parent(levels, hi - 1) == p then [hi - 1] else []
  }

  /** Popping an entry of at least `level` loses no candidate: what lies between it and its parent is larger yet. */
  lemma PopKeepsNearest(levels: seq<Level>, j: nat, level: Level)
    requires j < |levels| && levels[j] >= level
    ensures Nearest(levels, j + 1, level) == Nearest(levels, Parent(levels, j) + 1, level)
  {
    var p := Parent(levels, j);
    var r := Nearest(levels, p + 1, level);
    forall k | r < k < j + 1 ensures levels[k] >= level {
      if p < k < j {
        assert levels[k] >= levels[j];
      }
    }
    NearestIs(levels, j + 1, level, r);
  }

  // ----- The walk -----

  /** Each heading's list holds those of the first `n` headings that belong to it; there are no empty lists. */
  ghost predicate Nested(lists: map<int, seq<nat>>, levels: seq<Level>, n: nat)
    requires n <= |levels|
  {
    && (forall p :: p in lists <==> p >= 0 && Children(levels, p, 0, n) != [])
    && (forall p :: p in lists ==> lists[p] == Children(levels, p, 0, n))
  }

  lemma NestedTop(lists: map<int, seq<nat>>, levels: seq<Level>, n: nat)
    requires n < |levels| && Nested(lists, levels, n) && Parent(levels, n) == -1
    ensures Nested(lists, levels, n + 1)
  {
    hide Parent, Children;
    ChildrenStep(levels, n);
  }

  lemma NestedBelow(lists: map<int, seq<nat>>, levels: seq<Level>, n: nat)
    requires n < |levels| && Nested(lists, levels, n) && Parent(levels, n) >= 0
    ensures var p := Parent(levels, n);
      Nested(lists[p := (if p in lists then lists[p] else []) + [n]], levels, n + 1)
  {
    hide Parent, Children;
    ChildrenStep(levels, n);
  }

  class Sidebar {
    /** The list that holds the "Rellm" entry. */
    var rootList: seq<Item>
    /** The nested lists, by the heading whose item holds them. */
    var lists: map<int, seq<nat>>
    var pops: nat

    constructor (rootList: seq<Item>)
      ensures this.rootList == rootList && lists == map[] && pops == 0
    {
      this.rootList := rootList;
      lists := map[];
      pops := 0;
    }

    /** The first `n` headings are in place, behind what the root list held before. */
    ghost predicate Holds(before: seq<Item>, levels: seq<Level>, n: nat)
      requires n <= |levels|
      reads this`rootList, this`lists
    {
      && rootList == before + Items(Children(levels, -1, 0, n))
      && Nested(lists, levels, n)
    }

    method Walk(nodes: seq<Node>)
      requires lists == map[] && pops == 0
      modifies this
      ensures Holds(old(rootList), Levels(nodes), |Levels(nodes)|)
      ensures pops <= |Levels(nodes)|
    {
      hide Holds, Children, Parent, IsPath, Nearest;
      ghost var levels := Levels(nodes);
      HoldsNone(levels);
      var stack := [Entry(3, -1)];
      PathStarts(levels);
      var n, k := 0, 0;
      while k < |nodes|
        invariant k <= |nodes| && n <= |levels| && levels[n..] == Levels(nodes[k..])
        invariant Holds(old(rootList), levels, n)
        invariant IsPath(stack, levels, n)
        invariant stack != [] && pops + |stack| == n + 1
      {
        assert nodes[k..][1..] == nodes[k + 1..];
        if nodes[k].Heading? {
          var level := nodes[k].level;
          if level <= 2 {
            break;
          }
          assert level == levels[n] && levels[n + 1..] == levels[n..][1..];
          var popped;
          stack, popped := Unwind(stack, level, levels, n);
          pops := pops + popped;
          Append(stack[|stack| - 1].heading, n, old(rootList), levels);
          PathPushed(stack, levels, n);
          stack := stack + [Entry(level, n)];
          n := n + 1;
        }
        k := k + 1;
      }
      assert levels[n..] == [] && n == |levels|;
    }

    lemma HoldsNone(levels: seq<Level>)
      requires lists == map[]
      ensures Holds(rootList, levels, 0)
    {
    }

    method Append(parent: int, n: nat, ghost before: seq<Item>, ghost levels: seq<Level>)
      requires n < |levels| && parent == Parent(levels, n)
      requires Holds(before, levels, n)
      modifies this`rootList, this`lists
      ensures Holds(before, levels, n + 1)
    {
      hide Children, Parent, Items, Nested;
      ParentIs(levels, n);
      ChildrenStep(levels, n);
      ItemsStep(Children(levels, -1, 0, n), n);
      Associative(before, Items(Children(levels, -1, 0, n)), [Walked(n)]);
      if parent < 0 {
        NestedTop(lists, levels, n);
        rootList := rootList + [Walked(n)];
      } else {
        NestedBelow(lists, levels, n);
        if parent !in lists {
          lists := lists[parent := []];
        }
        lists := lists[parent := lists[parent] + [n]];
        assert lists == old(lists)[parent := (if parent in old(lists) then old(lists)[parent] else []) + [n]];
      }
    }
  }

  function Items(ns: seq<nat>): seq<Item> {
    seq(|ns|, i requires 0 <= i < |ns| => Walked(ns[i]))
  }

  lemma ItemsStep(ns: seq<nat>, n: nat)
    ensures Items(ns + [n]) == Items(ns) + [Walked(n)]
  {
    assert forall i :: 0 <= i <= |ns| ==> Items(ns + [n])[i] == (Items(ns) + [Walked(n)])[i];
  }

  lemma ChildrenStep(levels: seq<Level>, n: nat)
    requires n < |levels|
    ensures forall p :: Children(levels, p, 0, n + 1)
                     == if Parent(levels, n) == p then Children(levels, p, 0, n) + [n] else Children(levels, p, 0, n)
  {
    hide Parent;
    forall p
      ensures Children(levels, p, 0, n + 1)
           == if Parent(levels, n) == p then Children(levels, p, 0, n) + [n] else Children(levels, p, 0, n)
    {
      assert Children(levels, p, 0, n) + [] == Children(levels, p, 0, n);
    }
  }

  /** The stack is the way from the root list down to the last of `n` headings, each entry below its parent. */
  ghost predicate IsPath(stack: seq<Entry>, levels: seq<Level>, n: nat)
    requires n <= |levels|
  {
    && |stack| > 0 && stack[0].heading == -1
    && stack[|stack| - 1].heading == n - 1
    && (forall a :: 0 < a < |stack| ==> 0 <= stack[a].heading < n && stack[a].level == levels[stack[a].heading])
    && (forall a :: 0 < a < |stack| ==> Parent(levels, stack[a].heading) == stack[a - 1].heading)
  }

  /** The inner loop: pops until the top entry is the heading's parent. */
  method Unwind(entries: seq<Entry>, level: Level, ghost levels: seq<Level>, ghost n: nat)
    returns (stack: seq<Entry>, popped: nat)
    requires n < |levels| && level == levels[n] && IsPath(entries, levels, n)
    ensures popped + |stack| == |entries|
    ensures stack != [] && stack[|stack| - 1].heading == Parent(levels, n)
    ensures IsPath(stack, levels, Parent(levels, n) + 1)
  {
    stack, popped := entries, 0;
    ghost var top: int := n - 1;
    while |stack| > 1 && stack[|stack| - 1].level >= level
      invariant -1 <= top < n && IsPath(stack, levels, top + 1)
      invariant Parent(levels, n) == Nearest(levels, top + 1, level)
      invariant popped + |stack| == |entries|
    {
      PopKeepsNearest(levels, top, level);
      top := Parent(levels, top);
      PathPopped(stack, levels);
      stack := stack[..|stack| - 1];
      popped := popped + 1;
    }
  }

  lemma PathStarts(levels: seq<Level>)
    ensures IsPath([Entry(3, -1)], levels, 0)
  {
  }

  lemma PathPushed(stack: seq<Entry>, levels: seq<Level>, n: nat)
    requires n < |levels| && IsPath(stack, levels, Parent(levels, n) + 1)
    ensures IsPath(stack + [Entry(levels[n], n)], levels, n + 1)
  {
  }

  lemma PathPopped(stack: seq<Entry>, levels: seq<Level>)
    requires |stack| > 1 && 0 < stack[|stack| - 1].heading + 1 <= |levels|
    requires IsPath(stack, levels, stack[|stack| - 1].heading + 1)
    ensures IsPath(stack[..|stack| - 1], levels, Parent(levels, stack[|stack| - 1].heading) + 1)
  {
    var a := |stack| - 1;
    forall b | 0 < b < a ensures stack[b].heading <= stack[a - 1].heading {
      PathRises(stack, levels, b, a - 1);
    }
  }

  lemma {:induction false} PathRises(stack: seq<Entry>, levels: seq<Level>, b: nat, a: nat)
    requires 0 < b <= a < |stack|
    requires forall c :: 0 < c < |stack| ==> 0 <= stack[c].heading < |levels|
    requires forall c :: 0 < c < |stack| ==> Parent(levels, stack[c].heading) == stack[c - 1].heading
    ensures stack[b].heading <= stack[a].heading
    decreases a
  {
    if b < a {
      PathRises(stack, levels, b, a - 1);
    }
  }

  // ----- Reading the tree from top to bottom -----

  /** Lists hold only later headings. */
  ghost predicate Forward(lists: map<int, seq<nat>>, n: nat) {
    forall p <- lists :: forall c <- lists[p] :: p < c < n
  }

  /** The items and everything nested in them, as a reader meets them. */
  ghost function Flatten(lists: map<int, seq<nat>>, n: nat, lo: nat, items: seq<nat>): seq<nat>
    requires Forward(lists, n) && forall i <- items :: lo <= i < n
    decreases n - lo, |items|
  {
    if items == [] then []
    else
      var first := items[0];
      assert first in items && forall i <- items[1..] :: i in items;
      [first]
      + (if first in lists then Flatten(lists, n, first + 1, lists[first]) else [])
      + Flatten(lists, n, lo, items[1..])
  }

  function Range(lo: nat, hi: nat): (r: seq<nat>)
    requires lo <= hi
  {
    seq(hi - lo, i requires 0 <= i < hi - lo => lo + i)
  }

  /** The first heading from `j` on that is not below `p`'s level. */
  function EndFrom(levels: seq<Level>, p: int, j: nat): (end: nat)
    requires -1 <= p < j <= |levels|
    ensures j <= end <= |levels|
    ensures forall k :: j <= k < end && p >= 0 ==> levels[k] > levels[p]
    ensures end < |levels| ==> p >= 0 && levels[end] <= levels[p]
    decreases |levels| - j
  {
    if j == |levels| then j
    else if p >= 0 && levels[j] <= levels[p] then j
    else EndFrom(levels, p, j + 1)
  }

  function End(levels: seq<Level>, p: int): (end: nat)
    requires -1 <= p < |levels|
    ensures p < end <= |levels|
  {
    EndFrom(levels, p, p + 1)
  }

  lemma {:induction false} ChildrenFront(levels: seq<Level>, p: int, lo: nat, hi: nat)
    requires lo < hi <= |levels|
    ensures Children(levels, p, lo, hi)
         == (if Parent(levels, lo) == p then [lo] else []) + Children(levels, p, lo + 1, hi)
    decreases hi
  {
    hide Parent;
    if lo + 1 < hi {
      ChildrenFront(levels, p, lo, hi - 1);
    }
  }

  lemma {:induction false} NoChildren(levels: seq<Level>, p: int, lo: nat, mid: nat, hi: nat)
    requires lo <= mid <= hi <= |levels| && forall i :: lo <= i < mid ==> Parent(levels, i) != p
    ensures Children(levels, p, lo, hi) == Children(levels, p, mid, hi)
    decreases mid - lo
  {
    hide Parent;
    if lo < mid {
      ChildrenFront(levels, p, lo, hi);
      NoChildren(levels, p, lo + 1, mid, hi);
    }
  }

  /** No heading outside `p`'s section is `p`'s child. */
  lemma NotAfterEnd(levels: seq<Level>, p: int, i: nat)
    requires -1 <= p < |levels| && End(levels, p) <= i < |levels|
    ensures Parent(levels, i) != p
  {
    var end := End(levels, p);
    assert end < |levels| && levels[end] <= levels[p];
  }

  /** Behind the section of `p`'s child `c` there is `p`'s next child, or `p`'s section ends. */
  lemma NextChild(levels: seq<Level>, p: int, c: nat)
    requires c < |levels| && Parent(levels, c) == p
    ensures End(levels, c) <= End(levels, p)
    ensures End(levels, c) < End(levels, p) ==> Parent(levels, End(levels, c)) == p
    ensures forall i :: c < i < End(levels, c) ==> Parent(levels, i) != p
  {
    var end := End(levels, c);
    var outer := End(levels, p);
    assert c < outer by {
      if outer <= c {
        NotAfterEnd(levels, p, c);
      }
    }
    assert outer < |levels| ==> p >= 0 && levels[outer] <= levels[p];
    if end < outer {
      forall k | p < k < end ensures levels[k] >= levels[end] {
        assert k < c ==> levels[k] >= levels[c];
      }
      NearestIs(levels, end, levels[end], p);
    }
    forall i | c < i < end ensures Parent(levels, i) != p {
      assert levels[c] < levels[i];
    }
  }

  lemma NestedIsForward(lists: map<int, seq<nat>>, levels: seq<Level>)
    requires Nested(lists, levels, |levels|)
    ensures Forward(lists, |levels|)
  {
  }

  lemma NestedAt(lists: map<int, seq<nat>>, levels: seq<Level>, c: nat)
    requires c < |levels| && Nested(lists, levels, |levels|)
    ensures (if c in lists then lists[c] else []) == Children(levels, c, 0, |levels|)
    ensures c in lists <==> Children(levels, c, 0, |levels|) != []
  {
  }

  /** Nothing behind its section is `p`'s. */
  lemma SectionEnds(levels: seq<Level>, p: int)
    requires -1 <= p < |levels|
    ensures Children(levels, p, End(levels, p), |levels|) == []
  {
    hide Parent, End;
    forall i | End(levels, p) <= i < |levels| ensures Parent(levels, i) != p {
      NotAfterEnd(levels, p, i);
    }
    NoChildren(levels, p, End(levels, p), |levels|, |levels|);
  }

  lemma ChildrenAreLater(levels: seq<Level>, c: nat)
    requires c < |levels|
    ensures Children(levels, c, 0, |levels|) == Children(levels, c, c + 1, |levels|)
  {
    NoChildren(levels, c, 0, c + 1, |levels|);
  }

  lemma FirstChild(levels: seq<Level>, c: nat)
    requires c < |levels|
    ensures c + 1 == End(levels, c) || Parent(levels, c + 1) == c
  {
  }

  /** From a child of `p` on, the lists read as the rest of `p`'s section. */
  lemma {:induction false} SectionReads(lists: map<int, seq<nat>>, levels: seq<Level>, p: int, from: nat, lo: nat)
    requires Nested(lists, levels, |levels|)
    requires -1 <= p < from && p < |levels| && from <= End(levels, p) && lo <= from
    requires from == End(levels, p) || Parent(levels, from) == p
    ensures Forward(lists, |levels|)
    ensures Flatten(lists, |levels|, lo, Children(levels, p, from, |levels|)) == Range(from, End(levels, p))
    decreases |levels| - from, 1
  {
    hide Parent, End, Forward, Range, Children, Flatten;
    var n := |levels|;
    NestedIsForward(lists, levels);
    if from == End(levels, p) {
      SectionEnds(levels, p);
      RangeEmpty(from);
      EmptyReads(lists, n, lo);
    } else {
      var c, end := from, End(levels, from);
      NextChild(levels, p, c);
      ChildrenFront(levels, p, c, n);
      NoChildren(levels, p, c + 1, end, n);
      var items := Children(levels, p, end, n);
      SectionReads(lists, levels, p, end, lo);
      ChildSectionReads(lists, levels, c);
      RangeSplits(c, end, End(levels, p));
      FirstReads(lists, n, lo, c, items, Range(c + 1, end));
    }
  }

  lemma {:induction false} ChildSectionReads(lists: map<int, seq<nat>>, levels: seq<Level>, c: nat)
    requires c < |levels| && Nested(lists, levels, |levels|)
    ensures Forward(lists, |levels|)
    ensures Range(c + 1, End(levels, c)) == if c in lists then Flatten(lists, |levels|, c + 1, lists[c]) else []
    decreases |levels| - c, 0
  {
    hide Parent, End, Forward, Range, Children, Flatten;
    NestedIsForward(lists, levels);
    ChildrenAreLater(levels, c);
    FirstChild(levels, c);
    NestedAt(lists, levels, c);
    EmptyReads(lists, |levels|, c + 1);
    SectionReads(lists, levels, c, c + 1, c + 1);
  }

  lemma EmptyReads(lists: map<int, seq<nat>>, n: nat, lo: nat)
    requires Forward(lists, n)
    ensures Flatten(lists, n, lo, []) == []
  {
  }

  lemma FirstReads(lists: map<int, seq<nat>>, n: nat, lo: nat, c: nat, items: seq<nat>, section: seq<nat>)
    requires Forward(lists, n) && lo <= c < n && forall i <- items :: lo <= i < n
    requires section == if c in lists then Flatten(lists, n, c + 1, lists[c]) else []
    ensures Flatten(lists, n, lo, [c] + items) == [c] + section + Flatten(lists, n, lo, items)
  {
    assert ([c] + items)[1..] == items;
  }

  lemma RangeEmpty(n: nat)
    ensures Range(n, n) == []
  {
  }

  lemma RangeSplits(lo: nat, mid: nat, hi: nat)
    requires lo < mid <= hi
    ensures Range(lo, hi) == [lo] + Range(lo + 1, mid) + Range(mid, hi)
  {
  }

  /** The finished sidebar reads in document order: every heading once, none out of place. */
  lemma InDocumentOrder(sidebar: Sidebar, before: seq<Item>, levels: seq<Level>)
    requires sidebar.Holds(before, levels, |levels|)
    ensures Forward(sidebar.lists, |levels|)
    ensures var tops := Children(levels, -1, 0, |levels|);
      && sidebar.rootList == before + Items(tops)
      && Flatten(sidebar.lists, |levels|, 0, tops) == Range(0, |levels|)
  {
    assert levels != [] ==> Parent(levels, 0) == -1;
    SectionReads(sidebar.lists, levels, -1, 0, 0);
  }
}
