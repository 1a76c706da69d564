/** `split_on_double_crlf` of the `repair_email_messages` tool: cutting bytes at CRLFCRLF, leftmost first. */
module Segments {
  import opened Text

  function Split(data: string): (segments: seq<string>)
    ensures |segments| > 0
    decreases |data|
  {
    var i := Find(data, EMPTY_LINE);
    if i == -1 then [data] else [data[..i]] + Split(data[i + 4..])
  }

  function Join(segments: seq<string>): string
    requires segments != []
  {
    if |segments| == 1 then segments[0] else segments[0] + EMPTY_LINE + Join(segments[1..])
  }

  /** The index loop: `data[..start]` is cut up, `data[start..i]` has no separator starting in it. */
  method SplitOnDoubleCrlf(data: string) returns (segments: seq<string>)
    ensures segments == Split(data)
  {
    hide Split;
    segments := [];
    assert data[0..] == data;
    var start, i := 0, 0;
    while i + |EMPTY_LINE| <= |data|
      invariant 0 <= start <= i <= |data|
      invariant segments + Split(data[start..]) == Split(data)
      invariant forall j :: start <= j < i ==> !OccursAt(data, EMPTY_LINE, j)
      decreases |data| - i
    {
      if data[i..i + |EMPTY_LINE|] == EMPTY_LINE {
        assert OccursAt(data, EMPTY_LINE, i);
        SplitFirst(data, start, i);
        Associative(segments, [data[start..i]], Split(data[i + 4..]));
        segments := segments + [data[start..i]];
        i := i + |EMPTY_LINE|;
        start := i;
      } else {
        i := i + 1;
      }
    }
    SplitLast(data, start, i);
    segments := segments + [data[start..]];
  }

  lemma OccursInDrop(data: string, start: nat, j: int)
    requires start <= |data| && start <= j
    ensures OccursAt(data[start..], EMPTY_LINE, j - start) == OccursAt(data, EMPTY_LINE, j)
  {
    OccursInSuffix(data[..start], data[start..], EMPTY_LINE, j);
    assert data[..start] + data[start..] == data;
  }

  lemma SplitFirst(data: string, start: nat, i: nat)
    requires start <= i && OccursAt(data, EMPTY_LINE, i)
    requires forall j :: start <= j < i ==> !OccursAt(data, EMPTY_LINE, j)
    ensures Split(data[start..]) == [data[start..i]] + Split(data[i + 4..])
  {
    assert i + 4 <= |data|;
    var rest := data[start..];
    FirstInDrop(data, start, i);
    hide OccursAt, Find, FirstAt;
    FindIs(rest, EMPTY_LINE, i - start);
    SliceOfDrop(data, start, i);
  }

  lemma FirstInDrop(data: string, start: nat, i: nat)
    requires start <= i && OccursAt(data, EMPTY_LINE, i)
    requires forall j :: start <= j < i ==> !OccursAt(data, EMPTY_LINE, j)
    ensures start <= |data| && FirstAt(data[start..], EMPTY_LINE, i - start)
  {
    assert start <= |data|;
    hide OccursAt;
    OccursInDrop(data, start, i);
    forall j | 0 <= j < i - start ensures !OccursAt(data[start..], EMPTY_LINE, j) {
      OccursInDrop(data, start, start + j);
    }
  }

  lemma SliceOfDrop(data: string, start: nat, i: nat)
    requires start <= i && i + 4 <= |data|
    ensures data[start..][..i - start] == data[start..i] && data[start..][i - start + 4..] == data[i + 4..]
  {
  }

  lemma SplitLast(data: string, start: nat, i: nat)
    requires start <= |data| && i + 4 > |data|
    requires forall j :: start <= j < i ==> !OccursAt(data, EMPTY_LINE, j)
    ensures Split(data[start..]) == [data[start..]]
  {
    forall j ensures !OccursAt(data[start..], EMPTY_LINE, j) {
      if 0 <= j {
        OccursInDrop(data, start, start + j);
      }
    }
  }

  // ----- What the cut pieces are -----

  /** A segment behind which the next separator is the one that was written there. */
  predicate IsClean(segment: string) {
    Find(segment, EMPTY_LINE) == -1 && !EndsWith(segment, CRLF)
  }

  /** No separator inside any segment, and only the last one may end in CRLF. */
  ghost predicate IsLeftmostCut(segments: seq<string>, data: string) {
    && segments != [] && Join(segments) == data
    && (forall i :: 0 <= i < |segments| - 1 ==> IsClean(segments[i]))
    && Find(segments[|segments| - 1], EMPTY_LINE) == -1
  }

  /** Exactly then the separator after the segment is the first one. */
  lemma CleanIff(segment: string, rest: string)
    ensures IsClean(segment) <==> FirstAt(segment + EMPTY_LINE + rest, EMPTY_LINE, |segment|)
  {
    var all := segment + EMPTY_LINE + rest;
    assert all[|segment|..|segment| + 4] == EMPTY_LINE;
    forall j | 0 <= j < |segment|
      ensures OccursAt(all, EMPTY_LINE, j)
              <==> OccursAt(segment, EMPTY_LINE, j) || (j == |segment| - 2 && EndsWith(segment, CRLF))
    {
      SeparatorNear(segment, rest, j);
    }
    if IsClean(segment) {
      assert !Contains(segment, EMPTY_LINE);
    } else if !EndsWith(segment, CRLF) {
      var j := Find(segment, EMPTY_LINE);
      assert OccursAt(all, EMPTY_LINE, j);
    } else {
      assert OccursAt(all, EMPTY_LINE, |segment| - 2);
    }
  }

  lemma CleanIffFirst(segment: string)
    ensures IsClean(segment) <==> FirstAt(segment + EMPTY_LINE, EMPTY_LINE, |segment|)
  {
    hide IsClean, FirstAt;
    CleanIff(segment, "");
    assert segment + EMPTY_LINE + "" == segment + EMPTY_LINE;
  }

  lemma SeparatorNear(segment: string, rest: string, j: nat)
    requires j < |segment|
    ensures OccursAt(segment + EMPTY_LINE + rest, EMPTY_LINE, j)
            <==> OccursAt(segment, EMPTY_LINE, j) || (j == |segment| - 2 && EndsWith(segment, CRLF))
  {
    var all := segment + EMPTY_LINE + rest;
    if j + 4 <= |segment| {
      assert all[j..j + 4] == segment[j..j + 4];
    } else if j == |segment| - 2 {
      assert all[j..j + 4] == segment[j..] + CRLF;
      assert EMPTY_LINE == CRLF + CRLF;
      assert segment[j..] + CRLF == CRLF + CRLF <==> segment[j..] == CRLF by {
        assert (segment[j..] + CRLF)[..2] == segment[j..] && (CRLF + CRLF)[..2] == CRLF;
      }
      assert segment[j..j + 2] == segment[j..];
    } else {
      // one or three characters before the separator: a CR would have to be a LF
      var k := |segment| - j;
      assert all[j + k] == '\r' && EMPTY_LINE[k] == '\n';
      if OccursAt(all, EMPTY_LINE, j) {
        OccursChar(all, EMPTY_LINE, j, k);
      }
    }
  }

  /** Split after a clean segment. */
  lemma SplitCons(segment: string, rest: string)
    requires IsClean(segment)
    ensures Split(segment + EMPTY_LINE + rest) == [segment] + Split(rest)
  {
    var all := segment + EMPTY_LINE + rest;
    CleanIff(segment, rest);
    FindIs(all, EMPTY_LINE, |segment|);
    assert all[..|segment|] == segment && all[|segment| + 4..] == rest;
  }

  lemma CutAt(data: string, i: int)
    requires OccursAt(data, EMPTY_LINE, i)
    ensures 0 <= i && i + 4 <= |data| && data == data[..i] + EMPTY_LINE + data[i + 4..]
  {
    assert data == data[..i] + data[i..i + 4] + data[i + 4..];
  }

  lemma SplitHere(data: string)
    requires Find(data, EMPTY_LINE) != -1
    ensures var i := Find(data, EMPTY_LINE);
      && 0 <= i && i + 4 <= |data| && data == data[..i] + EMPTY_LINE + data[i + 4..]
      && Split(data) == [data[..i]] + Split(data[i + 4..]) && IsClean(data[..i])
  {
    var i := Find(data, EMPTY_LINE);
    assert FirstAt(data, EMPTY_LINE, i);
    hide IsClean, Find, FirstAt, OccursAt;
    CutAt(data, i);
    assert Split(data) == [data[..i]] + Split(data[i + 4..]);
    hide Split;
    CleanIff(data[..i], data[i + 4..]);
  }

  lemma CutCons(head: string, segments: seq<string>, tail: string)
    requires IsClean(head) && IsLeftmostCut(segments, tail)
    ensures IsLeftmostCut([head] + segments, head + EMPTY_LINE + tail)
  {
    hide IsClean, Find;
    var all := [head] + segments;
    assert all[1..] == segments && all[|all| - 1] == segments[|segments| - 1];
    forall k | 0 <= k < |all| - 1 ensures IsClean(all[k]) {
      assert k > 0 ==> all[k] == segments[k - 1];
    }
  }

  /** Splitting loses nothing and makes the leftmost cut ... */
  lemma {:induction false} SplitIsLeftmost(data: string)
    ensures IsLeftmostCut(Split(data), data)
    decreases |data|
  {
    hide IsClean, Find;
    var i := Find(data, EMPTY_LINE);
    if i != -1 {
      SplitHere(data);
      SplitIsLeftmost(data[i + 4..]);
      hide IsLeftmostCut, Split;
      CutCons(data[..i], Split(data[i + 4..]), data[i + 4..]);
    }
  }

  /** ... and there is no other. */
  lemma {:induction false} LeftmostIsSplit(segments: seq<string>, data: string)
    requires IsLeftmostCut(segments, data)
    ensures segments == Split(data)
  {
    if |segments| == 1 {
      assert segments == [data];
    } else {
      var rest := segments[1..];
      CutTail(segments, data);
      hide IsClean, Find, IsLeftmostCut, Split;
      LeftmostIsSplit(rest, Join(rest));
      SplitCons(segments[0], Join(rest));
      assert segments == [segments[0]] + rest;
    }
  }

  lemma CutTail(segments: seq<string>, data: string)
    requires IsLeftmostCut(segments, data) && |segments| > 1
    ensures var rest := segments[1..];
      IsLeftmostCut(rest, Join(rest)) && IsClean(segments[0]) && data == segments[0] + EMPTY_LINE + Join(rest)
  {
    hide IsClean, Find;
    var rest := segments[1..];
    assert forall i :: 0 <= i < |rest| ==> rest[i] == segments[i + 1];
  }

  // ----- Splitting a concatenation -----

  lemma {:induction false} JoinConcat(a: seq<string>, b: seq<string>)
    requires a != [] && b != []
    ensures Join(a + b) == Join(a) + EMPTY_LINE + Join(b)
  {
    if |a| == 1 {
      assert (a + b)[1..] == b;
    } else {
      JoinConcat(a[1..], b);
      ConcatTail(a, b);
      Associative(a[0] + EMPTY_LINE, Join(a[1..]), EMPTY_LINE + Join(b));
      Associative(Join(a[1..]), EMPTY_LINE, Join(b));
      Associative(Join(a), EMPTY_LINE, Join(b));
    }
  }

  function Last(segments: seq<string>): string
    requires segments != []
  {
    segments[|segments| - 1]
  }

  /** Splitting distributes over a separator exactly when the last segment before it does not end in CRLF. */
  lemma SplitConcat(a: string, b: string)
    ensures Split(a + EMPTY_LINE + b) == Split(a) + Split(b) <==> !EndsWith(Last(Split(a)), CRLF)
  {
    hide Split, IsClean;
    var x, y, data := Split(a), Split(b), a + EMPTY_LINE + b;
    SplitIsLeftmost(a);
    SplitIsLeftmost(b);
    SplitIsLeftmost(data);
    JoinConcat(x, y);
    CleanMeans(Last(x));
    if Split(data) == x + y {
      assert Split(data)[|x| - 1] == Last(x);
    }
    if !EndsWith(Last(x), CRLF) {
      forall i | 0 <= i < |x + y| - 1 ensures IsClean((x + y)[i]) {
        if i < |x| - 1 {
          assert (x + y)[i] == x[i];
        } else if i >= |x| {
          assert (x + y)[i] == y[i - |x|];
        }
      }
      LeftmostIsSplit(x + y, data);
    }
  }

  lemma CleanMeans(segment: string)
    ensures IsClean(segment) <==> Find(segment, EMPTY_LINE) == -1 && !EndsWith(segment, CRLF)
  {
  }

  // ----- How far "separator-free segments" alone would determine the cut -----

  const THREE := "\r\n\r\n\r\n"

  ghost predicate IsCut(segments: seq<string>, data: string) {
    segments != [] && Join(segments) == data
    && forall i :: 0 <= i < |segments| ==> Find(segments[i], EMPTY_LINE) == -1
  }

  /** Cutting into separator-free segments is unique exactly for data without CRLFCRLFCRLF, where the two
      overlapping separators could each be the one that was meant. */
  lemma OnlyOneCutIff(data: string)
    ensures (forall segments :: IsCut(segments, data) ==> segments == Split(data)) <==> !Contains(data, THREE)
  {
    hide Split, IsCut, IsLeftmostCut;
    if Contains(data, THREE) {
      var segments := OtherCut(data);
    } else {
      forall segments | IsCut(segments, data) ensures segments == Split(data) {
        CutIsLeftmost(segments, data);
        LeftmostIsSplit(segments, data);
      }
    }
  }

  lemma {:induction false} CutIsLeftmost(segments: seq<string>, data: string)
    requires IsCut(segments, data) && !Contains(data, THREE)
    ensures IsLeftmostCut(segments, data)
  {
    if |segments| > 1 {
      var head, rest := segments[0], segments[1..];
      assert forall i :: 0 <= i < |rest| ==> rest[i] == segments[i + 1];
      NoThreeInTail(head, Join(rest));
      CutIsLeftmost(rest, Join(rest));
      forall i | 0 <= i < |segments| - 1 ensures IsClean(segments[i]) {
        if i > 0 {
          assert IsClean(rest[i - 1]);
        }
      }
    }
  }

  lemma NoThreeInTail(head: string, tail: string)
    requires !Contains(head + EMPTY_LINE + tail, THREE)
    ensures !EndsWith(head, CRLF) && !Contains(tail, THREE)
  {
    var data := head + EMPTY_LINE + tail;
    assert !OccursAt(data, THREE, |head| - 2);
    if 2 <= |head| {
      assert data[|head| - 2..|head| + 4] == head[|head| - 2..|head|] + EMPTY_LINE;
    }
    forall j ensures !OccursAt(tail, THREE, j) {
      if 0 <= j {
        OccursInSuffix(head + EMPTY_LINE, tail, THREE, |head| + 4 + j);
        assert !OccursAt(data, THREE, |head| + 4 + j);
      }
    }
  }

  /** With three CRLFs in a row, the later separator serves as well. */
  lemma OtherCut(data: string) returns (segments: seq<string>)
    requires Contains(data, THREE)
    ensures IsCut(segments, data) && segments != Split(data)
  {
    hide Split, IsClean, OccursAt, EndsWith;
    var i := Find(data, THREE);
    OccursChar(data, THREE, i, 0);
    var a, b := data[..i + 2], data[i + 6..];
    ThreeParts(data, i);
    SplitIsLeftmost(a);
    SplitIsLeftmost(b);
    LastEndsInCrlf(a);
    SplitConcat(a, b);
    segments := Split(a) + Split(b);
    JoinConcat(Split(a), Split(b));
    forall k | 0 <= k < |segments| ensures Find(segments[k], EMPTY_LINE) == -1 {
      if k < |Split(a)| {
        assert segments[k] == Split(a)[k];
        CleanMeans(Split(a)[k]);
      } else {
        assert segments[k] == Split(b)[k - |Split(a)|];
        CleanMeans(Split(b)[k - |Split(a)|]);
      }
    }
  }

  lemma OccursConcat(s: string, p: string, q: string, i: int)
    ensures OccursAt(s, p + q, i) <==> OccursAt(s, p, i) && OccursAt(s, q, i + |p|)
  {
    if 0 <= i && i + |p + q| <= |s| {
      var x, y := s[i..i + |p|], s[i + |p|..i + |p| + |q|];
      assert s[i..i + |p + q|] == x + y;
      assert (x + y)[..|p|] == x && (x + y)[|p|..] == y && (p + q)[..|p|] == p && (p + q)[|p|..] == q;
    }
  }

  lemma OccursInTake(s: string, n: nat, pattern: string, i: int)
    requires i + |pattern| <= n <= |s|
    ensures OccursAt(s[..n], pattern, i) <==> OccursAt(s, pattern, i)
  {
    if 0 <= i {
      assert s[..n][i..i + |pattern|] == s[i..i + |pattern|];
    }
  }

  /** At the first run of three, the text up to its first CRLF does not end in a separator. */
  lemma ThreeParts(data: string, i: nat)
    requires FirstAt(data, THREE, i)
    ensures data == data[..i + 2] + EMPTY_LINE + data[i + 6..]
    ensures EndsWith(data[..i + 2], CRLF) && !EndsWith(data[..i + 2], EMPTY_LINE)
  {
    assert THREE == CRLF + EMPTY_LINE == EMPTY_LINE + CRLF;
    OccursConcat(data, CRLF, EMPTY_LINE, i);
    OccursConcat(data, EMPTY_LINE, CRLF, i - 2);
    OccursConcat(data, EMPTY_LINE, CRLF, i);
    OccursConcat(data, CRLF, CRLF, i);
    assert EMPTY_LINE == CRLF + CRLF;
    assert i + 6 <= |data|;
    hide OccursAt;
    CutAt(data, i + 2);
    OccursInTake(data, i + 2, CRLF, i);
    OccursInTake(data, i + 2, EMPTY_LINE, i - 2);
    NotNegative(data, EMPTY_LINE, i - 2);
  }

  lemma NotNegative(s: string, pattern: string, i: int)
    ensures i < 0 ==> !OccursAt(s, pattern, i)
  {
  }

  lemma {:induction false} LastEndsInCrlf(data: string)
    requires EndsWith(data, CRLF) && !EndsWith(data, EMPTY_LINE)
    ensures EndsWith(Last(Split(data)), CRLF)
    decreases |data|
  {
    hide *;
    var i := Find(data, EMPTY_LINE);
    LastOfSplit(data);
    if i != -1 {
      var tail := data[i + 4..];
      RoomForCrlf(data, i);
      assert data == data[..i + 4] + tail;
      EndOfTail(data, data[..i + 4], tail);
      LastEndsInCrlf(tail);
    }
  }

  lemma LastOfSplit(data: string)
    ensures var i := Find(data, EMPTY_LINE);
      if i == -1 then Last(Split(data)) == data
      else 0 <= i && i + 4 <= |data| && Last(Split(data)) == Last(Split(data[i + 4..]))
  {
    hide Find, OccursAt;
    var i := Find(data, EMPTY_LINE);
    if i != -1 {
      OccursChar(data, EMPTY_LINE, i, 3);
    }
  }

  lemma EndOfTail(data: string, head: string, tail: string)
    requires data == head + tail && |tail| >= 2
    ensures EndsWith(tail, CRLF) == EndsWith(data, CRLF)
    ensures EndsWith(tail, EMPTY_LINE) ==> EndsWith(data, EMPTY_LINE)
  {
    SameEnd(head, tail, CRLF);
    if |tail| >= 4 {
      SameEnd(head, tail, EMPTY_LINE);
    } else {
      TooShort(tail, EMPTY_LINE);
    }
    hide EndsWith;
  }

  lemma SameEnd(head: string, tail: string, pattern: string)
    requires |pattern| <= |tail|
    ensures EndsWith(head + tail, pattern) == EndsWith(tail, pattern)
  {
    hide OccursAt;
    OccursInSuffix(head, tail, pattern, |head + tail| - |pattern|);
  }

  lemma TooShort(s: string, pattern: string)
    requires |s| < |pattern|
    ensures !EndsWith(s, pattern)
  {
  }

  lemma RoomForCrlf(data: string, i: nat)
    requires EndsWith(data, CRLF) && !EndsWith(data, EMPTY_LINE) && OccursAt(data, EMPTY_LINE, i)
    ensures i + 6 <= |data|
  {
    OccursChar(data, EMPTY_LINE, i, 3);
    OccursChar(data, CRLF, |data| - 2, 0);
    assert i != |data| - 4;
  }
}
