/** Searching in strings, as `str::find`, `starts_with` and friends do it. */
module Text {
  const CRLF := "\r\n"
  const EMPTY_LINE := "\r\n\r\n"

  predicate OccursAt(s: string, pattern: string, i: int) {
    0 <= i && i + |pattern| <= |s| && s[i..i + |pattern|] == pattern
  }

  predicate StartsWith(s: string, pattern: string) {
    OccursAt(s, pattern, 0)
  }

  predicate EndsWith(s: string, pattern: string) {
    OccursAt(s, pattern, |s| - |pattern|)
  }

  ghost predicate Contains(s: string, pattern: string) {
    exists i :: OccursAt(s, pattern, i)
  }

  /** The index of the first occurrence of `pattern`, or -1. */
  function Find(s: string, pattern: string): (i: int)
    ensures i == -1 <==> !Contains(s, pattern)
    ensures i != -1 ==> OccursAt(s, pattern, i)
    ensures forall j :: 0 <= j < i ==> !OccursAt(s, pattern, j)
  {
    if StartsWith(s, pattern) then
      0
    else if s == [] then
      -1
    else
      assert forall j :: j != 0 ==> OccursAt(s, pattern, j) == OccursAt(s[1..], pattern, j - 1) by {
        OccursInTail(s, pattern);
      }
      var i := Find(s[1..], pattern);
      if i == -1 then -1 else assert OccursAt(s, pattern, i + 1); i + 1
  }

  lemma OccursInTail(s: string, pattern: string)
    requires s != []
    ensures forall j :: j != 0 ==> OccursAt(s, pattern, j) == OccursAt(s[1..], pattern, j - 1)
  {
    forall j | j != 0
      ensures OccursAt(s, pattern, j) == OccursAt(s[1..], pattern, j - 1)
    {
      if 0 < j && j + |pattern| <= |s| {
        SliceOfTail(s, j, j + |pattern|);
      }
    }
  }

  lemma SliceOfTail(s: string, i: int, j: int)
    requires 0 < i <= j <= |s|
    ensures s[i..j] == s[1..][i - 1..j - 1]
  {
    assert forall k :: 0 <= k < j - i ==> s[i..j][k] == s[1..][i - 1..j - 1][k];
  }

  ghost predicate FirstAt(s: string, pattern: string, i: int) {
    OccursAt(s, pattern, i) && forall j :: 0 <= j < i ==> !OccursAt(s, pattern, j)
  }

  /** The first occurrence is unique. */
  lemma FindIs(s: string, pattern: string, i: nat)
    requires FirstAt(s, pattern, i)
    ensures Find(s, pattern) == i
  {
  }

  lemma OccursInSuffix(s: string, t: string, pattern: string, i: int)
    requires |s| <= i
    ensures OccursAt(s + t, pattern, i) == OccursAt(t, pattern, i - |s|)
  {
    if i + |pattern| <= |s + t| {
      assert (s + t)[i..i + |pattern|] == t[i - |s|..i - |s| + |pattern|];
    }
  }

  /** An occurrence, character by character. */
  lemma OccursChar(s: string, pattern: string, i: int, k: int)
    requires OccursAt(s, pattern, i) && 0 <= k < |pattern|
    ensures 0 <= i && i + |pattern| <= |s| && s[i + k] == pattern[k]
  {
    assert s[i..i + |pattern|][k] == s[i + k];
  }

  lemma Associative<T>(a: seq<T>, b: seq<T>, c: seq<T>)
    ensures a + (b + c) == (a + b) + c
  {
  }

  lemma ConcatTail<T>(a: seq<T>, b: seq<T>)
    requires a != []
    ensures (a + b)[0] == a[0] && (a + b)[1..] == a[1..] + b
  {
  }
}
