/** `rewrite` of the rename script: nine `str.replace` passes that rename the project but not its domain. */
module Rename {
  import opened Text

  /** 0: upper case, 1: title case, 2: lower case -- the order of both tables of the script. */
  type Casing = k: int | 0 <= k < 3

  function OldName(k: Casing): string {
    if k == 0 then "JONLINE" else if k == 1 then "Jonline" else "jonline"
  }

  function NewName(k: Casing): string {
    if k == 0 then "RELLM" else if k == 1 then "Rellm" else "rellm"
  }

  function DomainSuffix(k: Casing): string {
    if k == 0 then ".IO" else ".io"
  }

  function Domain(k: Casing): string {
    OldName(k) + DomainSuffix(k)
  }

  function GuardBody(k: Casing): string {
    if k == 0 then "RELLM_RENAME_GUARD_UPPER"
    else if k == 1 then "RELLM_RENAME_GUARD_TITLE"
    else "RELLM_RENAME_GUARD_LOWER"
  }

  function Guard(k: Casing): (guard: string)
    ensures guard != ""
  {
    "\0" + GuardBody(k) + "\0"
  }

  // ----- The script -----

  /** Python's `str.replace`: leftmost first, not overlapping. */
  function Replace(s: string, old': string, new': string): string
    requires old' != ""
    decreases |s|
  {
    if s == "" then ""
    else if StartsWith(s, old') then new' + Replace(s[|old'|..], old', new')
    else [s[0]] + Replace(s[1..], old', new')
  }

  /** The passes in order: hide the domains, rename, put the domains back. */
  function Pattern(pass: nat): string
    requires pass < 9
    ensures Pattern(pass) != ""
  {
    if pass < 3 then Domain(pass) else if pass < 6 then OldName(pass - 3) else Guard(pass - 6)
  }

  function Substitute(pass: nat): string
    requires pass < 9
  {
    if pass < 3 then Guard(pass) else if pass < 6 then NewName(pass - 3) else Domain(pass - 6)
  }

  function AfterPasses(text: string, passes: nat): string
    requires passes <= 9
  {
    if passes == 0 then text
    else Replace(AfterPasses(text, passes - 1), Pattern(passes - 1), Substitute(passes - 1))
  }

  method Rewrite(original: string) returns (text: string)
    ensures text == AfterPasses(original, 9)
  {
    text := original;
    for k := 0 to 3
      invariant text == AfterPasses(original, k)
    {
      text := Replace(text, Domain(k), Guard(k));
    }
    for k := 0 to 3
      invariant text == AfterPasses(original, 3 + k)
    {
      text := Replace(text, OldName(k), NewName(k));
    }
    for k := 0 to 3
      invariant text == AfterPasses(original, 6 + k)
    {
      text := Replace(text, Guard(k), Domain(k));
    }
  }

  // ----- One left-to-right pass -----

  datatype Token = DomainToken(k: Casing) | NameToken(k: Casing) | Plain(c: char)

  function FirstToken(s: string): (t: Token)
    requires s != ""
    ensures t.NameToken? ==> !StartsWith(s, Domain(t.k))
    ensures t.Plain? ==> forall k: Casing :: !StartsWith(s, OldName(k))
  {
    if StartsWith(s, Domain(0)) then DomainToken(0)
    else if StartsWith(s, Domain(1)) then DomainToken(1)
    else if StartsWith(s, Domain(2)) then DomainToken(2)
    else if StartsWith(s, OldName(0)) then NameToken(0)
    else if StartsWith(s, OldName(1)) then NameToken(1)
    else if StartsWith(s, OldName(2)) then NameToken(2)
    else Plain(s[0])
  }

  function Original(t: Token): (s: string)
    ensures s != ""
  {
    match t
    case DomainToken(k) => Domain(k)
    case NameToken(k) => OldName(k)
    case Plain(c) => [c]
  }

  lemma FirstTokenStarts(s: string)
    requires s != ""
    ensures StartsWith(s, Original(FirstToken(s)))
  {
    hide Domain, OldName;
    assert [s[0]] == s[0..1];
  }

  function Tokens(s: string): seq<Token>
    decreases |s|
  {
    if s == "" then []
    else
      var t := FirstToken(s);
      FirstTokenStarts(s);
      [t] + Tokens(s[|Original(t)|..])
  }

  /** What a token looks like after `stage` passes. */
  function Shown(t: Token, stage: nat): string {
    match t
    case DomainToken(k) => if k < stage <= 6 + k then Guard(k) else Domain(k)
    case NameToken(k) => if 3 + k < stage then NewName(k) else OldName(k)
    case Plain(c) => [c]
  }

  function Render(ts: seq<Token>, stage: nat): string {
    if ts == [] then "" else Shown(ts[0], stage) + Render(ts[1..], stage)
  }

  /** The intended result: domains kept, every other cased occurrence of the old name replaced. */
  function Renamed(text: string): string {
    Render(Tokens(text), 9)
  }

  // ----- The letters involved -----

  predicate IsJ(c: char) {
    c == 'J' || c == 'j'
  }

  /** Characters that may follow the first one in an old name or a domain. */
  predicate IsTail(c: char) {
    !IsJ(c) && c != '\0' && c != 'R' && c != 'r'
  }

  predicate AllTail(s: string) {
    forall i :: 0 <= i < |s| ==> IsTail(s[i])
  }

  /** Neither a J nor a NUL. */
  predicate IsQuiet(s: string) {
    forall i :: 0 <= i < |s| ==> !IsJ(s[i]) && s[i] != '\0'
  }

  lemma OldLetters(k: Casing)
    ensures |OldName(k)| == 7 && IsJ(OldName(k)[0]) && AllTail(OldName(k)[1..])
    ensures |DomainSuffix(k)| == 3 && AllTail(DomainSuffix(k))
  {
  }

  lemma DomainLetters(k: Casing)
    ensures |Domain(k)| == 10 && IsJ(Domain(k)[0]) && AllTail(Domain(k)[1..])
  {
    OldLetters(k);
    hide OldName, DomainSuffix, IsTail;
    ConcatTail(OldName(k), DomainSuffix(k));
  }

  lemma NewLetters(k: Casing)
    ensures |NewName(k)| == 5 && IsQuiet(NewName(k)) && !IsTail(NewName(k)[0])
  {
  }

  lemma GuardLetters(k: Casing)
    ensures |GuardBody(k)| == 24 && IsQuiet(GuardBody(k))
  {
  }

  lemma CasingsDiffer(j: Casing, k: Casing)
    requires j != k
    ensures OldName(j)[0] != OldName(k)[0] || OldName(j)[1] != OldName(k)[1]
    ensures GuardBody(j)[19] != GuardBody(k)[19]
  {
  }

  // ----- Replacing in a concatenation -----

  lemma {:induction false} SkipPrefix(a: string, b: string, old': string, new': string)
    requires old' != "" && forall i :: 0 <= i < |a| ==> !OccursAt(a + b, old', i)
    ensures Replace(a + b, old', new') == a + Replace(b, old', new')
  {
    if a == "" {
      assert a + b == b;
    } else {
      assert !OccursAt(a + b, old', 0);
      ConcatTail(a, b);
      forall i | 0 <= i < |a[1..]| ensures !OccursAt(a[1..] + b, old', i) {
        OccursInTail(a + b, old');
        assert !OccursAt(a + b, old', i + 1);
      }
      SkipPrefix(a[1..], b, old', new');
      assert a == [a[0]] + a[1..];
    }
  }

  lemma TakePrefix(b: string, old': string, new': string)
    requires old' != ""
    ensures Replace(old' + b, old', new') == new' + Replace(b, old', new')
  {
    assert (old' + b)[0..|old'|] == old' && (old' + b)[|old'|..] == b;
  }

  lemma {:induction false} ReplaceAcross(a: string, b: string, old': string, new': string)
    requires old' != "" && b != "" && b[0] !in old'
    ensures Replace(a + b, old', new') == Replace(a, old', new') + Replace(b, old', new')
    decreases |a|
  {
    if a == "" {
      assert a + b == b;
    } else if StartsWith(a, old') {
      var rest := a[|old'|..];
      assert (a + b)[0..|old'|] == old' && (a + b)[|old'|..] == rest + b;
      ReplaceAcross(rest, b, old', new');
      Associative(new', Replace(rest, old', new'), Replace(b, old', new'));
    } else {
      if StartsWith(a + b, old') {
        NotAcross(a, b, old');
      }
      ConcatTail(a, b);
      ReplaceAcross(a[1..], b, old', new');
      Associative([a[0]], Replace(a[1..], old', new'), Replace(b, old', new'));
    }
  }

  lemma NotAcross(a: string, b: string, old': string)
    requires b != "" && b[0] !in old' && StartsWith(a + b, old')
    ensures StartsWith(a, old')
  {
    if |a| < |old'| {
      OccursChar(a + b, old', 0, |a|);
    } else {
      assert (a + b)[0..|old'|] == a[0..|old'|];
    }
  }

  // ----- Passes 1 to 6: a match never crosses a token -----

  /** Behind a plain character nothing else was meant, and behind an old name no domain. */
  ghost predicate Tokenized(ts: seq<Token>) {
    ts == [] || (Tokenized(ts[1..]) && WellRead(ts))
  }

  ghost predicate WellRead(ts: seq<Token>)
    requires ts != []
  {
    match ts[0]
    case DomainToken(_) => true
    case NameToken(k) => !StartsWith(Render(ts, 0), Domain(k))
    case Plain(c) => forall k: Casing :: !StartsWith(Render(ts, 0), OldName(k))
  }

  lemma {:induction false} TokensRender(s: string)
    ensures Render(Tokens(s), 0) == s
    ensures Tokenized(Tokens(s))
    decreases |s|
  {
    hide Domain, OldName, FirstToken;
    if s != "" {
      var t := FirstToken(s);
      FirstTokenStarts(s);
      var n := |Original(t)|;
      assert s[0..n] == Original(t) && s == s[0..n] + s[n..];
      TokensRender(s[n..]);
      var ts := Tokens(s);
      assert ts[1..] == Tokens(s[n..]);
      assert Shown(ts[0], 0) == Original(t);
    }
  }

  lemma StartsPast(a: string, b: string, w: string)
    ensures StartsWith(a + b, a + w) == StartsWith(b, w)
  {
    if |w| <= |b| {
      assert (a + b)[0..|a + w|] == a + b[0..|w|];
      if StartsWith(a + b, a + w) {
        assert b[0..|w|] == (a + b)[0..|a + w|][|a|..] == w;
      }
    }
  }

  lemma StartsWithChar(c: char, b: string, w: string)
    requires w != ""
    ensures StartsWith([c] + b, w) == (w[0] == c && StartsWith(b, w[1..]))
  {
    if w[0] == c {
      assert w == [c] + w[1..];
      StartsPast([c], b, w[1..]);
    } else if StartsWith([c] + b, w) {
      OccursChar([c] + b, w, 0, 0);
    }
  }

  /** What no pass touches: only plain characters can show a tail character first. */
  lemma ShownFirst(t: Token, stage: nat)
    ensures Shown(t, stage) != ""
    ensures !t.Plain? ==> !IsTail(Shown(t, stage)[0])
  {
    hide OldName, DomainSuffix, NewName, GuardBody;
    if !t.Plain? {
      OldLetters(t.k);
      DomainLetters(t.k);
      NewLetters(t.k);
    }
  }

  /** A run of tail characters at the front is plain, hence the same at every stage. */
  lemma {:induction false} PlainRun(ts: seq<Token>, stage: nat, other: nat, w: string)
    requires AllTail(w) && StartsWith(Render(ts, stage), w)
    ensures StartsWith(Render(ts, other), w)
    decreases |w|
  {
    hide Shown, IsTail;
    if w != "" {
      var t := ts[0];
      ShownFirst(t, stage);
      OccursChar(Render(ts, stage), w, 0, 0);
      assert t.Plain?;
      ShownPlain(t.c, stage);
      ShownPlain(t.c, other);
      StartsWithChar(t.c, Render(ts[1..], stage), w);
      StartsWithChar(t.c, Render(ts[1..], other), w);
      PlainRun(ts[1..], stage, other, w[1..]);
    }
  }

  lemma ShownPlain(c: char, stage: nat)
    ensures Shown(Plain(c), stage) == [c]
  {
  }

  /** The token a pass is for. */
  predicate IsTarget(t: Token, pass: nat)
    requires pass < 9
  {
    if pass < 3 then t == DomainToken(pass)
    else if pass < 6 then t == NameToken(pass - 3)
    else t == DomainToken(pass - 6)
  }

  lemma ShownChanges(t: Token, pass: nat)
    requires pass < 9
    ensures IsTarget(t, pass) ==> Shown(t, pass) == Pattern(pass) && Shown(t, pass + 1) == Substitute(pass)
    ensures !IsTarget(t, pass) ==> Shown(t, pass + 1) == Shown(t, pass)
  {
    hide OldName, DomainSuffix, NewName, GuardBody;
  }

  /** Text that shows no match at its front and the first pattern letter nowhere else is passed over. */
  lemma SkipToken(a: string, b: string, old': string, new': string)
    requires a != "" && old' != "" && !StartsWith(a + b, old')
    requires forall i :: 0 < i < |a| ==> a[i] != old'[0]
    ensures Replace(a + b, old', new') == a + Replace(b, old', new')
  {
    forall i | 0 <= i < |a| ensures !OccursAt(a + b, old', i) {
      if 0 < i && OccursAt(a + b, old', i) {
        OccursChar(a + b, old', i, 0);
      }
    }
    SkipPrefix(a, b, old', new');
  }

  lemma GuardShape(k: Casing)
    ensures |Guard(k)| == 26 && Guard(k)[0] == '\0' && Guard(k)[25] == '\0'
    ensures Guard(k)[1..25] == GuardBody(k)
    ensures forall i :: 0 <= i < 26 ==> !IsJ(Guard(k)[i])
    ensures forall i :: 0 < i < 25 ==> Guard(k)[i] != '\0'
  {
    GuardLetters(k);
    hide GuardBody;
    assert forall i :: 0 < i < 25 ==> Guard(k)[i] == GuardBody(k)[i - 1];
  }

  /** A token shows an initial J at most at its front. */
  lemma ShownInner(t: Token, stage: nat, i: nat)
    requires 0 < i < |Shown(t, stage)|
    ensures !IsJ(Shown(t, stage)[i])
  {
    hide OldName, DomainSuffix, NewName, GuardBody, Domain, Guard;
    if !t.Plain? {
      OldLetters(t.k);
      DomainLetters(t.k);
      NewLetters(t.k);
      GuardShape(t.k);
    }
  }

  lemma PatternLetters(pass: nat)
    requires pass < 6
    ensures StartsWith(Pattern(pass), OldName(pass % 3))
    ensures IsJ(Pattern(pass)[0]) && AllTail(Pattern(pass)[1..])
  {
    OldLetters(pass % 3);
    DomainLetters(pass % 3);
    hide OldName, DomainSuffix;
    assert (OldName(pass % 3) + DomainSuffix(pass % 3))[0..7] == OldName(pass % 3);
    assert OldName(pass % 3)[0..7] == OldName(pass % 3);
  }

  lemma {:induction false} RenamePass(ts: seq<Token>, pass: nat)
    requires pass < 6 && Tokenized(ts)
    ensures Replace(Render(ts, pass), Pattern(pass), Substitute(pass)) == Render(ts, pass + 1)
  {
    hide Shown, Pattern, Substitute, IsTarget, WellRead;
    if ts != [] {
      var t := ts[0];
      var rest := Render(ts[1..], pass);
      RenamePass(ts[1..], pass);
      ShownChanges(t, pass);
      if IsTarget(t, pass) {
        TakePrefix(rest, Pattern(pass), Substitute(pass));
      } else {
        NoMatch(ts, pass);
        ShownFirst(t, pass);
        PatternLetters(pass);
        forall i | 0 < i < |Shown(t, pass)| ensures Shown(t, pass)[i] != Pattern(pass)[0] {
          ShownInner(t, pass, i);
        }
        SkipToken(Shown(t, pass), rest, Pattern(pass), Substitute(pass));
      }
    }
  }

  lemma StartsTrans(s: string, w: string, v: string)
    requires StartsWith(s, w) && StartsWith(w, v)
    ensures StartsWith(s, v)
  {
    assert s[0..|v|] == s[0..|w|][0..|v|];
  }

  /** No text starts with the old name in two casings. */
  lemma OneCasing(s: string, j: Casing, k: Casing)
    requires StartsWith(s, OldName(j)) && StartsWith(s, OldName(k))
    ensures j == k
  {
    if j != k {
      CasingsDiffer(j, k);
      OldLetters(j);
      OldLetters(k);
      hide OldName;
      OccursChar(s, OldName(j), 0, 0);
      OccursChar(s, OldName(j), 0, 1);
      OccursChar(s, OldName(k), 0, 0);
      OccursChar(s, OldName(k), 0, 1);
    }
  }

  lemma NoPlainMatch(ts: seq<Token>, pass: nat)
    requires pass < 6 && ts != [] && WellRead(ts) && ts[0].Plain?
    ensures !StartsWith(Render(ts, pass), Pattern(pass))
  {
    hide Pattern, OldName, Shown, IsTail;
    if StartsWith(Render(ts, pass), Pattern(pass)) {
      var name := OldName(pass % 3);
      PatternLetters(pass);
      OldLetters(pass % 3);
      StartsTrans(Render(ts, pass), Pattern(pass), name);
      ShownPlain(ts[0].c, pass);
      ShownPlain(ts[0].c, 0);
      StartsWithChar(ts[0].c, Render(ts[1..], pass), name);
      StartsWithChar(ts[0].c, Render(ts[1..], 0), name);
      PlainRun(ts[1..], pass, 0, name[1..]);
    }
  }

  lemma Begins(a: string, b: string)
    ensures StartsWith(a + b, a)
  {
    assert (a + b)[0..|a|] == a;
  }

  lemma NoNameMatch(ts: seq<Token>, pass: nat)
    requires pass < 6 && ts != [] && WellRead(ts) && ts[0].NameToken? && !IsTarget(ts[0], pass)
    ensures !StartsWith(Render(ts, pass), Pattern(pass))
  {
    hide OldName, DomainSuffix, NewName, IsTail;
    var k, rest := ts[0].k, Render(ts[1..], pass);
    OldLetters(k);
    PatternLetters(pass);
    if StartsWith(Render(ts, pass), Pattern(pass)) {
      OccursChar(Render(ts, pass), Pattern(pass), 0, 0);
      if 3 + k < pass {
        NewLetters(k);
      } else {
        Begins(OldName(k), rest);
        StartsTrans(Render(ts, pass), Pattern(pass), OldName(pass % 3));
        OneCasing(Render(ts, pass), k, pass % 3);
        StartsPast(OldName(k), rest, DomainSuffix(k));
        PlainRun(ts[1..], pass, 0, DomainSuffix(k));
        StartsPast(OldName(k), Render(ts[1..], 0), DomainSuffix(k));
      }
    }
  }

  lemma NoDomainMatch(ts: seq<Token>, pass: nat)
    requires pass < 6 && ts != [] && ts[0].DomainToken? && !IsTarget(ts[0], pass)
    ensures !StartsWith(Render(ts, pass), Pattern(pass))
  {
    hide OldName, DomainSuffix, GuardBody, IsTail;
    var k, rest := ts[0].k, Render(ts[1..], pass);
    PatternLetters(pass);
    if StartsWith(Render(ts, pass), Pattern(pass)) {
      OccursChar(Render(ts, pass), Pattern(pass), 0, 0);
      if pass <= k {
        Begins(Domain(k), rest);
        Begins(OldName(k), DomainSuffix(k));
        StartsTrans(Render(ts, pass), Domain(k), OldName(k));
        StartsTrans(Render(ts, pass), Pattern(pass), OldName(pass % 3));
        OneCasing(Render(ts, pass), k, pass % 3);
      }
    }
  }

  lemma NoMatch(ts: seq<Token>, pass: nat)
    requires pass < 6 && ts != [] && WellRead(ts) && !IsTarget(ts[0], pass)
    ensures !StartsWith(Render(ts, pass), Pattern(pass))
  {
    match ts[0]
    case DomainToken(_) => NoDomainMatch(ts, pass);
    case NameToken(_) => NoNameMatch(ts, pass);
    case Plain(_) => NoPlainMatch(ts, pass);
  }

  /** The first six passes guard every domain and rename everything else, whatever the text. */
  lemma {:induction false} Guarded(ts: seq<Token>, text: string, passes: nat)
    requires Tokenized(ts) && Render(ts, 0) == text && passes <= 6
    ensures AfterPasses(text, passes) == Render(ts, passes)
  {
    hide Render, Tokenized, Replace, Pattern, Substitute;
    if passes != 0 {
      Guarded(ts, text, passes - 1);
      RenamePass(ts, passes - 1);
    }
  }

  // ----- Passes 7 to 9: when a restoring pass meets something that only looks like a guard -----

  predicate NulFree(s: string) {
    '\0' !in s
  }

  ghost predicate NulFreeTokens(ts: seq<Token>) {
    forall i :: 0 <= i < |ts| ==> ts[i] != Plain('\0')
  }

  /** The rewritten text up to the first domain. */
  function Gap(ts: seq<Token>): string {
    if ts == [] || ts[0].DomainToken? then "" else Shown(ts[0], 9) + Gap(ts[1..])
  }

  function FromDomain(ts: seq<Token>): (rest: seq<Token>)
    ensures rest != [] ==> rest[0].DomainToken?
  {
    if ts == [] || ts[0].DomainToken? then ts else FromDomain(ts[1..])
  }

  /** Behind a guard, `ts` continues pass `k`'s guard: its letters, and a domain still guarded then. */
  predicate Clash(ts: seq<Token>, k: Casing) {
    Gap(ts) == GuardBody(k) && FromDomain(ts) != [] && k <= FromDomain(ts)[0].k
  }

  /** No domain of a later casing is followed by text that continues `k`'s guard. */
  ghost predicate SafeFor(ts: seq<Token>, k: Casing) {
    ts == [] || (SafeFor(ts[1..], k) && !(ts[0].DomainToken? && k < ts[0].k && Clash(ts[1..], k)))
  }

  /** What the script relies on: no two domains exactly a rewritten guard name apart, the letters of which
      belong to an earlier casing than the first domain and not a later one than the second. */
  ghost predicate Safe(ts: seq<Token>) {
    forall k: Casing :: SafeFor(ts, k)
  }

  lemma {:induction false} GapSplits(ts: seq<Token>, stage: nat)
    requires 6 <= stage <= 9
    ensures Render(ts, stage) == Gap(ts) + Render(FromDomain(ts), stage)
  {
    hide OldName, DomainSuffix, NewName, GuardBody;
    if ts != [] && !ts[0].DomainToken? {
      GapSplits(ts[1..], stage);
      Associative(Shown(ts[0], 9), Gap(ts[1..]), Render(FromDomain(ts), stage));
    }
  }

  lemma {:induction false} GapNulFree(ts: seq<Token>)
    requires NulFreeTokens(ts)
    ensures NulFree(Gap(ts))
  {
    hide NewName;
    if ts != [] && !ts[0].DomainToken? {
      GapNulFree(ts[1..]);
      if ts[0].NameToken? {
        NewLetters(ts[0].k);
      }
    }
  }

  /** Two ways to cut a text at its first guard or domain. */
  lemma CutOnce(gap: string, after: string, w: string)
    requires NulFree(gap) && IsQuiet(w) && (after == "" || after[0] == '\0' || IsJ(after[0]))
    ensures StartsWith(gap + after, w + "\0") <==> gap == w && after != "" && after[0] == '\0'
  {
    hide IsJ;
    if gap == w && after != "" && after[0] == '\0' {
      assert (gap + after)[0..|w| + 1] == w + "\0";
    }
    if StartsWith(gap + after, w + "\0") {
      OccursChar(gap + after, w + "\0", 0, |w|);
      assert |gap| <= |w|;
      OccursChar(gap + after, w + "\0", 0, |gap|);
      assert |gap| == |w|;
      forall i | 0 <= i < |w| ensures gap[i] == w[i] {
        OccursChar(gap + after, w + "\0", 0, i);
      }
    }
  }

  /** A text continues a guard exactly when its tokens clash. */
  lemma ContinuesIff(ts: seq<Token>, k: Casing)
    requires NulFreeTokens(ts)
    ensures StartsWith(Render(ts, 6 + k), GuardBody(k) + "\0") <==> Clash(ts, k)
  {
    hide OldName, DomainSuffix, NewName, GuardBody, Gap, FromDomain;
    GapSplits(ts, 6 + k);
    GapNulFree(ts);
    GuardLetters(k);
    var rest := FromDomain(ts);
    var after := Render(rest, 6 + k);
    if rest != [] {
      DomainLetters(rest[0].k);
      GuardShape(rest[0].k);
    }
    CutOnce(Gap(ts), after, GuardBody(k));
  }

  lemma GuardAfter(a: Casing, k: Casing, rest: string)
    requires a != k
    ensures !StartsWith(Guard(a) + rest, Guard(k))
  {
    CasingsDiffer(a, k);
    GuardLetters(a);
    GuardLetters(k);
    hide GuardBody;
    if StartsWith(Guard(a) + rest, Guard(k)) {
      OccursChar(Guard(a) + rest, Guard(k), 0, 20);
    }
  }

  /** The text of a guard up to its closing NUL, and from there. */
  lemma GuardOpen(a: Casing, rest: string)
    ensures Guard(a) + rest == ("\0" + GuardBody(a)) + ("\0" + rest)
    ensures Guard(a) == "\0" + (GuardBody(a) + "\0")
  {
    hide GuardBody;
    Associative("\0", GuardBody(a), "\0");
    Associative("\0" + GuardBody(a), "\0", rest);
  }

  /** Pass 6+k over a guard of a later casing that nothing follows to be mistaken. */
  lemma GuardPassed(a: Casing, k: Casing, rest: string)
    requires a != k && !StartsWith(rest, GuardBody(k) + "\0")
    ensures Replace(Guard(a) + rest, Guard(k), Domain(k)) == Guard(a) + Replace(rest, Guard(k), Domain(k))
  {
    GuardShape(a);
    GuardShape(k);
    GuardAfter(a, k, rest);
    GuardOpen(a, rest);
    GuardOpen(k, rest);
    hide Guard, GuardBody, Domain, OldName, DomainSuffix, Replace, IsJ;
    StartsWithChar('\0', rest, Guard(k));
    assert !StartsWith("\0" + rest, Guard(k)) by {
      StartsPast("\0", rest, GuardBody(k) + "\0");
    }
    forall i | 0 <= i < 26 ensures !OccursAt(Guard(a) + rest, Guard(k), i) {
      if 0 < i && OccursAt(Guard(a) + rest, Guard(k), i) {
        OccursChar(Guard(a) + rest, Guard(k), i, 0);
        if i == 25 {
          OccursInSuffix("\0" + GuardBody(a), "\0" + rest, Guard(k), 25);
        }
      }
    }
    SkipPrefix(Guard(a), rest, Guard(k), Domain(k));
  }

  /** And one that is: the false guard swallows the true one's closing NUL. */
  lemma GuardBroken(a: Casing, k: Casing, rest: string) returns (behind: string)
    requires a != k && StartsWith(rest, GuardBody(k) + "\0")
    ensures Replace(Guard(a) + rest, Guard(k), Domain(k)) == ("\0" + GuardBody(a)) + (Domain(k) + behind)
  {
    GuardShape(a);
    GuardShape(k);
    GuardAfter(a, k, rest);
    GuardOpen(a, rest);
    GuardOpen(k, rest);
    var body := GuardBody(k) + "\0";
    var tail := rest[|body|..];
    assert rest == body + tail && "\0" + rest == Guard(k) + tail by {
      assert rest[0..|body|] == body;
      Associative("\0", body, tail);
    }
    behind := Replace(tail, Guard(k), Domain(k));
    GuardLetters(a);
    hide Guard, GuardBody, Domain, OldName, DomainSuffix, Replace, IsJ;
    TakePrefix(tail, Guard(k), Domain(k));
    SkipToken("\0" + GuardBody(a), "\0" + rest, Guard(k), Domain(k));
  }

  lemma NoNul(a: string, b: string, k: Casing)
    requires NulFree(a)
    ensures Replace(a + b, Guard(k), Domain(k)) == a + Replace(b, Guard(k), Domain(k))
  {
    GuardShape(k);
    hide Guard, Domain, Replace, IsJ;
    forall i | 0 <= i < |a| ensures !OccursAt(a + b, Guard(k), i) {
      if OccursAt(a + b, Guard(k), i) {
        OccursChar(a + b, Guard(k), i, 0);
      }
    }
    SkipPrefix(a, b, Guard(k), Domain(k));
  }

  lemma ShownNul(t: Token, stage: nat)
    requires t != Plain('\0')
    ensures !(t.DomainToken? && t.k < stage <= 6 + t.k) ==> NulFree(Shown(t, stage))
  {
    hide OldName, DomainSuffix, NewName, GuardBody, Domain, Guard;
    if !t.Plain? {
      OldLetters(t.k);
      DomainLetters(t.k);
      NewLetters(t.k);
    }
  }

  /** A restoring pass does the right thing with a token no clash follows. */
  lemma TokenRestored(ts: seq<Token>, k: Casing)
    requires ts != [] && NulFreeTokens(ts)
    requires !(ts[0].DomainToken? && k < ts[0].k && Clash(ts[1..], k))
    ensures Replace(Render(ts, 6 + k), Guard(k), Domain(k))
         == Shown(ts[0], 7 + k) + Replace(Render(ts[1..], 6 + k), Guard(k), Domain(k))
  {
    var t, rest := ts[0], Render(ts[1..], 6 + k);
    ShownChanges(t, 6 + k);
    if IsTarget(t, 6 + k) {
      GuardShape(k);
      hide *;
      TakePrefix(rest, Guard(k), Domain(k));
    } else if t.DomainToken? && k < t.k {
      ContinuesIff(ts[1..], k);
      hide Guard, Domain, GuardBody, Clash;
      GuardPassed(t.k, k, rest);
    } else {
      ShownNul(t, 6 + k);
      NoNul(Shown(t, 6 + k), rest, k);
    }
  }

  lemma {:induction false} RestoringExact(ts: seq<Token>, k: Casing)
    requires NulFreeTokens(ts) && SafeFor(ts, k)
    ensures Replace(Render(ts, 6 + k), Guard(k), Domain(k)) == Render(ts, 7 + k)
  {
    hide Shown, Guard, Domain, Clash;
    if ts != [] {
      TokenRestored(ts, k);
      RestoringExact(ts[1..], k);
    }
  }

  // ----- A broken guard leaves its mark -----

  function Nuls(s: string): nat {
    if s == "" then 0 else (if s[0] == '\0' then 1 else 0) + Nuls(s[1..])
  }

  lemma {:induction false} NulsConcat(a: string, b: string)
    ensures Nuls(a + b) == Nuls(a) + Nuls(b)
  {
    if a == "" {
      assert a + b == b;
    } else {
      ConcatTail(a, b);
      NulsConcat(a[1..], b);
    }
  }

  lemma {:induction false} NulsNone(s: string)
    ensures NulFree(s) <==> Nuls(s) == 0
  {
    if s != "" {
      NulsNone(s[1..]);
      assert s == [s[0]] + s[1..];
    }
  }

  lemma GuardNuls(k: Casing)
    ensures Nuls(Guard(k)) == 2 && Nuls("\0" + GuardBody(k)) == 1
  {
    GuardLetters(k);
    hide GuardBody;
    NulsNone(GuardBody(k));
    NulsConcat("\0", GuardBody(k));
    NulsConcat("\0" + GuardBody(k), "\0");
    assert Nuls("\0") == 1;
  }

  lemma DomainNuls(k: Casing)
    ensures NulFree(Domain(k)) && Nuls(Domain(k)) == 0
  {
    DomainLetters(k);
    hide Domain;
    NulsNone(Domain(k));
  }

  /** Cut before a domain's letter J, the front has lost its pairing of NULs. */
  predicate StuckAt(s: string, front: string, back: string) {
    s == front + back && back != "" && IsJ(back[0]) && Nuls(front) % 2 == 1
  }

  lemma {:induction false} ReplaceParity(s: string, k: Casing)
    ensures Nuls(Replace(s, Guard(k), Domain(k))) % 2 == Nuls(s) % 2
    decreases |s|
  {
    GuardNuls(k);
    DomainNuls(k);
    GuardShape(k);
    hide Guard, Domain, GuardBody;
    if s != "" {
      if StartsWith(s, Guard(k)) {
        var rest := s[26..];
        assert s == s[0..26] + rest;
        ReplaceParity(rest, k);
        NulsConcat(Guard(k), rest);
        NulsConcat(Domain(k), Replace(rest, Guard(k), Domain(k)));
      } else {
        ReplaceParity(s[1..], k);
        var rest := Replace(s[1..], Guard(k), Domain(k));
        assert ([s[0]] + rest)[0] == s[0] && ([s[0]] + rest)[1..] == rest;
      }
    }
  }

  lemma StuckStays(s: string, front: string, back: string, k: Casing) returns (front': string, back': string)
    requires StuckAt(s, front, back)
    ensures StuckAt(Replace(s, Guard(k), Domain(k)), front', back')
  {
    GuardShape(k);
    hide Guard, Domain, IsJ, Nuls;
    front' := Replace(front, Guard(k), Domain(k));
    back' := Replace(back, Guard(k), Domain(k));
    ReplaceAcross(front, back, Guard(k), Domain(k));
    ReplaceParity(front, k);
    if StartsWith(back, Guard(k)) {
      OccursChar(back, Guard(k), 0, 0);
    }
  }

  lemma HeadBreaks(ts: seq<Token>, k: Casing) returns (front: string, back: string)
    requires NulFreeTokens(ts) && ts != []
    requires ts[0].DomainToken? && k < ts[0].k && Clash(ts[1..], k)
    ensures StuckAt(Replace(Render(ts, 6 + k), Guard(k), Domain(k)), front, back)
  {
    var a, rest := ts[0].k, Render(ts[1..], 6 + k);
    ContinuesIff(ts[1..], k);
    assert Render(ts, 6 + k) == Guard(a) + rest;
    GuardNuls(a);
    DomainLetters(k);
    hide *;
    var behind := GuardBroken(a, k, rest);
    front, back := "\0" + GuardBody(a), Domain(k) + behind;
    assert StuckAt(front + back, front, back) by {
      StuckHere(front, Domain(k), behind);
    }
  }

  lemma StuckHere(front: string, domain: string, behind: string)
    requires Nuls(front) == 1 && domain != "" && IsJ(domain[0])
    ensures StuckAt(front + (domain + behind), front, domain + behind)
  {
  }

  lemma {:induction false} RestoringBreaks(ts: seq<Token>, k: Casing) returns (front: string, back: string)
    requires NulFreeTokens(ts) && !SafeFor(ts, k)
    ensures StuckAt(Replace(Render(ts, 6 + k), Guard(k), Domain(k)), front, back)
  {
    var t := ts[0];
    if t.DomainToken? && k < t.k && Clash(ts[1..], k) {
      front, back := HeadBreaks(ts, k);
    } else {
      TokenRestored(ts, k);
      ShownEven(t, 7 + k);
      hide *;
      front, back := RestoringBreaks(ts[1..], k);
      StuckBehind(Shown(t, 7 + k), front, back);
      front := Shown(t, 7 + k) + front;
    }
  }

  lemma StuckBehind(shown: string, front: string, back: string)
    requires Nuls(shown) % 2 == 0 && StuckAt(front + back, front, back)
    ensures StuckAt(shown + (front + back), shown + front, back)
  {
    hide Nuls, IsJ;
    NulsConcat(shown, front);
  }

  lemma ShownEven(t: Token, stage: nat)
    requires t != Plain('\0')
    ensures Nuls(Shown(t, stage)) % 2 == 0
  {
    ShownNul(t, stage);
    hide Guard, Domain, Nuls, NewName, OldName;
    NulsNone(Shown(t, stage));
    if t.DomainToken? {
      GuardNuls(t.k);
    }
  }

  // ----- The whole script -----

  lemma {:induction false} TokensNulFree(s: string)
    requires NulFree(s)
    ensures NulFreeTokens(Tokens(s))
    decreases |s|
  {
    hide Domain, OldName;
    if s != "" {
      FirstTokenStarts(s);
      TokensNulFree(s[|Original(FirstToken(s))|..]);
    }
  }

  lemma {:induction false} RenderNulFree(ts: seq<Token>)
    requires NulFreeTokens(ts)
    ensures NulFree(Render(ts, 9))
  {
    hide Shown;
    if ts != [] {
      ShownNul(ts[0], 9);
      RenderNulFree(ts[1..]);
    }
  }

  /** Up to each pass the text is as intended, or stuck for good. */
  lemma {:induction false} RestoringRun(ts: seq<Token>, text: string, n: nat) returns (front: string, back: string)
    requires n <= 3 && NulFreeTokens(ts) && AfterPasses(text, 6) == Render(ts, 6)
    ensures (forall k: Casing | k < n :: SafeFor(ts, k)) ==> AfterPasses(text, 6 + n) == Render(ts, 6 + n)
    ensures !(forall k: Casing | k < n :: SafeFor(ts, k)) ==> StuckAt(AfterPasses(text, 6 + n), front, back)
  {
    hide SafeFor, Render, Replace, Guard, Domain, StuckAt;
    if n == 0 {
      front, back := "", "";
    } else {
      var k: Casing := n - 1;
      front, back := RestoringRun(ts, text, k);
      assert AfterPasses(text, 6 + n) == Replace(AfterPasses(text, 6 + k), Guard(k), Domain(k));
      if !(forall j: Casing | j < k :: SafeFor(ts, j)) {
        front, back := StuckStays(AfterPasses(text, 6 + k), front, back, k);
      } else if SafeFor(ts, k) {
        RestoringExact(ts, k);
      } else {
        front, back := RestoringBreaks(ts, k);
      }
    }
  }

  /** The nine passes are the one intended pass exactly on the safe texts. */
  lemma RewriteIsRenamedIff(text: string)
    requires NulFree(text)
    ensures AfterPasses(text, 9) == Renamed(text) <==> Safe(Tokens(text))
  {
    hide Tokens, Render, Tokenized, AfterPasses, SafeFor, Nuls;
    var ts := Tokens(text);
    TokensRender(text);
    TokensNulFree(text);
    Guarded(ts, text, 6);
    var front, back := RestoringRun(ts, text, 3);
    RenderNulFree(ts);
    if !Safe(ts) {
      NulsNone(front);
      assert forall c :: c in front ==> c in front + back;
    }
  }

  // ----- Rewriting twice is rewriting once -----

  /** No cased old name anywhere. */
  ghost predicate Clean(s: string) {
    s == "" || (Clean(s[1..]) && forall k: Casing :: !StartsWith(s, OldName(k)))
  }

  lemma {:induction false} CleanSuffix(a: string, b: string)
    requires Clean(a + b)
    ensures Clean(b)
  {
    hide OldName;
    if a == "" {
      assert a + b == b;
    } else {
      ConcatTail(a, b);
      CleanSuffix(a[1..], b);
    }
  }

  lemma {:induction false} CleanPast(a: string, b: string)
    requires (forall i :: 0 <= i < |a| ==> !IsJ(a[i])) && Clean(b)
    ensures Clean(a + b)
  {
    hide OldName, IsJ;
    if a == "" {
      assert a + b == b;
    } else {
      ConcatTail(a, b);
      CleanPast(a[1..], b);
      forall k: Casing ensures !StartsWith(a + b, OldName(k)) {
        OldLetters(k);
        if StartsWith(a + b, OldName(k)) {
          OccursChar(a + b, OldName(k), 0, 0);
        }
      }
    }
  }

  lemma {:induction false} GuardedIsClean(ts: seq<Token>)
    requires Tokenized(ts)
    ensures Clean(Render(ts, 6))
  {
    hide OldName, NewName, GuardBody, DomainSuffix, IsTail;
    if ts != [] {
      var rest := Render(ts[1..], 6);
      GuardedIsClean(ts[1..]);
      match ts[0]
      case DomainToken(k) =>
        GuardShape(k);
        CleanPast(Guard(k), rest);
      case NameToken(k) =>
        NewLetters(k);
        CleanPast(NewName(k), rest);
      case Plain(c) =>
        forall k: Casing ensures !StartsWith([c] + rest, OldName(k)) {
          OldLetters(k);
          StartsWithChar(c, rest, OldName(k));
          StartsWithChar(c, Render(ts[1..], 0), OldName(k));
          if StartsWith([c] + rest, OldName(k)) {
            PlainRun(ts[1..], 6, 0, OldName(k)[1..]);
          }
        }
    }
  }

  /** A text of which only domains have been restored. */
  predicate Restored(ts: seq<Token>) {
    forall t <- ts :: !t.NameToken?
  }

  lemma {:induction false} RestoredIsTokenized(ts: seq<Token>)
    requires Restored(ts) && Clean(Render(ts, 6))
    ensures Tokenized(ts)
  {
    hide OldName, NewName, GuardBody, DomainSuffix, IsTail;
    if ts != [] {
      var rest := Render(ts[1..], 6);
      CleanSuffix(Shown(ts[0], 6), rest);
      RestoredIsTokenized(ts[1..]);
      if ts[0].Plain? {
        var c := ts[0].c;
        forall k: Casing ensures !StartsWith(Render(ts, 0), OldName(k)) {
          OldLetters(k);
          StartsWithChar(c, rest, OldName(k));
          StartsWithChar(c, Render(ts[1..], 0), OldName(k));
          assert !StartsWith(Render(ts, 6), OldName(k));
          if StartsWith(Render(ts, 0), OldName(k)) {
            PlainRun(ts[1..], 0, 6, OldName(k)[1..]);
          }
        }
      }
    }
  }

  /** The tokens of a text no domain of which is to be read as one. */
  function Plains(s: string): (ts: seq<Token>)
    ensures |ts| == |s| && forall i :: 0 <= i < |s| ==> ts[i] == Plain(s[i])
  {
    if s == "" then [] else [Plain(s[0])] + Plains(s[1..])
  }

  lemma {:induction false} PlainsShow(s: string, stage: nat)
    ensures Render(Plains(s), stage) == s
  {
    if s != "" {
      PlainsShow(s[1..], stage);
    }
  }

  lemma {:induction false} RenderConcat(a: seq<Token>, b: seq<Token>, stage: nat)
    ensures Render(a + b, stage) == Render(a, stage) + Render(b, stage)
  {
    hide Shown;
    if a == [] {
      assert a + b == b;
    } else {
      ConcatTail(a, b);
      RenderConcat(a[1..], b, stage);
    }
  }

  /** Quiet or NUL text at the front is plain. */
  lemma {:induction false} PlainFront(ts: seq<Token>, w: string)
    requires Restored(ts) && StartsWith(Render(ts, 0), w) && forall i :: 0 <= i < |w| ==> !IsJ(w[i])
    ensures |w| <= |ts| && ts[..|w|] == Plains(w)
  {
    hide OldName, DomainSuffix, IsJ;
    if w != "" {
      OccursChar(Render(ts, 0), w, 0, 0);
      var t := ts[0];
      if !t.Plain? {
        DomainLetters(t.k);
      } else {
        StartsWithChar(t.c, Render(ts[1..], 0), w);
        PlainFront(ts[1..], w[1..]);
        assert ts[..|w|] == [t] + ts[1..][..|w| - 1];
      }
    }
  }

  /** A restoring pass turns guards into domains, true guards or not, and can be read backwards. */
  lemma {:induction false} RestoringPass(ts: seq<Token>, k: Casing) returns (after: seq<Token>)
    requires Restored(ts)
    ensures Restored(after)
    ensures Replace(Render(ts, 0), Guard(k), Domain(k)) == Render(after, 0)
    ensures Render(after, 6) == Render(ts, 6)
    decreases |ts|
  {
    hide OldName, DomainSuffix, GuardBody, Guard, Domain;
    if ts == [] {
      after := [];
    } else if StartsWith(Render(ts, 0), Guard(k)) {
      GuardShape(k);
      PlainFront(ts, Guard(k));
      var rest := RestoringPass(ts[26..], k);
      after := [DomainToken(k)] + rest;
      GuardFront(ts, k);
      TakePrefix(Render(ts[26..], 0), Guard(k), Domain(k));
    } else {
      var rest := RestoringPass(ts[1..], k);
      after := [ts[0]] + rest;
      GuardShape(k);
      DomainInner(ts[0]);
      SkipToken(Shown(ts[0], 0), Render(ts[1..], 0), Guard(k), Domain(k));
    }
  }

  lemma GuardFront(ts: seq<Token>, k: Casing)
    requires |ts| >= 26 && ts[..26] == Plains(Guard(k))
    ensures Render(ts, 0) == Guard(k) + Render(ts[26..], 0)
    ensures Render(ts, 6) == Guard(k) + Render(ts[26..], 6)
  {
    hide *;
    assert ts == ts[..26] + ts[26..];
    RenderConcat(ts[..26], ts[26..], 0);
    RenderConcat(ts[..26], ts[26..], 6);
    PlainsShow(Guard(k), 0);
    PlainsShow(Guard(k), 6);
  }

  lemma DomainInner(t: Token)
    requires !t.NameToken?
    ensures Shown(t, 0) != ""
    ensures forall i :: 0 < i < |Shown(t, 0)| ==> Shown(t, 0)[i] != '\0'
  {
    hide Domain;
    if t.DomainToken? {
      DomainLetters(t.k);
    }
  }

  lemma RestoringPasses(guarded: string) returns (ts: seq<Token>)
    ensures Restored(ts) && Render(ts, 6) == guarded
    ensures Render(ts, 0) ==
      Replace(Replace(Replace(guarded, Guard(0), Domain(0)), Guard(1), Domain(1)), Guard(2), Domain(2))
  {
    hide *;
    ts := Plains(guarded);
    PlainsShow(guarded, 0);
    PlainsShow(guarded, 6);
    assert Restored(ts) by {
      NoNames(guarded);
    }
    ts := RestoringPass(ts, 0);
    ts := RestoringPass(ts, 1);
    ts := RestoringPass(ts, 2);
  }

  lemma NoNames(s: string)
    ensures Restored(Plains(s))
  {
  }

  lemma LastPasses(text: string)
    ensures AfterPasses(text, 9) ==
      Replace(Replace(Replace(AfterPasses(text, 6), Guard(0), Domain(0)), Guard(1), Domain(1)), Guard(2), Domain(2))
  {
    hide Replace, OldName, DomainSuffix, GuardBody, Domain;
    var six := AfterPasses(text, 6);
    assert AfterPasses(text, 7) == Replace(six, Guard(0), Domain(0));
    assert AfterPasses(text, 8) == Replace(AfterPasses(text, 7), Guard(1), Domain(1));
    assert AfterPasses(text, 9) == Replace(AfterPasses(text, 8), Guard(2), Domain(2));
  }

  /** `rewrite` is idempotent, on every text. */
  lemma RewriteIdempotent(text: string)
    ensures AfterPasses(AfterPasses(text, 9), 9) == AfterPasses(text, 9)
  {
    hide *;
    var guarded := AfterPasses(text, 6);
    TokensRender(text);
    Guarded(Tokens(text), text, 6);
    GuardedIsClean(Tokens(text));
    LastPasses(text);
    var ts := RestoringPasses(guarded);
    RestoredIsTokenized(ts);
    Guarded(ts, AfterPasses(text, 9), 6);
    LastPasses(AfterPasses(text, 9));
  }

  // ----- The texts the script gets wrong -----

  lemma {:induction false} QuietTokens(q: string, rest: string)
    requires IsQuiet(q)
    ensures Tokens(q + rest) == Plains(q) + Tokens(rest)
    decreases |q|
  {
    if q == "" {
      assert q + rest == rest;
    } else {
      var s := q + rest;
      ConcatTail(q, rest);
      forall k: Casing ensures !StartsWith(s, OldName(k)) && !StartsWith(s, Domain(k)) {
        OldLetters(k);
        DomainLetters(k);
        hide OldName, Domain;
        if StartsWith(s, OldName(k)) {
          OccursChar(s, OldName(k), 0, 0);
        }
        if StartsWith(s, Domain(k)) {
          OccursChar(s, Domain(k), 0, 0);
        }
      }
      hide OldName, Domain;
      QuietTokens(q[1..], rest);
      Associative([Plain(q[0])], Plains(q[1..]), Tokens(rest));
    }
  }

  lemma DomainTokens(k: Casing, rest: string)
    ensures Tokens(Domain(k) + rest) == [DomainToken(k)] + Tokens(rest)
  {
    var s := Domain(k) + rest;
    DomainLetters(k);
    Begins(Domain(k), rest);
    assert FirstToken(s) == DomainToken(k) by {
      OnlyDomain(s, k);
    }
    hide Domain, FirstToken;
    assert s[|Domain(k)|..] == rest;
  }

  lemma OnlyDomain(s: string, k: Casing)
    requires s != "" && StartsWith(s, Domain(k))
    ensures FirstToken(s) == DomainToken(k)
  {
    forall j: Casing ensures StartsWith(s, Domain(j)) ==> j == k {
      hide OldName, DomainSuffix;
      Begins(OldName(j), DomainSuffix(j));
      Begins(OldName(k), DomainSuffix(k));
      if StartsWith(s, Domain(j)) {
        StartsTrans(s, Domain(j), OldName(j));
        StartsTrans(s, Domain(k), OldName(k));
        OneCasing(s, j, k);
      }
    }
    hide Domain, OldName;
  }

  lemma {:induction false} PlainsGap(q: string, ts: seq<Token>)
    requires ts != [] && ts[0].DomainToken?
    ensures Gap(Plains(q) + ts) == q && FromDomain(Plains(q) + ts) == ts
  {
    if q == "" {
      assert Plains(q) + ts == ts;
    } else {
      ConcatTail(Plains(q), ts);
      PlainsGap(q[1..], ts);
    }
  }

  lemma {:induction false} PlainsTokensShow(q: string, ts: seq<Token>, stage: nat)
    ensures Render(Plains(q) + ts, stage) == q + Render(ts, stage)
  {
    RenderConcat(Plains(q), ts, stage);
    PlainsShow(q, stage);
  }

  lemma BreakingTokens(a: Casing, k: Casing, b: Casing)
    ensures Tokens(Domain(a) + (GuardBody(k) + Domain(b))) ==
      [DomainToken(a)] + (Plains(GuardBody(k)) + [DomainToken(b)])
  {
    GuardLetters(k);
    hide Domain, GuardBody;
    DomainTokens(b, "");
    assert Domain(b) + "" == Domain(b);
    QuietTokens(GuardBody(k), Domain(b));
    DomainTokens(a, GuardBody(k) + Domain(b));
    assert Tokens("") == [];
    hide Tokens;
  }

  lemma BreakingShown(a: Casing, k: Casing, b: Casing)
    ensures Render([DomainToken(a)] + (Plains(GuardBody(k)) + [DomainToken(b)]), 9)
         == Domain(a) + (GuardBody(k) + Domain(b))
  {
    assert Shown(DomainToken(a), 9) == Domain(a) && Shown(DomainToken(b), 9) == Domain(b);
    hide Domain, GuardBody, Shown;
    PlainsTokensShow(GuardBody(k), [DomainToken(b)], 9);
    assert Render([DomainToken(b)], 9) == Domain(b);
  }

  /** Two domains and a guard name between them hold nothing to rename, yet the script changes them. */
  lemma RewriteBreaksText(a: Casing, k: Casing, b: Casing) returns (text: string)
    requires k < a && k <= b
    ensures text == Domain(a) + (GuardBody(k) + Domain(b))
    ensures Renamed(text) == text && AfterPasses(text, 9) != text
  {
    text := Domain(a) + (GuardBody(k) + Domain(b));
    GuardLetters(k);
    DomainNuls(a);
    DomainNuls(b);
    BreakingTokens(a, k, b);
    BreakingShown(a, k, b);
    PlainsGap(GuardBody(k), [DomainToken(b)]);
    hide Domain, GuardBody, Shown, Render, Tokens, Plains, AfterPasses;
    assert !SafeFor(Tokens(text), k);
    RewriteIsRenamedIff(text);
  }
}
