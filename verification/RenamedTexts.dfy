/** What the rename script does to actual letters: the case of every name is kept, and so is everything else. */
module RenamedTexts {
  import opened Rename
  import opened Text

  // ----- The tables -----

  predicate IsUpper(c: char) {
    'A' <= c <= 'Z'
  }

  function Lowered(s: string): string {
    seq(|s|, i requires 0 <= i < |s| => if IsUpper(s[i]) then s[i] - 'A' + 'a' else s[i])
  }

  /** The same word in lower case before and after, in upper case at the same places: everywhere, in front only, or
      nowhere. */
  lemma NamesKeepCase(k: Casing)
    ensures Lowered(OldName(k)) == "jonline" && Lowered(NewName(k)) == "rellm" && Lowered(Domain(k)) == "jonline.io"
    ensures forall i :: 0 <= i < 7 ==> (IsUpper(OldName(k)[i]) <==> k == 0 || (k == 1 && i == 0))
    ensures forall i :: 0 <= i < 5 ==> (IsUpper(NewName(k)[i]) <==> k == 0 || (k == 1 && i == 0))
  {
    DomainIs(k);
    hide Domain, DomainSuffix;
  }

  lemma DomainIs(k: Casing)
    ensures Domain(k) == if k == 0 then "JONLINE.IO" else if k == 1 then "Jonline.io" else "jonline.io"
  {
    assert "JONLINE" + ".IO" == "JONLINE.IO";
    assert "Jonline" + ".io" == "Jonline.io";
    assert "jonline" + ".io" == "jonline.io";
  }

  lemma NamesAre(k: Casing)
    ensures OldName(k) == if k == 0 then "JONLINE" else if k == 1 then "Jonline" else "jonline"
    ensures NewName(k) == if k == 0 then "RELLM" else if k == 1 then "Rellm" else "rellm"
    ensures DomainSuffix(k) == if k == 0 then ".IO" else ".io"
  {
  }

  // ----- The intended result, letter by letter -----

  lemma NameTokens(k: Casing, rest: string)
    requires !StartsWith(rest, DomainSuffix(k))
    ensures Tokens(OldName(k) + rest) == [NameToken(k)] + Tokens(rest)
  {
    var s := OldName(k) + rest;
    OldLetters(k);
    Begins(OldName(k), rest);
    StartsPast(OldName(k), rest, DomainSuffix(k));
    assert FirstToken(s) == NameToken(k) by {
      OnlyName(s, k);
    }
    hide OldName, DomainSuffix, FirstToken;
    assert s[|OldName(k)|..] == rest;
  }

  lemma OnlyName(s: string, k: Casing)
    requires s != "" && StartsWith(s, OldName(k)) && !StartsWith(s, Domain(k))
    ensures FirstToken(s) == NameToken(k)
  {
    forall j: Casing | StartsWith(s, OldName(j)) || StartsWith(s, Domain(j)) ensures j == k {
      hide OldName, DomainSuffix;
      Begins(OldName(j), DomainSuffix(j));
      if StartsWith(s, Domain(j)) {
        StartsTrans(s, Domain(j), OldName(j));
      }
      OneCasing(s, j, k);
    }
    hide Domain, OldName;
  }

  lemma RenamedDomain(k: Casing, rest: string)
    ensures Renamed(Domain(k) + rest) == Domain(k) + Renamed(rest)
  {
    hide OldName, DomainSuffix, Tokens;
    DomainTokens(k, rest);
  }

  lemma RenamedName(k: Casing, rest: string)
    requires !StartsWith(rest, DomainSuffix(k))
    ensures Renamed(OldName(k) + rest) == NewName(k) + Renamed(rest)
  {
    hide OldName, NewName, DomainSuffix, Tokens;
    NameTokens(k, rest);
  }

  /** Domains are kept whatever follows. */
  lemma DomainsAreKept(rest: string)
    ensures Renamed("JONLINE.IO" + rest) == "JONLINE.IO" + Renamed(rest)
    ensures Renamed("Jonline.io" + rest) == "Jonline.io" + Renamed(rest)
    ensures Renamed("jonline.io" + rest) == "jonline.io" + Renamed(rest)
  {
    hide *;
    forall k: Casing ensures Renamed(Domain(k) + rest) == Domain(k) + Renamed(rest) {
      RenamedDomain(k, rest);
    }
    DomainIs(0);
    DomainIs(1);
    DomainIs(2);
  }

  /** Every other occurrence of the name becomes the new one in the same case. */
  lemma NamesAreReplaced(rest: string)
    ensures !StartsWith(rest, ".IO") ==> Renamed("JONLINE" + rest) == "RELLM" + Renamed(rest)
    ensures !StartsWith(rest, ".io") ==> Renamed("Jonline" + rest) == "Rellm" + Renamed(rest)
    ensures !StartsWith(rest, ".io") ==> Renamed("jonline" + rest) == "rellm" + Renamed(rest)
  {
    hide *;
    forall k: Casing | !StartsWith(rest, DomainSuffix(k))
      ensures Renamed(OldName(k) + rest) == NewName(k) + Renamed(rest)
    {
      RenamedName(k, rest);
    }
    NamesAre(0);
    NamesAre(1);
    NamesAre(2);
  }

  /** And a character that begins none of them stays. */
  lemma OthersAreKept(c: char, rest: string)
    requires !StartsWith([c] + rest, "JONLINE") && !StartsWith([c] + rest, "Jonline")
    requires !StartsWith([c] + rest, "jonline")
    ensures Renamed([c] + rest) == [c] + Renamed(rest)
    ensures Renamed("") == ""
  {
    var s := [c] + rest;
    assert s[0] == c && s[1..] == rest;
    hide StartsWith;
    forall k: Casing ensures !StartsWith(s, OldName(k)) && !StartsWith(s, Domain(k)) {
      NamesAre(k);
      if StartsWith(s, Domain(k)) {
        Begins(OldName(k), DomainSuffix(k));
        StartsTrans(s, Domain(k), OldName(k));
      }
    }
    hide OldName, Domain;
    assert FirstToken(s) == Plain(c);
    hide FirstToken;
    assert Tokens(s) == [Plain(c)] + Tokens(rest);
  }

  // ----- Texts without the letters of a guard -----

  /** No new name can be part of this word. */
  predicate IsApart(w: string) {
    forall i :: 0 <= i < |w| && (w[i] == 'R' || w[i] == 'r') ==> i + 2 < |w| && w[i + 2] != 'L' && w[i + 2] != 'l'
  }

  lemma {:induction false} ApartIsPlain(ts: seq<Token>, w: string)
    requires IsApart(w) && StartsWith(Gap(ts), w)
    ensures StartsWith(Render(ts, 0), w)
    decreases |w|
  {
    hide OldName, DomainSuffix, NewName, GuardBody;
    if w != "" {
      var t := ts[0];
      OccursChar(Gap(ts), w, 0, 0);
      if t.NameToken? {
        NewLetters(t.k);
        NamesAre(t.k);
        OccursChar(Gap(ts), w, 0, 2);
      } else {
        StartsWithChar(t.c, Gap(ts[1..]), w);
        StartsWithChar(t.c, Render(ts[1..], 0), w);
        ApartIsPlain(ts[1..], w[1..]);
      }
    }
  }

  /** Where the shown text holds a new name and such a word, the original text holds the word. */
  lemma {:induction false} BehindName(ts: seq<Token>, i: nat, w: string) returns (at: nat)
    requires i <= 5 && IsApart(w) && StartsWith(Gap(ts), "RELLM"[i..] + w)
    ensures OccursAt(Render(ts, 0), w, at)
    decreases 5 - i
  {
    hide OldName, DomainSuffix, NewName, GuardBody, IsApart;
    var name := "RELLM"[i..];
    if i == 5 {
      assert name + w == w;
      ApartIsPlain(ts, w);
      at := 0;
    } else {
      var t := ts[0];
      OccursChar(Gap(ts), name + w, 0, 0);
      if t.NameToken? {
        NamesAre(t.k);
        assert i == 0;
        OccursChar(Gap(ts), name + w, 0, 1);
        assert NewName(t.k) == "RELLM" && name == "RELLM";
        StartsPast("RELLM", Gap(ts[1..]), w);
        assert "RELLM"[5..] + w == w;
        at := BehindName(ts[1..], 5, w);
      } else {
        StartsWithChar(t.c, Gap(ts[1..]), name + w);
        assert (name + w)[1..] == "RELLM"[i + 1..] + w;
        at := BehindName(ts[1..], i + 1, w);
      }
      at := at + |Shown(t, 0)|;
      OccursInSuffix(Shown(t, 0), Render(ts[1..], 0), w, at);
    }
  }

  lemma GuardBodyIs(k: Casing)
    ensures StartsWith(GuardBody(k), "RELLM" + "_RENAME_GUARD_")
  {
    assert "RELLM" + "_RENAME_GUARD_" == "RELLM_RENAME_GUARD_";
    assert forall i :: 0 <= i < 19 ==> GuardBody(k)[0..19][i] == "RELLM_RENAME_GUARD_"[i];
  }

  lemma SeparatedIsApart()
    ensures IsApart("_RENAME_GUARD_")
  {
  }

  lemma ClashShows(ts: seq<Token>, k: Casing) returns (at: nat)
    requires Clash(ts, k)
    ensures OccursAt(Render(ts, 0), "_RENAME_GUARD_", at)
  {
    hide OldName, DomainSuffix, NewName, GuardBody, IsApart, Gap, Render;
    GuardBodyIs(k);
    SeparatedIsApart();
    assert "RELLM"[0..] == "RELLM";
    at := BehindName(ts, 0, "_RENAME_GUARD_");
  }

  lemma {:induction false} SafeWithout(ts: seq<Token>, k: Casing)
    requires !Contains(Render(ts, 0), "_RENAME_GUARD_")
    ensures SafeFor(ts, k)
  {
    hide Shown, Clash, OldName;
    if ts != [] {
      var front, rest := Shown(ts[0], 0), Render(ts[1..], 0);
      forall at ensures !OccursAt(rest, "_RENAME_GUARD_", at) {
        assert !OccursAt(front + rest, "_RENAME_GUARD_", |front| + at);
        if at >= 0 {
          OccursInSuffix(front, rest, "_RENAME_GUARD_", |front| + at);
        }
      }
      SafeWithout(ts[1..], k);
      if Clash(ts[1..], k) {
        var at := ClashShows(ts[1..], k);
      }
    }
  }

  /** On every text without NULs and without the middle of a guard the script does what it is for. */
  lemma RewriteIsRenamed(text: string)
    requires NulFree(text) && !Contains(text, "_RENAME_GUARD_")
    ensures AfterPasses(text, 9) == Renamed(text)
  {
    hide *;
    TokensRender(text);
    forall k: Casing ensures SafeFor(Tokens(text), k) {
      SafeWithout(Tokens(text), k);
    }
    AllSafe(Tokens(text));
    RewriteIsRenamedIff(text);
  }

  lemma AllSafe(ts: seq<Token>)
    requires forall k: Casing :: SafeFor(ts, k)
    ensures Safe(ts)
  {
  }

  // ----- The letters -----

  lemma OrdinaryText(text: string)
    requires '\0' !in text && '_' !in text
    ensures AfterPasses(text, 9) == Renamed(text)
  {
    hide AfterPasses, Renamed;
    forall i ensures !OccursAt(text, "_RENAME_GUARD_", i) {
      if OccursAt(text, "_RENAME_GUARD_", i) {
        OccursChar(text, "_RENAME_GUARD_", i, 0);
      }
    }
    RewriteIsRenamed(text);
  }

  lemma NothingRenamed()
    ensures Renamed("") == ""
  {
  }

  lemma NameRewritten(k: Casing)
    ensures AfterPasses(OldName(k), 9) == NewName(k)
  {
    OrdinaryText(OldName(k));
    hide OldName, NewName, DomainSuffix, AfterPasses, Tokens;
    NamesAre(k);
    RenamedName(k, "");
    NothingRenamed();
    assert OldName(k) + "" == OldName(k) && NewName(k) + "" == NewName(k);
  }

  lemma DomainRewritten(k: Casing)
    ensures AfterPasses(Domain(k), 9) == Domain(k)
  {
    DomainIs(k);
    hide DomainSuffix, AfterPasses, Tokens, Domain;
    OrdinaryText(Domain(k));
    RenamedDomain(k, "");
    NothingRenamed();
    assert Domain(k) + "" == Domain(k);
  }

  /** The script on the six words it is about. */
  lemma CaseIsKept()
    ensures AfterPasses("JONLINE", 9) == "RELLM" && AfterPasses("JONLINE.IO", 9) == "JONLINE.IO"
    ensures AfterPasses("Jonline", 9) == "Rellm" && AfterPasses("Jonline.io", 9) == "Jonline.io"
    ensures AfterPasses("jonline", 9) == "rellm" && AfterPasses("jonline.io", 9) == "jonline.io"
  {
    hide *;
    forall k: Casing ensures AfterPasses(OldName(k), 9) == NewName(k) && AfterPasses(Domain(k), 9) == Domain(k) {
      NameRewritten(k);
      DomainRewritten(k);
    }
    NamesAre(0);
    NamesAre(1);
    NamesAre(2);
    DomainIs(0);
    DomainIs(1);
    DomainIs(2);
  }

  /** A text that holds none of the three names is left alone. */
  lemma UnrelatedTextStays(text: string)
    requires NulFree(text) && !Contains(text, "JONLINE") && !Contains(text, "Jonline") && !Contains(text, "jonline")
    ensures AfterPasses(text, 9) == text
  {
    hide Replace, Pattern, OldName;
    forall pass: nat | pass < 9 ensures !Contains(text, Pattern(pass)) {
      NoPattern(text, pass);
    }
    NothingReplaced(text, text, 0, 9);
  }

  lemma NoPattern(text: string, pass: nat)
    requires pass < 9 && NulFree(text)
    requires !Contains(text, "JONLINE") && !Contains(text, "Jonline") && !Contains(text, "jonline")
    ensures !Contains(text, Pattern(pass))
  {
    hide OldName, Domain, Guard;
    forall i ensures !OccursAt(text, Pattern(pass), i) {
      if OccursAt(text, Pattern(pass), i) {
        if pass < 6 {
          NamesAre(pass % 3);
          PatternLetters(pass);
          OccursWithin(text, Pattern(pass), OldName(pass % 3), i);
        } else {
          GuardShape(pass - 6);
          OccursChar(text, Pattern(pass), i, 0);
        }
      }
    }
  }

  lemma OccursWithin(s: string, w: string, v: string, i: int)
    requires OccursAt(s, w, i) && StartsWith(w, v)
    ensures OccursAt(s, v, i)
  {
    assert s[i..i + |w|][0..|v|] == s[i..i + |v|];
  }

  lemma ReplaceNothing(old': string, new': string)
    requires old' != ""
    ensures Replace("", old', new') == ""
  {
  }

  lemma {:induction false} NothingReplaced(original: string, text: string, since: nat, passes: nat)
    requires since <= passes <= 9 && AfterPasses(original, since) == text
    requires forall pass: nat :: since <= pass < passes ==> !Contains(text, Pattern(pass))
    ensures AfterPasses(original, passes) == text
  {
    hide Replace, Pattern, Substitute;
    if passes != since {
      NothingReplaced(original, text, since, passes - 1);
      assert !Contains(text, Pattern(passes - 1));
      assert text + "" == text;
      SkipPrefix(text, "", Pattern(passes - 1), Substitute(passes - 1));
      ReplaceNothing(Pattern(passes - 1), Substitute(passes - 1));
    }
  }

  // ----- Texts with the letters of a guard -----

  lemma NoNameInGuard(k: Casing, pass: nat)
    requires pass < 6 + k
    ensures !Contains(Guard(k), Pattern(pass))
  {
    GuardShape(k);
    hide Guard, IsJ, Domain, OldName;
    forall i ensures !OccursAt(Guard(k), Pattern(pass), i) {
      if OccursAt(Guard(k), Pattern(pass), i) {
        OccursChar(Guard(k), Pattern(pass), i, 0);
        if pass < 6 {
          PatternLetters(pass);
        } else {
          GuardShape(pass - 6);
          CasingsDiffer(pass - 6, k);
          OccursChar(Guard(k), Guard(pass - 6), 0, 20);
        }
      }
    }
  }

  lemma NoGuardInDomain(k: Casing, pass: nat)
    requires 6 <= pass < 9
    ensures !Contains(Domain(k), Pattern(pass))
  {
    DomainNuls(k);
    GuardShape(pass - 6);
    hide Guard, Domain, OldName;
    forall i ensures !OccursAt(Domain(k), Pattern(pass), i) {
      if OccursAt(Domain(k), Pattern(pass), i) {
        OccursChar(Domain(k), Pattern(pass), i, 0);
      }
    }
  }

  lemma GuardRewritten(k: Casing)
    ensures AfterPasses(Guard(k), 9) == Domain(k)
  {
    hide Guard, Domain, OldName, Replace;
    forall pass: nat | pass < 6 + k ensures !Contains(Guard(k), Pattern(pass)) {
      NoNameInGuard(k, pass);
    }
    NothingReplaced(Guard(k), Guard(k), 0, 6 + k);
    assert Guard(k) + "" == Guard(k) && Domain(k) + "" == Domain(k);
    TakePrefix("", Guard(k), Domain(k));
    ReplaceNothing(Guard(k), Domain(k));
    assert AfterPasses(Guard(k), 7 + k) == Domain(k);
    forall pass: nat | 7 + k <= pass < 9 ensures !Contains(Domain(k), Pattern(pass)) {
      NoGuardInDomain(k, pass);
    }
    NothingReplaced(Guard(k), Domain(k), 7 + k, 9);
  }

  /** A text that holds a guard already comes out with the domain in its place. */
  lemma GuardsBecomeDomains()
    ensures AfterPasses("\0" + "RELLM_RENAME_GUARD_UPPER" + "\0", 9) == "JONLINE.IO"
    ensures AfterPasses("\0" + "RELLM_RENAME_GUARD_TITLE" + "\0", 9) == "Jonline.io"
    ensures AfterPasses("\0" + "RELLM_RENAME_GUARD_LOWER" + "\0", 9) == "jonline.io"
  {
    hide *;
    forall k: Casing ensures AfterPasses(Guard(k), 9) == Domain(k) {
      GuardRewritten(k);
    }
    GuardIs();
    DomainIs(0);
    DomainIs(1);
    DomainIs(2);
  }

  lemma GuardIs()
    ensures Guard(0) == "\0" + "RELLM_RENAME_GUARD_UPPER" + "\0"
    ensures Guard(1) == "\0" + "RELLM_RENAME_GUARD_TITLE" + "\0"
    ensures Guard(2) == "\0" + "RELLM_RENAME_GUARD_LOWER" + "\0"
  {
  }

  /** And two domains with such letters between them are not restored. */
  lemma ScriptBreaks()
    ensures var text := "Jonline.io" + ("RELLM_RENAME_GUARD_UPPER" + "Jonline.io");
      AfterPasses(text, 9) != text
  {
    var text := RewriteBreaksText(1, 0, 1);
    DomainIs(1);
    GuardIs();
    hide *;
  }
}
