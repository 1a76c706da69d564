/** The `repair_email_messages` tool: undoing what `build_raw_message` did to messages before it sanitized
    header values. */
module EmailRepair {
  import opened Text
  import opened EmailMessage
  import opened Segments

  // ----- The repair -----

  predicate LooksLikeHeaderLine(segment: string) {
    var colon := Find(segment, ":");
    colon > 0 && forall c :: c in segment[..colon] ==> IsFieldNameChar(c)
  }

  function ResanitizeHeaderSegment(segment: string): string {
    var i := Find(segment, ": ");
    if i == -1 then SanitizeHeaderValue(segment)
    else segment[..i] + ": " + SanitizeHeaderValue(segment[i + 2..])
  }

  /** A header segment has a colon behind one or more printable characters of US-ASCII, none of them a colon. */
  lemma LooksLikeHeaderLineIff(segment: string)
    ensures LooksLikeHeaderLine(segment) <==>
      exists n :: 0 < n < |segment| && segment[n] == ':'
               && forall i :: 0 <= i < n ==> '!' <= segment[i] <= '~' && segment[i] != ':'
  {
    hide OccursAt, Find;
    var colon := Find(segment, ":");
    forall i ensures OccursAt(segment, ":", i) <==> 0 <= i < |segment| && segment[i] == ':' {
      ColonAt(segment, i);
    }
    if LooksLikeHeaderLine(segment) {
      forall i | 0 <= i < colon ensures '!' <= segment[i] <= '~' && segment[i] != ':' {
        assert segment[i] in segment[..colon];
      }
    }
    if n :| 0 < n < |segment| && segment[n] == ':'
            && forall i :: 0 <= i < n ==> '!' <= segment[i] <= '~' && segment[i] != ':' {
      FindIs(segment, ":", n);
    }
  }

  lemma ColonAt(segment: string, i: int)
    ensures OccursAt(segment, ":", i) <==> 0 <= i < |segment| && segment[i] == ':'
  {
    if 0 <= i < |segment| {
      assert segment[i..i + 1] == [segment[i]];
    }
  }

  /** Only what is behind the first colon with a space is sanitized, and everything if there is none. */
  lemma ResanitizedIs(segment: string)
    ensures !Contains(segment, ": ") ==> ResanitizeHeaderSegment(segment) == SanitizeHeaderValue(segment)
    ensures forall n: nat :: FirstAt(segment, ": ", n) ==>
      ResanitizeHeaderSegment(segment) == segment[..n] + ": " + SanitizeHeaderValue(segment[n + 2..])
  {
    hide SanitizeHeaderValue;
    forall n: nat | FirstAt(segment, ": ", n)
      ensures ResanitizeHeaderSegment(segment) == segment[..n] + ": " + SanitizeHeaderValue(segment[n + 2..])
    {
      FindIs(segment, ": ", n);
    }
  }

  function HeaderCount(segments: seq<string>): (n: nat)
    ensures n <= |segments|
    ensures forall i :: 0 <= i < n ==> LooksLikeHeaderLine(segments[i])
    ensures n < |segments| ==> !LooksLikeHeaderLine(segments[n])
  {
    if segments != [] && LooksLikeHeaderLine(segments[0]) then 1 + HeaderCount(segments[1..]) else 0
  }

  function WithoutLeadingCrlf(segment: string): string {
    if StartsWith(segment, CRLF) then segment[2..] else segment
  }

  function Rejoined(segments: seq<string>): string {
    if segments == [] then "" else EMPTY_LINE + segments[0] + Rejoined(segments[1..])
  }

  function Body(segments: seq<string>): string {
    if segments == [] then "" else WithoutLeadingCrlf(segments[0]) + Rejoined(segments[1..])
  }

  /** The repaired message: the leading header segments one per line, an empty line, the body. */
  function Recovered(segments: seq<string>): string {
    if segments != [] && LooksLikeHeaderLine(segments[0]) then
      ResanitizeHeaderSegment(segments[0]) + CRLF + Recovered(segments[1..])
    else
      CRLF + Body(segments)
  }

  function Repaired(corrupted: string): string {
    var segments := Split(corrupted);
    if LooksLikeHeaderLine(segments[0]) then Recovered(segments) else corrupted
  }

  method RepairRawMessage(corrupted: string) returns (repaired: string)
    ensures repaired == Repaired(corrupted)
  {
    hide LooksLikeHeaderLine, ResanitizeHeaderSegment, WithoutLeadingCrlf;
    var segments := SplitOnDoubleCrlf(corrupted);
    var headerCount := HeaderCount(segments);
    if headerCount == 0 {
      return corrupted;
    }
    repaired := "";
    for k := 0 to headerCount
      invariant repaired + Recovered(segments[k..]) == Recovered(segments)
    {
      assert segments[k..][0] == segments[k] && segments[k..][1..] == segments[k + 1..];
      Associative(repaired, ResanitizeHeaderSegment(segments[k]) + CRLF, Recovered(segments[k + 1..]));
      Associative(repaired, ResanitizeHeaderSegment(segments[k]), CRLF);
      repaired := repaired + ResanitizeHeaderSegment(segments[k]);
      repaired := repaired + CRLF;
    }
    var body := segments[headerCount..];
    assert Recovered(body) == CRLF + Body(body);
    Associative(repaired, CRLF, Body(body));
    repaired := repaired + CRLF;
    if body != [] {
      var rest := body[1..];
      Associative(repaired, WithoutLeadingCrlf(body[0]), Rejoined(rest));
      repaired := repaired + WithoutLeadingCrlf(body[0]);
      assert rest[0..] == rest;
      for j := 0 to |rest|
        invariant repaired + Rejoined(rest[j..]) == Recovered(segments)
      {
        assert rest[j..][0] == rest[j] && rest[j..][1..] == rest[j + 1..];
        Associative(repaired, EMPTY_LINE + rest[j], Rejoined(rest[j + 1..]));
        Associative(repaired, EMPTY_LINE, rest[j]);
        repaired := repaired + EMPTY_LINE;
        repaired := repaired + rest[j];
      }
    }
  }

  // ----- The corruption -----

  /** What the old code made of values that already ended in their own CRLF: every header is followed by an
      empty line, and a further CRLF separates the last one from the body. */
  function Corrupt(headers: seq<Header>, contents: string): string {
    if headers == [] then CRLF + contents
    else Line(headers[0]) + EMPTY_LINE + Corrupt(headers[1..], contents)
  }

  // ----- The body -----

  lemma {:induction false} JoinIsRejoined(segments: seq<string>)
    requires segments != []
    ensures Join(segments) == segments[0] + Rejoined(segments[1..])
  {
    if |segments| > 1 {
      JoinIsRejoined(segments[1..]);
      Associative(segments[0], EMPTY_LINE, Join(segments[1..]));
      Associative(EMPTY_LINE, segments[1], Rejoined(segments[1..][1..]));
    } else {
      assert segments[0] + "" == segments[0];
    }
  }

  /** The first segment starts with a CRLF that is not part of a separator. */
  predicate HasLooseCrlf(data: string) {
    StartsWith(data, CRLF) && !StartsWith(data, EMPTY_LINE)
  }

  lemma FirstSegment(data: string)
    ensures StartsWith(Split(data)[0], CRLF) <==> HasLooseCrlf(data)
    ensures Split(data)[0] == "" || Split(data)[0][0] == data[0]
  {
    var i := Find(data, EMPTY_LINE);
    if i > 0 {
      assert !OccursAt(data, EMPTY_LINE, 0);
      if StartsWith(data, CRLF) {
        OccursChar(data, CRLF, 0, 1);
        OccursChar(data, EMPTY_LINE, i, 0);
        assert i != 1;
        assert data[..i][0..2] == data[0..2];
      }
      if StartsWith(data[..i], CRLF) {
        assert data[..i][0..2] == data[0..2];
      }
    }
  }

  lemma BodyOfSplit(data: string)
    ensures Body(Split(data)) == if HasLooseCrlf(data) then data[2..] else data
  {
    var segments := Split(data);
    hide Split;
    SplitIsLeftmost(data);
    JoinIsRejoined(segments);
    FirstSegment(data);
    if HasLooseCrlf(data) {
      DropOfConcat(segments[0], Rejoined(segments[1..]));
    }
  }

  lemma DropOfConcat(a: string, b: string)
    requires |a| >= 2
    ensures (a + b)[2..] == a[2..] + b
  {
  }

  lemma NotAHeader(data: string)
    requires data == "" || !IsFieldNameChar(data[0])
    ensures !LooksLikeHeaderLine(Split(data)[0])
    ensures Recovered(Split(data)) == CRLF + (if HasLooseCrlf(data) then data[2..] else data)
  {
    var segment := Split(data)[0];
    hide Split;
    FirstSegment(data);
    BodyOfSplit(data);
    var colon := Find(segment, ":");
    if colon > 0 {
      assert segment[0] in segment[..colon];
    }
  }

  // ----- One header -----

  lemma NameThenColon(name: string, rest: string)
    requires IsFieldName(name)
    ensures Find(name + ": " + rest, ":") == |name| && Find(name + ": " + rest, ": ") == |name|
  {
    var all := name + ": " + rest;
    FirstColon(Header(name, rest));
    FieldNameFacts(name);
    assert all[|name|..|name| + 1] == ":";
    forall i | 0 <= i < |name| ensures !OccursAt(all, ":", i) {
      assert all[i] == name[i] && name[i] in name;
      if OccursAt(all, ":", i) {
        OccursChar(all, ":", i, 0);
      }
    }
    FindIs(all, ":", |name|);
  }

  lemma HeaderSegment(name: string, value: string)
    requires IsFieldName(name)
    ensures LooksLikeHeaderLine(name + ": " + value)
    ensures ResanitizeHeaderSegment(name + ": " + value) == name + ": " + SanitizeHeaderValue(value)
  {
    hide SanitizeHeaderValue;
    var all := name + ": " + value;
    NameThenColon(name, value);
    assert all[..|name|] == name && all[|name| + 2..] == value;
  }

  /** A separator in a header is a separator in its value, two bytes behind the name. */
  lemma SeparatorInValue(h: Header, rest: string, i: int)
    requires IsFieldName(h.name)
    ensures OccursAt(Line(h) + rest, EMPTY_LINE, i)
            <==> i >= |h.name| + 2 && OccursAt(h.value + rest, EMPTY_LINE, i - |h.name| - 2)
  {
    var prefix := h.name + ": ";
    assert Line(h) + rest == prefix + (h.value + rest);
    if i >= |prefix| {
      OccursInSuffix(prefix, h.value + rest, EMPTY_LINE, i);
    } else if 0 <= i {
      FieldNameFacts(h.name);
      assert prefix[i] in h.name || prefix[i] in ": ";
      assert (prefix + (h.value + rest))[i] == prefix[i];
      if OccursAt(prefix + (h.value + rest), EMPTY_LINE, i) {
        OccursChar(prefix + (h.value + rest), EMPTY_LINE, i, 0);
      }
    }
  }

  lemma LineClean(h: Header)
    requires IsFieldName(h.name)
    ensures IsClean(Line(h)) <==> IsClean(h.value)
  {
    hide IsClean, OccursAt;
    CleanIffFirst(Line(h));
    CleanIffFirst(h.value);
    var n, x, y := |h.name| + 2, Line(h) + EMPTY_LINE, h.value + EMPTY_LINE;
    forall i ensures OccursAt(x, EMPTY_LINE, i) <==> i >= n && OccursAt(y, EMPTY_LINE, i - n) {
      SeparatorInValue(h, EMPTY_LINE, i);
    }
    if FirstAt(x, EMPTY_LINE, |Line(h)|) {
      forall j | 0 <= j < |h.value| ensures !OccursAt(y, EMPTY_LINE, j) {
        assert OccursAt(x, EMPTY_LINE, j + n) <==> OccursAt(y, EMPTY_LINE, j + n - n);
      }
    }
  }

  // ----- The main result -----

  ghost predicate AreClean(headers: seq<Header>) {
    forall i :: 0 <= i < |headers| ==> IsClean(headers[i].value)
  }

  lemma CancelLine(a: string, b: string, x: string, y: string)
    requires IsOneLine(a) && IsOneLine(b)
    ensures a + CRLF + x == b + CRLF + y <==> a == b && x == y
  {
    if a + CRLF + x == b + CRLF + y {
      LineEnd(a, x);
      LineEnd(b, y);
      assert (a + CRLF + x)[..|a|] == a && (b + CRLF + y)[..|b|] == b;
      assert (a + CRLF + x)[|a| + 2..] == x && (b + CRLF + y)[|b| + 2..] == y;
    }
  }

  lemma {:induction false} StartsWithName(headers: seq<Header>, contents: string)
    requires headers != [] && HasFieldNames(headers)
    ensures RawMessage(headers, contents) != "" && RawMessage(headers, contents)[0] != '\r'
  {
    hide SanitizeHeaderValue;
    FieldNameFacts(headers[0].name);
    assert RawMessage(headers, contents)[0] == headers[0].name[0];
  }

  /** Behind a value's premature separator, what is left cannot be taken for the rest of the message. */
  lemma AfterPrematureSeparator(tail: string, headers: seq<Header>, contents: string)
    requires HasFieldNames(headers) && tail != "" && IsWhitespace(tail[0])
    requires headers == [] ==> |tail| > |contents| + 2
    ensures Recovered(Split(tail)) != RawMessage(headers, contents)
  {
    hide Split, SanitizeHeaderValue;
    NotAHeader(tail);
    if headers != [] {
      StartsWithName(headers, contents);
      assert Recovered(Split(tail))[0] == '\r';
    }
  }

  lemma CorruptBody(headers: seq<Header>, contents: string)
    ensures headers == [] ==> |Corrupt(headers, contents)| == |contents| + 2
  {
  }

  /** What is recovered when a header is cut short. */
  lemma RecoveredCut(name: string, kept: string, tail: string)
    requires IsFieldName(name)
    ensures Recovered([name + ": " + kept] + Split(tail))
         == Line(Sanitized(Header(name, kept))) + CRLF + Recovered(Split(tail))
  {
    hide Split, SanitizeHeaderValue, LooksLikeHeaderLine, ResanitizeHeaderSegment;
    HeaderSegment(name, kept);
    var segments := [name + ": " + kept] + Split(tail);
    assert segments[1..] == Split(tail);
  }

  /** A value with a premature separator: either its sanitized text, or everything behind it, is wrong. */
  lemma UncleanHeaderDiffers(h: Header, headers: seq<Header>, contents: string)
    requires IsFieldName(h.name) && HasFieldNames(headers) && !IsClean(h.value)
    ensures Recovered(Split(Line(h) + EMPTY_LINE + Corrupt(headers, contents)))
            != Line(Sanitized(h)) + CRLF + RawMessage(headers, contents)
  {
    var rest := EMPTY_LINE + Corrupt(headers, contents);
    Associative(Line(h), EMPTY_LINE, Corrupt(headers, contents));
    var k := PrematureSeparator(h, Corrupt(headers, contents));
    hide Split, SanitizeHeaderValue, Recovered, RawMessage, Corrupt, IsClean;
    var kept, tail := h.value[..k], (h.value + rest)[k + 4..];
    CutAtPremature(h, rest, k);
    RecoveredCut(h.name, kept, tail);
    SanitizedLineIsOneLine(Header(h.name, kept));
    SanitizedLineIsOneLine(h);
    CancelLine(Line(Sanitized(Header(h.name, kept))), Line(Sanitized(h)),
               Recovered(Split(tail)), RawMessage(headers, contents));
    if SanitizeHeaderValue(kept) == SanitizeHeaderValue(h.value) {
      BlankBehind(h.value, rest, k);
      CorruptBody(headers, contents);
      AfterPrematureSeparator(tail, headers, contents);
    } else {
      DifferentValues(h.name, SanitizeHeaderValue(kept), SanitizeHeaderValue(h.value));
    }
  }

  lemma DifferentValues(name: string, a: string, b: string)
    requires a != b
    ensures name + ": " + a != name + ": " + b
  {
    assert (name + ": " + a)[|name| + 2..] == a && (name + ": " + b)[|name| + 2..] == b;
  }

  lemma PrematureSeparator(h: Header, rest: string) returns (k: nat)
    requires !IsClean(h.value)
    ensures k < |h.value| && FirstAt(h.value + (EMPTY_LINE + rest), EMPTY_LINE, k)
  {
    var all := h.value + (EMPTY_LINE + rest);
    CleanIff(h.value, rest);
    Associative(h.value, EMPTY_LINE, rest);
    assert all[|h.value|..|h.value| + 4] == EMPTY_LINE;
    assert OccursAt(all, EMPTY_LINE, |h.value|);
    k := Find(all, EMPTY_LINE);
    assert Contains(all, EMPTY_LINE);
  }

  lemma CutAtPremature(h: Header, rest: string, k: nat)
    requires IsFieldName(h.name) && k < |h.value| && FirstAt(h.value + rest, EMPTY_LINE, k)
    requires k + 4 <= |h.value + rest|
    ensures Split(Line(h) + rest) == [h.name + ": " + h.value[..k]] + Split((h.value + rest)[k + 4..])
  {
    var n := |h.name| + 2;
    assert FirstAt(Line(h) + rest, EMPTY_LINE, n + k) by {
      hide OccursAt;
      forall i
        ensures OccursAt(Line(h) + rest, EMPTY_LINE, i) <==> i >= n && OccursAt(h.value + rest, EMPTY_LINE, i - n)
      {
        SeparatorInValue(h, rest, i);
      }
    }
    hide FirstAt, OccursAt;
    FindIs(Line(h) + rest, EMPTY_LINE, n + k);
    PartsOfLine(h, rest, k);
  }

  lemma PartsOfLine(h: Header, rest: string, k: nat)
    requires k < |h.value| && k + 4 <= |h.value + rest|
    ensures (Line(h) + rest)[..|h.name| + 2 + k] == h.name + ": " + h.value[..k]
    ensures (Line(h) + rest)[|h.name| + 2 + k + 4..] == (h.value + rest)[k + 4..]
  {
    assert Line(h) + rest == h.name + ": " + (h.value + rest);
  }

  /** If nothing printable follows the separator inside the value, whitespace or a CR does. */
  lemma BlankBehind(value: string, rest: string, k: nat)
    requires k < |value| && StartsWith(rest, EMPTY_LINE) && OccursAt(value + rest, EMPTY_LINE, k)
    requires SanitizeHeaderValue(value[..k]) == SanitizeHeaderValue(value)
    ensures k + 4 < |value + rest| && IsWhitespace((value + rest)[k + 4])
  {
    hide OccursAt, SanitizeHeaderValue;
    var all := value + rest;
    OccursChar(all, EMPTY_LINE, k, 0);
    OccursChar(all, EMPTY_LINE, k, 3);
    OccursChar(rest, EMPTY_LINE, 0, 0);
    OccursChar(rest, EMPTY_LINE, 0, 1);
    OccursChar(rest, EMPTY_LINE, 0, 2);
    OccursChar(rest, EMPTY_LINE, 0, 3);
    assert value == value[..k] + [value[k]] + value[k + 1..];
    SanitizeAfterBreak(value[..k], value[k], value[k + 1..]);
    if k + 4 < |value| {
      assert value[k + 4] == value[k + 1..][3] && value[k + 1..][3] in value[k + 1..];
    } else {
      assert all[k + 4] == rest[k + 4 - |value|];
    }
  }

  /** How far reassembling the segments of a corrupted message gets. */
  lemma {:induction false} RecoveredIff(headers: seq<Header>, contents: string)
    requires HasFieldNames(headers)
    ensures Recovered(Split(Corrupt(headers, contents))) == RawMessage(headers, contents)
            <==> AreClean(headers) && !StartsWith(contents, CRLF)
  {
    hide Split, SanitizeHeaderValue, IsClean;
    if headers == [] {
      var data := CRLF + contents;
      NotAHeader(data);
      LooseCrlfIff(contents);
      assert data[2..] == contents;
    } else {
      var h, rest := headers[0], Corrupt(headers[1..], contents);
      assert AreClean(headers) <==> IsClean(h.value) && AreClean(headers[1..]);
      if IsClean(h.value) {
        LineClean(h);
        SplitCons(Line(h), rest);
        HeaderSegment(h.name, h.value);
        assert ([Line(h)] + Split(rest))[1..] == Split(rest);
        RecoveredIff(headers[1..], contents);
        SanitizedLineIsOneLine(h);
        CancelLine(Line(Sanitized(h)), Line(Sanitized(h)), Recovered(Split(rest)), RawMessage(headers[1..], contents));
      } else {
        UncleanHeaderDiffers(h, headers[1..], contents);
      }
    }
  }

  lemma LooseCrlfIff(contents: string)
    ensures HasLooseCrlf(CRLF + contents) <==> !StartsWith(contents, CRLF)
  {
    assert (CRLF + contents)[0..2] == CRLF;
    if |contents| >= 2 {
      assert (CRLF + contents)[0..4] == CRLF + contents[0..2];
      assert CRLF + CRLF == EMPTY_LINE;
      assert EMPTY_LINE[2..] == CRLF && (CRLF + contents[0..2])[2..] == contents[0..2];
    }
  }

  /** The repair undoes the corruption exactly when no value contains CRLFCRLF or ends in CRLF and the body
      does not start with CRLF.  (Without any header there is nothing to repair.) */
  lemma RepairUndoesCorruptionIff(headers: seq<Header>, contents: string)
    requires forall h <- headers :: h.name != "" && forall c <- h.name :: '!' <= c <= '~' && c != ':'
    ensures Repaired(Corrupt(headers, contents)) == RawMessage(headers, contents)
            <==> headers == [] || (AreClean(headers) && !StartsWith(contents, CRLF))
  {
    hide *;
    NamesWrittenOut(headers);
    Unrepaired(headers, contents);
    RecoveredIff(headers, contents);
  }

  /** A message with one header. */
  lemma OneHeaderRepaired()
    ensures Repaired("Message-ID: <a@b>\r\n\r\n\r\nHi.\r\n") == "Message-ID: <a@b>\r\n\r\nHi.\r\n"
  {
    hide *;
    var h := Header("Message-ID", "<a@b>");
    OneHeaderTexts(h);
    assert [h][0].name == "Message-ID";
    RepairUndoesCorruptionIff([h], "Hi.\r\n");
  }

  lemma OneHeaderTexts(h: Header)
    requires h == Header("Message-ID", "<a@b>")
    ensures Corrupt([h], "Hi.\r\n") == "Message-ID: <a@b>\r\n\r\n\r\nHi.\r\n"
    ensures RawMessage([h], "Hi.\r\n") == "Message-ID: <a@b>\r\n\r\nHi.\r\n"
    ensures AreClean([h]) && !StartsWith("Hi.\r\n", CRLF)
  {
    hide *;
    OneHeaderSanitized(h);
    OneHeaderMessages(h, "Hi.\r\n");
    OneHeaderLiterals(h);
    OneHeaderClean(h);
  }

  lemma OneHeaderLiterals(h: Header)
    requires h == Header("Message-ID", "<a@b>")
    ensures h.name + ": " + h.value + "\r\n\r\n" + ("\r\n" + "Hi.\r\n") == "Message-ID: <a@b>\r\n\r\n\r\nHi.\r\n"
    ensures h.name + ": " + h.value + "\r\n" + ("\r\n" + "Hi.\r\n") == "Message-ID: <a@b>\r\n\r\nHi.\r\n"
  {
    hide *;
    assert h.name + ": " + h.value == "Message-ID: <a@b>";
    assert "\r\n" + "Hi.\r\n" == "\r\nHi.\r\n";
    assert "Message-ID: <a@b>" + "\r\n" == "Message-ID: <a@b>\r\n";
    assert "Message-ID: <a@b>" + "\r\n\r\n" == "Message-ID: <a@b>\r\n\r\n";
  }

  lemma OneHeaderMessages(h: Header, contents: string)
    ensures Corrupt([h], contents) == h.name + ": " + h.value + "\r\n\r\n" + ("\r\n" + contents)
    ensures RawMessage([h], contents) == h.name + ": " + SanitizeHeaderValue(h.value) + "\r\n" + ("\r\n" + contents)
  {
    hide SanitizeHeaderValue;
  }

  lemma OneHeaderSanitized(h: Header)
    requires h == Header("Message-ID", "<a@b>")
    ensures SanitizeHeaderValue(h.value) == h.value
  {
    hide SanitizeHeaderValue, Trim;
    SanitizeOneLine(h.value);
    TrimOfTrimmed(h.value);
  }

  lemma OneHeaderClean(h: Header)
    requires h == Header("Message-ID", "<a@b>")
    ensures AreClean([h]) && !StartsWith("Hi.\r\n", CRLF)
  {
    OneLineIsClean(h.value);
    hide IsClean;
    if StartsWith("Hi.\r\n", CRLF) {
      OccursChar("Hi.\r\n", CRLF, 0, 0);
    }
  }

  lemma NamesWrittenOut(headers: seq<Header>)
    requires forall h <- headers :: h.name != "" && forall c <- h.name :: '!' <= c <= '~' && c != ':'
    ensures HasFieldNames(headers)
  {
  }

  /** The repair takes every corrupted message with a header for one. */
  lemma Unrepaired(headers: seq<Header>, contents: string)
    requires HasFieldNames(headers)
    ensures headers == [] ==> Repaired(Corrupt(headers, contents)) == RawMessage(headers, contents)
    ensures headers != [] ==> Repaired(Corrupt(headers, contents)) == Recovered(Split(Corrupt(headers, contents)))
  {
    hide Split, Recovered, LooksLikeHeaderLine;
    if headers == [] {
      NotAHeader(CRLF + contents);
    } else {
      FirstSegmentIsHeader(headers[0], EMPTY_LINE + Corrupt(headers[1..], contents));
      Associative(Line(headers[0]), EMPTY_LINE, Corrupt(headers[1..], contents));
    }
  }

  lemma FirstSegmentIsHeader(h: Header, rest: string)
    requires IsFieldName(h.name) && StartsWith(rest, EMPTY_LINE)
    ensures LooksLikeHeaderLine(Split(Line(h) + rest)[0])
  {
    var data := Line(h) + rest;
    OccursInSuffix(Line(h), rest, EMPTY_LINE, |Line(h)|);
    assert OccursAt(data, EMPTY_LINE, |Line(h)|);
    var i := Find(data, EMPTY_LINE);
    assert Contains(data, EMPTY_LINE);
    SeparatorInValue(h, rest, i);
    assert data[..i] == h.name + ": " + h.value[..i - |h.name| - 2];
    HeaderSegment(h.name, h.value[..i - |h.name| - 2]);
  }

  // ----- What the corruption did, and what the repair does to a message that needs none -----

  /** The first empty line of a corrupted message is the one behind its first header, folded or not, exactly if that
      header's value is clean: every other header is swallowed by the body. */
  lemma CorruptionSwallowsHeadersIff(headers: seq<Header>, contents: string)
    requires headers != [] && IsFieldName(headers[0].name)
    ensures FirstAt(Corrupt(headers, contents), EMPTY_LINE, |Line(headers[0])|) <==> IsClean(headers[0].value)
  {
    hide IsClean, FirstAt;
    LineClean(headers[0]);
    CleanIff(Line(headers[0]), Corrupt(headers[1..], contents));
  }

  /** So it reads as its first header only. */
  lemma CorruptionReadsAsFirst(headers: seq<Header>, contents: string)
    requires headers != [] && IsFieldName(headers[0].name) && IsOneLine(headers[0].value)
    ensures ParseMessage(Corrupt(headers, contents)) == Parsed([headers[0]], Corrupt(headers[1..], contents))
  {
    var rest := Corrupt(headers[1..], contents);
    ParseLine(headers[0], CRLF + rest);
    Associative(Line(headers[0]) + CRLF, CRLF, rest);
    Associative(Line(headers[0]), CRLF, CRLF);
    assert CRLF + CRLF == EMPTY_LINE;
    assert (CRLF + rest)[2..] == rest && (CRLF + rest)[0..2] == CRLF;
  }

  lemma OneLineIsClean(line: string)
    requires IsOneLine(line)
    ensures IsClean(line)
  {
    forall i ensures !OccursAt(line, EMPTY_LINE, i) {
      NoBreakInLineEnd(line, EMPTY_LINE, i);
    }
    NoBreakInLineEnd(line, CRLF, |line| - 2);
  }

  lemma NoBreakInLineEnd(line: string, pattern: string, i: int)
    requires IsOneLine(line) && pattern != "" && IsBreak(pattern[0])
    ensures !OccursAt(line, pattern, i)
  {
    assert 0 <= i < |line| ==> line[i] in line;
    if OccursAt(line, pattern, i) {
      OccursChar(line, pattern, i, 0);
    }
  }

  lemma ResanitizedStart(segment: string, rest: string)
    requires LooksLikeHeaderLine(segment)
    ensures (ResanitizeHeaderSegment(segment) + CRLF + rest)[0] != '\r'
  {
    hide SanitizeHeaderValue;
    var colon, i := Find(segment, ":"), Find(segment, ": ");
    assert segment[0] in segment[..colon];
    if i == -1 {
      NotBlankSanitized(segment);
      assert (SanitizeHeaderValue(segment) + CRLF + rest)[0] == SanitizeHeaderValue(segment)[0];
    } else {
      assert segment[i..i + 1] == segment[i..i + 2][..1] == ":";
      assert OccursAt(segment, ":", i);
      assert i > 0;
      assert (segment[..i] + ": " + SanitizeHeaderValue(segment[i + 2..]) + CRLF + rest)[0] == segment[0];
    }
  }

  lemma NotBlankSanitized(value: string)
    requires value != "" && !IsWhitespace(value[0])
    ensures SanitizeHeaderValue(value) != "" && SanitizeHeaderValue(value)[0] != '\r'
  {
    assert value[0] in value;
    NoFragments(value);
    FragmentsAreFragments(value);
    JoinIsOneLine(Fragments(value));
    assert SanitizeHeaderValue(value)[0] in SanitizeHeaderValue(value);
  }

  /** A single clean header stays, and with it the body, unless the body itself looks corrupted. */
  lemma RepairOfOneHeader(h: Header, contents: string)
    requires IsFieldName(h.name)
    ensures Repaired(Line(Sanitized(h)) + EMPTY_LINE + contents) == Line(Sanitized(h)) + EMPTY_LINE + contents
            <==> !LooksLikeHeaderLine(Split(contents)[0]) && !HasLooseCrlf(contents)
  {
    hide Split, SanitizeHeaderValue, IsClean, LooksLikeHeaderLine, ResanitizeHeaderSegment;
    var line, segments := Line(Sanitized(h)), Split(contents);
    SanitizedLineIsOneLine(h);
    OneLineIsClean(line);
    SplitCons(line, contents);
    HeaderSegment(h.name, SanitizeHeaderValue(h.value));
    SanitizeIdempotent(h.value);
    assert ([line] + segments)[1..] == segments;
    CancelLine(line, line, Recovered(segments), CRLF + contents);
    Associative(line + CRLF, CRLF, contents);
    Associative(line, CRLF, CRLF);
    assert CRLF + CRLF == EMPTY_LINE;
    if LooksLikeHeaderLine(segments[0]) {
      ResanitizedStart(segments[0], Recovered(segments[1..]));
    } else {
      BodyOfSplit(contents);
      CancelCrlf(contents);
    }
  }

  lemma CancelCrlf(contents: string)
    ensures CRLF + (if HasLooseCrlf(contents) then contents[2..] else contents) == CRLF + contents
            <==> !HasLooseCrlf(contents)
  {
    assert (CRLF + contents)[2..] == contents;
  }

  /** With several headers their lines share one segment and are folded into the first. */
  lemma RepairOfManyHeaders(headers: seq<Header>, contents: string)
    requires |headers| > 1 && HasFieldNames(headers)
    ensures Repaired(RawMessage(headers, contents)) != RawMessage(headers, contents)
  {
    hide Split, SanitizeHeaderValue, LooksLikeHeaderLine, ResanitizeHeaderSegment, FirstAt, OccursAt, IsWhitespace;
    var rest := RawMessage(headers[1..], contents);
    FirstEmptyLine(headers, contents);
    FirstEmptyLine(headers[1..], contents);
    StartsWithPrintable(headers[1..], contents);
    LinesShareSegment(headers[0], rest, |rest| - |contents| - 4);
  }

  lemma LinesShareSegment(h: Header, rest: string, k: int)
    requires IsFieldName(h.name) && rest != "" && !IsWhitespace(rest[0]) && FirstAt(rest, EMPTY_LINE, k)
    requires FirstAt(Line(Sanitized(h)) + CRLF + rest, EMPTY_LINE, |Line(Sanitized(h))| + 2 + k)
    ensures Repaired(Line(Sanitized(h)) + CRLF + rest) != Line(Sanitized(h)) + CRLF + rest
  {
    hide Split, SanitizeHeaderValue, Repaired, FirstAt, OccursAt, IsWhitespace, Line;
    OccursNotAtStart(rest, k);
    var raw := Line(Sanitized(h)) + CRLF + rest;
    FirstSegmentIs(raw, |Line(Sanitized(h))| + 2 + k);
    LinesAsValue(h.name, SanitizeHeaderValue(h.value), rest, k);
    RepairFoldsLines(h, raw, rest, rest[..k]);
  }

  lemma RepairFoldsLines(h: Header, raw: string, rest: string, more: string)
    requires IsFieldName(h.name) && raw == Line(Sanitized(h)) + CRLF + rest && more != "" && !IsWhitespace(more[0])
    requires Split(raw)[0] == h.name + ": " + (SanitizeHeaderValue(h.value) + CRLF + more)
    ensures Repaired(raw) != raw
  {
    hide Split, SanitizeHeaderValue, LooksLikeHeaderLine, ResanitizeHeaderSegment, IsWhitespace;
    var value := SanitizeHeaderValue(h.value);
    var long := value + CRLF + more;
    HeaderSegment(h.name, long);
    SanitizedLineIsOneLine(h);
    SanitizedLineIsOneLine(Header(h.name, long));
    CancelLine(h.name + ": " + SanitizeHeaderValue(long), Line(Sanitized(h)), Recovered(Split(raw)[1..]), rest);
    LongerThanOneLine(h.value, more);
    DifferentValues(h.name, SanitizeHeaderValue(long), value);
  }

  lemma LinesAsValue(name: string, value: string, rest: string, k: nat)
    requires k <= |rest|
    ensures (Line(Header(name, value)) + CRLF + rest)[..|Line(Header(name, value))| + 2 + k]
            == name + ": " + (value + CRLF + rest[..k])
  {
  }

  lemma FirstSegmentIs(raw: string, i: nat)
    requires FirstAt(raw, EMPTY_LINE, i)
    ensures i <= |raw| && Split(raw)[0] == raw[..i]
  {
    FindIs(raw, EMPTY_LINE, i);
  }

  lemma OccursNotAtStart(rest: string, k: int)
    requires rest != "" && !IsWhitespace(rest[0]) && FirstAt(rest, EMPTY_LINE, k)
    ensures 0 < k <= |rest|
  {
    OccursChar(rest, EMPTY_LINE, k, 0);
  }

  lemma StartsWithPrintable(headers: seq<Header>, contents: string)
    requires headers != [] && HasFieldNames(headers)
    ensures RawMessage(headers, contents) != "" && !IsWhitespace(RawMessage(headers, contents)[0])
  {
    hide SanitizeHeaderValue;
    FieldNameFacts(headers[0].name);
    assert RawMessage(headers, contents)[0] == headers[0].name[0];
  }

  lemma LongerThanOneLine(value: string, more: string)
    requires more != "" && !IsWhitespace(more[0])
    ensures SanitizeHeaderValue(SanitizeHeaderValue(value) + CRLF + more) != SanitizeHeaderValue(value)
  {
    hide SanitizeHeaderValue;
    var v := SanitizeHeaderValue(value);
    SanitizeIdempotent(value);
    assert v + CRLF + more == v + ['\r'] + ("\n" + more);
    assert more[0] in "\n" + more;
    SanitizeAfterBreak(v, '\r', "\n" + more);
  }

  /** The repair is a no-op on a correct message exactly when the message has no header, or a single one and
      a body that neither starts with a loose CRLF nor with a paragraph that looks like a header. */
  lemma RepairKeepsCorrectMessageIff(headers: seq<Header>, contents: string)
    requires HasFieldNames(headers)
    ensures Repaired(RawMessage(headers, contents)) == RawMessage(headers, contents)
            <==> headers == []
                 || (|headers| == 1 && !LooksLikeHeaderLine(Split(contents)[0]) && !HasLooseCrlf(contents))
  {
    hide Split, SanitizeHeaderValue, LooksLikeHeaderLine;
    if headers == [] {
      NotAHeader(CRLF + contents);
    } else if |headers| == 1 {
      var line := Line(Sanitized(headers[0]));
      Associative(line + CRLF, CRLF, contents);
      Associative(line, CRLF, CRLF);
      assert CRLF + CRLF == EMPTY_LINE;
      assert RawMessage(headers, contents) == line + CRLF + (CRLF + contents);
      RepairOfOneHeader(headers[0], contents);
    } else {
      RepairOfManyHeaders(headers, contents);
    }
  }
}
