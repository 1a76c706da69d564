/** `web::email`: printing an RFC 5322 message from a list of header fields and a body.
    Bytes and characters are one type here. */
module EmailMessage {
  import opened Text

  datatype Header = Header(name: string, value: string)

  // ----- Sanitizing a value -----

  predicate IsBreak(c: char) {
    c == '\r' || c == '\n'
  }

  /** Unicode's `White_Space`, which `str::trim` removes. */
  predicate IsWhitespace(c: char) {
    || '\t' <= c <= '\r' || c == ' ' || c == '\U{0085}' || c == '\U{00A0}' || c == '\U{1680}'
    || '\U{2000}' <= c <= '\U{200A}' || c == '\U{2028}' || c == '\U{2029}' || c == '\U{202F}'
    || c == '\U{205F}' || c == '\U{3000}'
  }

  function TrimStart(s: string): string {
    if s == [] then [] else if IsWhitespace(s[0]) then TrimStart(s[1..]) else s
  }

  function TrimEnd(s: string): string {
    if s == [] then [] else if IsWhitespace(s[|s| - 1]) then TrimEnd(s[..|s| - 1]) else s
  }

  function Trim(s: string): string {
    TrimEnd(TrimStart(s))
  }

  predicate IsTrimmed(s: string) {
    s == [] || (!IsWhitespace(s[0]) && !IsWhitespace(s[|s| - 1]))
  }

  predicate IsBlank(s: string) {
    forall d :: d in s ==> IsWhitespace(d)
  }

  predicate IsOneLine(s: string) {
    forall c :: c in s ==> !IsBreak(c)
  }

  /** `value.split(['\r', '\n'])`: never empty. */
  function SplitAtBreaks(s: string): (pieces: seq<string>)
    ensures |pieces| > 0
  {
    if s == [] then [""]
    else
      var rest := SplitAtBreaks(s[1..]);
      if IsBreak(s[0]) then [""] + rest else [[s[0]] + rest[0]] + rest[1..]
  }

  /** `.map(str::trim).filter(|fragment| !fragment.is_empty())`. */
  function TrimAll(pieces: seq<string>): (fragments: seq<string>) {
    if pieces == [] then [] else NonEmpty(Trim(pieces[0])) + TrimAll(pieces[1..])
  }

  function NonEmpty(s: string): seq<string> {
    if s == "" then [] else [s]
  }

  function Fragments(s: string): seq<string> {
    TrimAll(SplitAtBreaks(s))
  }

  /** `.join(" ")`. */
  function JoinWithSpaces(fragments: seq<string>): string {
    if fragments == [] then ""
    else if |fragments| == 1 then fragments[0]
    else fragments[0] + " " + JoinWithSpaces(fragments[1..])
  }

  function SanitizeHeaderValue(value: string): string {
    JoinWithSpaces(Fragments(value))
  }

  lemma {:induction false} TrimStartIs(s: string)
    ensures var t := TrimStart(s);
      && (t == [] || !IsWhitespace(t[0]))
      && |t| <= |s| && t == s[|s| - |t|..]
      && (t == [] <==> IsBlank(s))
  {
    if s != [] && IsWhitespace(s[0]) {
      TrimStartIs(s[1..]);
      assert IsBlank(s) <==> IsBlank(s[1..]) by {
        assert s == [s[0]] + s[1..];
      }
    } else if s != [] {
      assert s[0] in s;
    }
  }

  lemma {:induction false} TrimEndIs(s: string)
    ensures var t := TrimEnd(s);
      && (t == [] || !IsWhitespace(t[|t| - 1]))
      && |t| <= |s| && t == s[..|t|]
      && (t == [] <==> IsBlank(s))
  {
    if s != [] && IsWhitespace(s[|s| - 1]) {
      TrimEndIs(s[..|s| - 1]);
      assert IsBlank(s) <==> IsBlank(s[..|s| - 1]) by {
        assert s == s[..|s| - 1] + [s[|s| - 1]];
      }
    } else if s != [] {
      assert s[|s| - 1] in s;
    }
  }

  lemma TrimIs(s: string)
    ensures IsTrimmed(Trim(s)) && (Trim(s) == [] <==> IsBlank(s))
    ensures forall c :: c in Trim(s) ==> c in s
  {
    hide TrimStart, TrimEnd;
    var u := TrimStart(s);
    TrimStartIs(s);
    TrimEndIs(u);
    assert u != [] ==> u[0] in u;
  }

  /** The characters, one by one. */
  lemma WhitespaceIs(c: char)
    ensures IsWhitespace(c) <==>
      || c in "\U{0009}\U{000A}\U{000B}\U{000C}\U{000D}\U{0020}\U{0085}\U{00A0}\U{1680}"
      || c in "\U{2000}\U{2001}\U{2002}\U{2003}\U{2004}\U{2005}\U{2006}\U{2007}\U{2008}\U{2009}\U{200A}"
      || c in "\U{2028}\U{2029}\U{202F}\U{205F}\U{3000}"
  {
  }

  /** Trimming takes off whitespace at both ends and nothing else. */
  lemma TrimIsMiddle(s: string)
    ensures exists front, back :: s == front + Trim(s) + back && IsBlank(front) && IsBlank(back)
    ensures IsTrimmed(Trim(s))
  {
    hide TrimStart, TrimEnd;
    TrimIs(s);
    var u := TrimStart(s);
    TakenFromStart(s);
    TakenFromEnd(u);
    var front, back := s[..|s| - |u|], u[|Trim(s)|..];
    assert s == front + Trim(s) + back;
  }

  lemma {:induction false} TakenFromStart(s: string)
    ensures var u := TrimStart(s); |u| <= |s| && s == s[..|s| - |u|] + u && IsBlank(s[..|s| - |u|])
  {
    if s != [] && IsWhitespace(s[0]) {
      TakenFromStart(s[1..]);
      var u := TrimStart(s[1..]);
      assert s[..|s| - |u|] == [s[0]] + s[1..][..|s| - 1 - |u|];
    }
  }

  lemma {:induction false} TakenFromEnd(s: string)
    ensures var t := TrimEnd(s); |t| <= |s| && s == t + s[|t|..] && IsBlank(s[|t|..])
  {
    if s != [] && IsWhitespace(s[|s| - 1]) {
      TakenFromEnd(s[..|s| - 1]);
      var t := TrimEnd(s[..|s| - 1]);
      assert s[|t|..] == s[..|s| - 1][|t|..] + [s[|s| - 1]];
    }
  }

  lemma {:induction false} TrimOfTrimmed(s: string)
    requires IsTrimmed(s)
    ensures Trim(s) == s
  {
  }

  lemma {:induction false} SplitAtBreak(a: string, c: char, b: string)
    requires IsBreak(c)
    ensures SplitAtBreaks(a + [c] + b) == SplitAtBreaks(a) + SplitAtBreaks(b)
  {
    if a == [] {
      assert (a + [c] + b)[1..] == b;
    } else {
      var x, y := SplitAtBreaks(a[1..]), SplitAtBreaks(b);
      ConcatTail(a, [c]);
      ConcatTail(a + [c], b);
      SplitAtBreak(a[1..], c, b);
      Associative([""], x, y);
      ConcatTail(x, y);
      Associative([[a[0]] + x[0]], x[1..], y);
    }
  }

  lemma {:induction false} SplitOneLine(s: string)
    requires IsOneLine(s)
    ensures SplitAtBreaks(s) == [s]
  {
    if s != [] {
      assert s[0] in s;
      assert IsOneLine(s[1..]);
      SplitOneLine(s[1..]);
      assert [s[0]] + s[1..] == s;
    }
  }

  lemma {:induction false} TrimAllConcat(a: seq<string>, b: seq<string>)
    ensures TrimAll(a + b) == TrimAll(a) + TrimAll(b)
  {
    hide Trim, NonEmpty;
    if a == [] {
      assert a + b == b;
    } else {
      TrimAllConcat(a[1..], b);
      var first, x, y := NonEmpty(Trim(a[0])), TrimAll(a[1..]), TrimAll(b);
      ConcatTail(a, b);
      Associative(first, x, y);
    }
  }

  /** Sanitizing works line by line. */
  lemma FragmentsConcat(a: string, c: char, b: string)
    requires IsBreak(c)
    ensures Fragments(a + [c] + b) == Fragments(a) + Fragments(b)
  {
    SplitAtBreak(a, c, b);
    TrimAllConcat(SplitAtBreaks(a), SplitAtBreaks(b));
  }

  predicate IsFragment(s: string) {
    s != "" && IsTrimmed(s) && IsOneLine(s)
  }

  predicate AreFragments(fragments: seq<string>) {
    forall i :: 0 <= i < |fragments| ==> IsFragment(fragments[i])
  }

  lemma {:induction false} PiecesAreLines(s: string)
    ensures forall i :: 0 <= i < |SplitAtBreaks(s)| ==> IsOneLine(SplitAtBreaks(s)[i])
  {
    if s != [] {
      PiecesAreLines(s[1..]);
    }
  }

  lemma {:induction false} TrimmedPieces(pieces: seq<string>)
    requires forall i :: 0 <= i < |pieces| ==> IsOneLine(pieces[i])
    ensures AreFragments(TrimAll(pieces))
  {
    if pieces != [] {
      TrimmedPieces(pieces[1..]);
      TrimIs(pieces[0]);
      assert IsOneLine(pieces[0]);
    }
  }

  lemma FragmentsAreFragments(s: string)
    ensures AreFragments(Fragments(s))
  {
    PiecesAreLines(s);
    TrimmedPieces(SplitAtBreaks(s));
  }

  lemma {:induction false} JoinIsOneLine(fragments: seq<string>)
    requires AreFragments(fragments)
    ensures IsOneLine(JoinWithSpaces(fragments)) && IsTrimmed(JoinWithSpaces(fragments))
    ensures |JoinWithSpaces(fragments)| >= |fragments|
  {
    if |fragments| > 1 {
      assert IsFragment(fragments[0]) && IsFragment(fragments[1]);
      JoinIsOneLine(fragments[1..]);
    } else if |fragments| == 1 {
      assert IsFragment(fragments[0]);
    }
  }

  lemma {:induction false} JoinGrows(a: seq<string>, b: seq<string>)
    requires AreFragments(a) && AreFragments(b) && b != []
    ensures |JoinWithSpaces(a + b)| > |JoinWithSpaces(a)|
  {
    if a == [] {
      assert a + b == b;
      JoinIsOneLine(b);
    } else {
      assert AreFragments(a[1..]);
      JoinGrows(a[1..], b);
      assert (a + b)[1..] == a[1..] + b;
      assert |a| == 1 ==> a[1..] == [];
    }
  }

  /** The result is one line without outer whitespace, whatever the value carried. */
  lemma SanitizedIsOneLine(value: string)
    ensures '\r' !in SanitizeHeaderValue(value) && '\n' !in SanitizeHeaderValue(value)
    ensures IsOneLine(SanitizeHeaderValue(value)) && IsTrimmed(SanitizeHeaderValue(value))
  {
    FragmentsAreFragments(value);
    JoinIsOneLine(Fragments(value));
  }

  /** A value without terminators passes through, outer whitespace aside. */
  lemma SanitizeOneLine(value: string)
    requires '\r' !in value && '\n' !in value
    ensures SanitizeHeaderValue(value) == Trim(value)
  {
    assert IsOneLine(value);
    SplitOneLine(value);
    assert TrimAll([value]) == NonEmpty(Trim(value)) + TrimAll([]);
  }

  lemma SanitizeIdempotent(value: string)
    ensures SanitizeHeaderValue(SanitizeHeaderValue(value)) == SanitizeHeaderValue(value)
  {
    hide SanitizeHeaderValue;
    SanitizedIsOneLine(value);
    SanitizeOneLine(SanitizeHeaderValue(value));
    TrimOfTrimmed(SanitizeHeaderValue(value));
  }

  /** Text after a terminator changes the sanitized value exactly when it is more than whitespace. */
  lemma SanitizeAfterBreak(a: string, c: char, b: string)
    requires IsBreak(c)
    ensures SanitizeHeaderValue(a + [c] + b) == SanitizeHeaderValue(a)
            <==> IsBlank(b)
  {
    FragmentsConcat(a, c, b);
    FragmentsAreFragments(a);
    FragmentsAreFragments(b);
    NoFragments(b);
    if Fragments(b) == [] {
      assert Fragments(a) + Fragments(b) == Fragments(a);
    } else {
      JoinGrows(Fragments(a), Fragments(b));
    }
  }

  lemma {:induction false} JoinConcat(a: seq<string>, b: seq<string>)
    requires a != [] && b != []
    ensures JoinWithSpaces(a + b) == JoinWithSpaces(a) + " " + JoinWithSpaces(b)
  {
    ConcatTail(a, b);
    if |a| == 1 {
      assert (a + b)[1..] == b;
    } else {
      JoinConcat(a[1..], b);
      var rest := JoinWithSpaces(a[1..]);
      Associative(a[0] + " ", rest, " " + JoinWithSpaces(b));
      Associative(rest, " ", JoinWithSpaces(b));
      Associative(JoinWithSpaces(a), " ", JoinWithSpaces(b));
    }
  }

  /** Lines are joined in their order by one space, and blank ones left out: together with what is said of a single
      line, this determines the sanitized value of any other. */
  lemma SanitizeConcat(a: string, c: char, b: string)
    requires c == '\r' || c == '\n'
    ensures SanitizeHeaderValue(a + [c] + b)
         == if IsBlank(a) then SanitizeHeaderValue(b)
            else if IsBlank(b) then SanitizeHeaderValue(a)
            else SanitizeHeaderValue(a) + " " + SanitizeHeaderValue(b)
  {
    hide IsBlank, Fragments, JoinWithSpaces;
    FragmentsConcat(a, c, b);
    NoFragments(a);
    NoFragments(b);
    var x, y := Fragments(a), Fragments(b);
    if x == [] {
      assert x + y == y;
    } else if y == [] {
      assert x + y == x;
    } else {
      JoinConcat(x, y);
    }
  }

  /** A folded value. */
  lemma FoldedValue()
    ensures SanitizeHeaderValue("from foo\r\n\tby bar") == "from foo by bar"
  {
    hide *;
    var first, second := "from foo", "\tby bar";
    assert "" + ['\n'] + second == "\n\tby bar";
    assert first + ['\r'] + "\n\tby bar" == "from foo\r\n\tby bar";
    SanitizeConcat(first, '\r', "\n\tby bar");
    SanitizeConcat("", '\n', second);
    NotBlank(first, 0);
    NotBlank("\n\tby bar", 2);
    EmptyIsBlank();
    SanitizeOneLine(first);
    FoldedStart();
    SanitizeOneLine(second);
    FoldedEnd();
  }

  lemma NotBlank(s: string, i: nat)
    requires i < |s| && 'a' <= s[i] <= 'z'
    ensures !IsBlank(s)
  {
    assert s[i] in s;
  }

  lemma EmptyIsBlank()
    ensures IsBlank("")
  {
  }

  lemma FoldedStart()
    ensures Trim("from foo") == "from foo"
  {
    TrimOfTrimmed("from foo");
  }

  lemma FoldedEnd()
    ensures Trim("\tby bar") == "by bar"
  {
    assert "\tby bar"[1..] == "by bar";
  }

  predicate AreBlank(pieces: seq<string>) {
    forall i :: 0 <= i < |pieces| ==> IsBlank(pieces[i])
  }

  lemma NoFragments(s: string)
    ensures Fragments(s) == [] <==> IsBlank(s)
  {
    BlankPieces(s);
    BlankTrims(SplitAtBreaks(s));
  }

  lemma {:induction false} BlankTrims(pieces: seq<string>)
    ensures TrimAll(pieces) == [] <==> AreBlank(pieces)
  {
    if pieces != [] {
      BlankTrims(pieces[1..]);
      TrimIs(pieces[0]);
      AreBlankCons(pieces);
    }
  }

  lemma AreBlankCons(pieces: seq<string>)
    requires pieces != []
    ensures AreBlank(pieces) <==> IsBlank(pieces[0]) && AreBlank(pieces[1..])
  {
    assert forall i :: 1 <= i < |pieces| ==> pieces[i] == pieces[1..][i - 1];
  }

  lemma IsBlankCons(c: char, s: string)
    ensures IsBlank([c] + s) <==> IsWhitespace(c) && IsBlank(s)
  {
    assert forall d :: d in [c] + s <==> d == c || d in s;
  }

  lemma {:induction false} BlankPieces(s: string)
    ensures IsBlank(s) <==> AreBlank(SplitAtBreaks(s))
  {
    if s != [] {
      var rest, pieces := SplitAtBreaks(s[1..]), SplitAtBreaks(s);
      BlankPieces(s[1..]);
      assert s == [s[0]] + s[1..];
      IsBlankCons(s[0], s[1..]);
      AreBlankCons(rest);
      AreBlankCons(pieces);
      if IsBreak(s[0]) {
        assert pieces[1..] == rest;
      } else {
        assert pieces[1..] == rest[1..];
        IsBlankCons(s[0], rest[0]);
      }
    }
  }

  // ----- Printing -----

  /** RFC 5322, section 2.2: printable US-ASCII except the colon. */
  predicate IsFieldNameChar(c: char) {
    33 <= c as int <= 57 || 59 <= c as int <= 126
  }

  predicate IsFieldName(name: string) {
    name != "" && forall c :: c in name ==> IsFieldNameChar(c)
  }

  predicate HasFieldNames(headers: seq<Header>) {
    forall i :: 0 <= i < |headers| ==> IsFieldName(headers[i].name)
  }

  function Sanitized(h: Header): Header {
    Header(h.name, SanitizeHeaderValue(h.value))
  }

  function Line(h: Header): string {
    h.name + ": " + h.value
  }

  function RawMessage(headers: seq<Header>, contents: string): string {
    if headers == [] then CRLF + contents
    else Line(Sanitized(headers[0])) + CRLF + RawMessage(headers[1..], contents)
  }

  method BuildRawMessage(headers: seq<Header>, contents: string) returns (raw: string)
    ensures raw == RawMessage(headers, contents)
  {
    hide SanitizeHeaderValue;
    raw := "";
    for i := 0 to |headers|
      invariant raw + RawMessage(headers[i..], contents) == RawMessage(headers, contents)
    {
      var name, value := headers[i].name, SanitizeHeaderValue(headers[i].value);
      PushedField(raw, name, value, RawMessage(headers[i + 1..], contents));
      assert headers[i..][1..] == headers[i + 1..] && headers[i..][0] == headers[i];
      raw := raw + name;
      raw := raw + ": ";
      raw := raw + value;
      raw := raw + CRLF;
    }
    Associative(raw, CRLF, contents);
    raw := raw + CRLF;
    raw := raw + contents;
  }

  lemma PushedField(raw: string, name: string, value: string, rest: string)
    ensures raw + (Line(Header(name, value)) + CRLF + rest) == raw + name + ": " + value + CRLF + rest
  {
  }

  // ----- Reading a message back, line by line -----

  datatype Parsed = Malformed | Parsed(headers: seq<Header>, body: string)

  /** Header fields up to the first empty line (RFC 5322, section 2.1), the body after it. */
  function ParseMessage(raw: string): Parsed
    decreases |raw|
  {
    if StartsWith(raw, CRLF) then Parsed([], raw[2..])
    else
      var end := Find(raw, CRLF);
      if end == -1 then Malformed
      else
        var colon := Find(raw[..end], ": ");
        if colon == -1 then Malformed
        else
          match ParseMessage(raw[end + 2..])
          case Malformed => Malformed
          case Parsed(headers, body) =>
            Parsed([Header(raw[..colon], raw[colon + 2..end])] + headers, body)
  }

  lemma FieldNameFacts(name: string)
    requires IsFieldName(name)
    ensures IsOneLine(name) && ':' !in name && !IsWhitespace(name[0]) && !IsBreak(name[0])
  {
    assert name[0] in name;
  }

  lemma LineIsOneLine(h: Header)
    requires IsFieldName(h.name) && IsOneLine(h.value)
    ensures IsOneLine(Line(h)) && Line(h) != "" && Line(h)[0] == h.name[0] && !IsBreak(Line(h)[0])
  {
    FieldNameFacts(h.name);
    assert forall c :: c in Line(h) ==> c in h.name || c in ": " || c in h.value;
  }

  lemma SanitizedLineIsOneLine(h: Header)
    requires IsFieldName(h.name)
    ensures IsOneLine(Line(Sanitized(h))) && Line(Sanitized(h)) != "" && !IsBreak(Line(Sanitized(h))[0])
  {
    hide SanitizeHeaderValue;
    SanitizedIsOneLine(h.value);
    LineIsOneLine(Sanitized(h));
  }

  lemma NoBreakInLine(line: string, rest: string, pattern: string, i: int)
    requires IsOneLine(line) && pattern != "" && IsBreak(pattern[0]) && i < |line|
    ensures !OccursAt(line + rest, pattern, i)
  {
    assert 0 <= i ==> line[i] in line;
    if OccursAt(line + rest, pattern, i) {
      OccursChar(line + rest, pattern, i, 0);
    }
  }

  lemma LineEnd(line: string, rest: string)
    requires IsOneLine(line)
    ensures Find(line + CRLF + rest, CRLF) == |line|
  {
    var all := line + CRLF + rest;
    assert all == line + (CRLF + rest);
    assert all[|line|..|line| + 2] == CRLF;
    forall i | 0 <= i < |line| ensures !OccursAt(all, CRLF, i) {
      NoBreakInLine(line, CRLF + rest, CRLF, i);
    }
    FindIs(all, CRLF, |line|);
  }

  lemma FirstColon(h: Header)
    requires IsFieldName(h.name)
    ensures Find(Line(h), ": ") == |h.name|
  {
    FieldNameFacts(h.name);
    assert Line(h)[|h.name|..|h.name| + 2] == ": ";
    forall i | 0 <= i < |h.name| ensures !OccursAt(Line(h), ": ", i) {
      assert h.name[i] in h.name;
      if OccursAt(Line(h), ": ", i) {
        OccursChar(Line(h), ": ", i, 0);
      }
    }
    FindIs(Line(h), ": ", |h.name|);
  }

  function SanitizedHeaders(headers: seq<Header>): seq<Header> {
    if headers == [] then [] else [Sanitized(headers[0])] + SanitizedHeaders(headers[1..])
  }

  /** One printed field is read back as itself, and reading goes on behind its line. */
  lemma ParseLine(h: Header, rest: string)
    requires IsFieldName(h.name) && IsOneLine(h.value)
    ensures !StartsWith(Line(h) + CRLF + rest, CRLF)
    ensures ParseMessage(Line(h) + CRLF + rest)
            == match ParseMessage(rest) case Malformed => Malformed case Parsed(hs, b) => Parsed([h] + hs, b)
  {
    var raw := Line(h) + CRLF + rest;
    LineIsOneLine(h);
    LineEnd(Line(h), rest);
    FirstColon(h);
    assert raw[..|Line(h)|] == Line(h) && raw[|Line(h)| + 2..] == rest;
    assert raw[0] == Line(h)[0];
    if StartsWith(raw, CRLF) {
      OccursChar(raw, CRLF, 0, 0);
    }
    assert raw[..|h.name|] == h.name;
    assert raw[|h.name| + 2..|Line(h)|] == h.value;
  }

  /** The round trip: the first empty line of a printed message is the header/body boundary, so reading up
      to it gives back the names, the sanitized values and the whole body, whatever these contain. */
  lemma {:induction false} PrintedMessageReadsBack(headers: seq<Header>, contents: string)
    requires HasFieldNames(headers)
    ensures ParseMessage(RawMessage(headers, contents)) == Parsed(SanitizedHeaders(headers), contents)
  {
    hide SanitizeHeaderValue;
    if headers == [] {
      assert (CRLF + contents)[2..] == contents;
    } else {
      PrintedMessageReadsBack(headers[1..], contents);
      SanitizedIsOneLine(headers[0].value);
      ParseLine(Sanitized(headers[0]), RawMessage(headers[1..], contents));
    }
  }

  // ----- The first empty line -----

  predicate IsHeaderText(line: string) {
    IsOneLine(line) && line != "" && !IsBreak(line[0])
  }

  predicate AreHeaderTexts(lines: seq<string>) {
    forall i :: 0 <= i < |lines| ==> IsHeaderText(lines[i])
  }

  function Printed(lines: seq<string>, contents: string): string {
    if lines == [] then CRLF + contents else lines[0] + CRLF + Printed(lines[1..], contents)
  }

  function SanitizedLines(headers: seq<Header>): (lines: seq<string>)
    ensures |lines| == |headers|
  {
    if headers == [] then [] else [Line(Sanitized(headers[0]))] + SanitizedLines(headers[1..])
  }

  lemma {:induction false} RawMessageIsPrinted(headers: seq<Header>, contents: string)
    ensures RawMessage(headers, contents) == Printed(SanitizedLines(headers), contents)
  {
    hide SanitizeHeaderValue;
    if headers != [] {
      RawMessageIsPrinted(headers[1..], contents);
      assert SanitizedLines(headers)[1..] == SanitizedLines(headers[1..]);
    }
  }

  lemma {:induction false} SanitizedLinesAreHeaderTexts(headers: seq<Header>)
    requires HasFieldNames(headers)
    ensures AreHeaderTexts(SanitizedLines(headers))
  {
    hide SanitizeHeaderValue;
    if headers != [] {
      SanitizedLinesAreHeaderTexts(headers[1..]);
      SanitizedLineIsOneLine(headers[0]);
    }
  }

  /** The header/body boundary is the first CRLFCRLF: no header line hides one. */
  lemma FirstEmptyLine(headers: seq<Header>, contents: string)
    requires headers != [] && HasFieldNames(headers)
    ensures FirstAt(RawMessage(headers, contents), EMPTY_LINE, |RawMessage(headers, contents)| - |contents| - 4)
  {
    hide RawMessage, Printed, SanitizedLines;
    RawMessageIsPrinted(headers, contents);
    SanitizedLinesAreHeaderTexts(headers);
    EmptyLineBeforeContents(SanitizedLines(headers), contents);
  }

  lemma {:induction false} EmptyLineBeforeContents(lines: seq<string>, contents: string)
    requires lines != [] && AreHeaderTexts(lines)
    ensures FirstAt(Printed(lines, contents), EMPTY_LINE, |Printed(lines, contents)| - |contents| - 4)
    ensures Printed(lines, contents) != "" && !IsBreak(Printed(lines, contents)[0])
  {
    var line, rest := lines[0], Printed(lines[1..], contents);
    assert IsHeaderText(line);
    if |lines| == 1 {
      Associative(line, CRLF, CRLF + contents);
      Associative(CRLF, CRLF, contents);
      assert CRLF + CRLF == EMPTY_LINE;
      EmptyLineAfter(line, contents);
    } else {
      EmptyLineBeforeContents(lines[1..], contents);
      EmptyLineLater(line, rest, |rest| - |contents| - 4);
    }
  }

  lemma EmptyLineAfter(line: string, rest: string)
    requires IsOneLine(line)
    ensures FirstAt(line + (EMPTY_LINE + rest), EMPTY_LINE, |line|)
  {
    var all := line + (EMPTY_LINE + rest);
    assert all[|line|..|line| + 4] == EMPTY_LINE;
    forall i | 0 <= i < |line| ensures !OccursAt(all, EMPTY_LINE, i) {
      NoBreakInLine(line, EMPTY_LINE + rest, EMPTY_LINE, i);
    }
  }

  lemma EmptyLineLater(line: string, rest: string, k: nat)
    requires IsOneLine(line) && rest != "" && !IsBreak(rest[0]) && FirstAt(rest, EMPTY_LINE, k)
    ensures FirstAt(line + CRLF + rest, EMPTY_LINE, |line| + 2 + k)
  {
    OccursInSuffix(line + CRLF, rest, EMPTY_LINE, |line| + 2 + k);
    forall i | 0 <= i < |line| + 2 + k ensures !OccursAt(line + CRLF + rest, EMPTY_LINE, i) {
      if i < |line| + 2 {
        NotBeforeNextLine(line, rest, i);
      } else {
        OccursInSuffix(line + CRLF, rest, EMPTY_LINE, i);
      }
    }
  }

  lemma NotBeforeNextLine(line: string, rest: string, i: nat)
    requires IsOneLine(line) && rest != "" && !IsBreak(rest[0]) && i < |line| + 2
    ensures !OccursAt(line + CRLF + rest, EMPTY_LINE, i)
  {
    var all := line + CRLF + rest;
    assert i < |line| ==> line[i] in line && all[i] == line[i];
    assert all[|line| + 2] == rest[0];
    if OccursAt(all, EMPTY_LINE, i) {
      OccursChar(all, EMPTY_LINE, i, if i < |line| then 0 else |line| + 2 - i);
    }
  }
}
