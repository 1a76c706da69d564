/** The versioned configuration row, and the usage counter kept up to date inside it. */
module ServerConfiguration {
  import opened Wrappers

  const I64_MIN := -0x8000_0000_0000_0000
  const I64_MAX := 0x7fff_ffff_ffff_ffff
  const U64_MAX := 0xffff_ffff_ffff_ffff
  type I64 = x: int | I64_MIN <= x <= I64_MAX witness 0
  type U64 = x: int | 0 <= x <= U64_MAX witness 0

  const DEFAULT_USER_ALLOCATION: U64 := 15_728_640
  const DEFAULT_SERVER_ALLOCATION: U64 := 5_368_709_120

  // ----- Rows -----

  datatype Moderation = UnknownModeration | Unmoderated | OtherModeration(code: int)
  datatype Visibility = UnknownVisibility | GlobalPublic | OtherVisibility(code: int)

  datatype MediaSettings = MediaSettings(
    visible: bool, moderation: Moderation, visibility: Visibility, switches: set<string>,
    userAllocation: U64, serverAllocation: U64,
    usage: U64, usageAt: Option<int>, objectUsage: U64, objectUsageAt: Option<int>)

  /** The JSON in the column: the settings, or something that does not read as settings. */
  datatype Stored = Settings(settings: MediaSettings) | Unreadable

  datatype CssSettings = CssSettings(mediaIds: seq<int>, forcedTheme: string)

  /** A row of `server_configurations`; `others` stands for the settings none of these writers touches. */
  datatype Row =
    Row(active: bool, others: string, media: Option<Stored>, cssSettings: Option<CssSettings>, css: Option<string>)

  // ----- Reading media settings -----

  const FALLBACK := MediaSettings(true, Unmoderated, GlobalPublic, {}, DEFAULT_USER_ALLOCATION, 0, 0, None, 0, None)

  function Normalized(raw: Option<Stored>): MediaSettings {
    var m :=
      match raw
      case Some(Settings(m)) => if m.userAllocation != 0 then m else FALLBACK
      case _ => FALLBACK;
    if m.serverAllocation == 0 then m.(serverAllocation := DEFAULT_SERVER_ALLOCATION) else m
  }

  /** What was written reads back as it was exactly when both allocations are set: so normalizing before writing
      is what makes it stick. */
  lemma ReadsBackIff(m: MediaSettings)
    ensures Normalized(Some(Settings(m))) == m <==>
      m.serverAllocation != 0 && (m.userAllocation != 0 || m == FALLBACK.(serverAllocation := m.serverAllocation))
    ensures forall raw :: var n := Normalized(raw);
      n.userAllocation != 0 && n.serverAllocation != 0 && Normalized(Some(Settings(n))) == n
  {
  }

  /** A counter written beside an unset allocation would be lost. */
  lemma UsageIsLostIff(m: MediaSettings)
    ensures Normalized(Some(Settings(m))).usage == m.usage <==> m.userAllocation != 0 || m.usage == 0
  {
  }

  /** Where nothing readable is stored, or no allocation per user, all that is stored counts for nothing; an allocation
      for the server is put in on its own. */
  lemma NormalizedIs(raw: Option<Stored>)
    ensures var n := Normalized(raw);
      if raw.None? || raw.value.Unreadable? || raw.value.settings.userAllocation == 0 then
        && n.visible && n.moderation == Unmoderated && n.visibility == GlobalPublic && n.switches == {}
        && n.userAllocation == 15_728_640 && n.serverAllocation == 5_368_709_120
        && n.usage == 0 && n.usageAt.None? && n.objectUsage == 0 && n.objectUsageAt.None?
      else if raw.value.settings.serverAllocation == 0 then
        n.serverAllocation == 5_368_709_120 && n.(serverAllocation := 0) == raw.value.settings
      else
        n == raw.value.settings
  {
  }

  // ----- The counter -----

  function AsI64(x: U64): I64 {
    if x <= I64_MAX then x else x - U64_MAX - 1
  }

  /** Addition as it wraps. */
  function WrappingAdd(x: I64, y: I64): I64 {
    var sum := x + y;
    if sum > I64_MAX then sum - U64_MAX - 1 else if sum < I64_MIN then sum + U64_MAX + 1 else sum
  }

  function AtLeastZero(x: I64): U64 {
    if x < 0 then 0 else x
  }

  function AdjustedUsage(usage: U64, delta: I64): U64 {
    AtLeastZero(WrappingAdd(AsI64(usage), delta))
  }

  /** The counter is read as a signed number and wraps like one; what comes out below zero is written as zero. */
  lemma AdjustedUsageIs(usage: U64, delta: I64)
    ensures var half := 0x8000_0000_0000_0000;
      var wrapped := (usage + delta + half) % (2 * half) - half;
      AdjustedUsage(usage, delta) == if wrapped < 0 then 0 else wrapped
  {
  }

  // ----- The writers -----

  datatype Write =
    | SaveCss(text: Option<string>, settings: CssSettings)
    | Adjust(delta: I64, now: int)
    | Recompute(total: I64, now: int)
    | RecomputeObjectStorage(size: U64, now: int)
    | Read

  /** Active is the row that was inserted last, and no other. */
  predicate OneActive(rows: seq<Row>) {
    forall i :: 0 <= i < |rows| ==> (rows[i].active <==> i == |rows| - 1)
  }

  const DEFAULT_ROW := Row(true, "default", None, None, None)

  function Deactivated(rows: seq<Row>): seq<Row> {
    seq(|rows|, i requires 0 <= i < |rows| => rows[i].(active := false))
  }

  function WithDefault(rows: seq<Row>): seq<Row> {
    if rows == [] then [DEFAULT_ROW] else rows
  }

  function NewVersion(current: Row, text: Option<string>, settings: CssSettings): Row {
    Row(true, current.others, current.media, Some(settings), if text.Some? then text else current.css)
  }

  /** In place, on the active row, normalized first. */
  function WithMedia(rows: seq<Row>, settings: MediaSettings): seq<Row>
    requires rows != []
  {
    rows[|rows| - 1 := rows[|rows| - 1].(media := Some(Settings(settings)))]
  }

  function After(rows: seq<Row>, write: Write): seq<Row> {
    match write
    case SaveCss(text, settings) =>
      var present := WithDefault(rows);
      Deactivated(present) + [NewVersion(present[|present| - 1], text, settings)]
    case Adjust(delta, now) =>
      if rows == [] || delta == 0 then rows
      else
        var m := Normalized(rows[|rows| - 1].media);
        WithMedia(rows, m.(usage := AdjustedUsage(m.usage, delta), usageAt := Some(now)))
    case Recompute(total, now) =>
      if rows == [] then rows
      else
        WithMedia(rows, Normalized(rows[|rows| - 1].media).(usage := AtLeastZero(total), usageAt := Some(now)))
    case RecomputeObjectStorage(total, now) =>
      if rows == [] then rows
      else
        WithMedia(rows, Normalized(rows[|rows| - 1].media).(objectUsage := total, objectUsageAt := Some(now)))
    case Read => WithDefault(rows)
  }

  class ConfigurationTable {
    var rows: seq<Row>

    constructor ()
      ensures rows == []
    {
      rows := [];
    }

    /** The index of the active row, if there is one. */
    method FindActive() returns (found: Option<nat>)
      requires OneActive(rows)
      ensures found == if rows == [] then None else Some(|rows| - 1)
    {
      assert rows != [] ==> rows[|rows| - 1].active;
      for i := 0 to |rows|
        invariant forall j :: 0 <= j < i ==> !rows[j].active
      {
        if rows[i].active {
          return Some(i);
        }
      }
      found := None;
    }

    method GetModel() returns (row: Row)
      requires OneActive(rows)
      modifies this
      ensures OneActive(rows) && rows == After(old(rows), Read) && row == rows[|rows| - 1]
    {
      var found := FindActive();
      if found.None? {
        rows := rows + [DEFAULT_ROW];
        row := DEFAULT_ROW;
      } else {
        row := rows[found.value];
      }
    }

    method UpdateMediaSettings(f: MediaSettings -> MediaSettings) returns (ok: bool)
      requires OneActive(rows)
      modifies this
      ensures OneActive(rows) && ok == (old(rows) != [])
      ensures rows == if ok then WithMedia(old(rows), f(Normalized(old(rows)[|old(rows)| - 1].media))) else old(rows)
    {
      var found := FindActive();
      if found.None? {
        return false;
      }
      var settings := f(Normalized(rows[found.value].media));
      rows := rows[found.value := rows[found.value].(media := Some(Settings(settings)))];
      ok := true;
    }

    method AdjustUsage(delta: I64, now: int) returns (ok: bool)
      requires OneActive(rows)
      modifies this
      ensures OneActive(rows) && rows == After(old(rows), Adjust(delta, now)) && ok == (delta == 0 || old(rows) != [])
    {
      if delta == 0 {
        return true;
      }
      ok := UpdateMediaSettings((m: MediaSettings) => m.(usage := AdjustedUsage(m.usage, delta), usageAt := Some(now)));
    }

    method RecomputeUsage(total: I64, now: int) returns (ok: bool)
      requires OneActive(rows)
      modifies this
      ensures OneActive(rows) && rows == After(old(rows), Recompute(total, now)) && ok == (old(rows) != [])
    {
      ok := UpdateMediaSettings((m: MediaSettings) => m.(usage := AtLeastZero(total), usageAt := Some(now)));
    }

    method RecomputeObjectUsage(total: U64, now: int) returns (ok: bool)
      requires OneActive(rows)
      modifies this
      ensures OneActive(rows) && rows == After(old(rows), RecomputeObjectStorage(total, now)) && ok == (old(rows) != [])
    {
      ok := UpdateMediaSettings((m: MediaSettings) => m.(objectUsage := total, objectUsageAt := Some(now)));
    }

    method SaveCustomCss(text: Option<string>, settings: CssSettings)
      requires OneActive(rows)
      modifies this
      ensures OneActive(rows) && rows == After(old(rows), SaveCss(text, settings))
    {
      var current := GetModel();
      var existingCss := current.css;
      var newConfig := Row(true, current.others, current.media, Some(settings),
                           match text case Some(written) => Some(written) case None => existingCss);
      rows := Deactivated(rows);
      rows := rows + [newConfig];
    }

    method GetCustomCssText() returns (text: Option<string>)
      requires OneActive(rows)
      modifies this
      ensures OneActive(rows) && rows == After(old(rows), Read) && text == rows[|rows| - 1].css
    {
      var row := GetModel();
      text := row.css;
    }
  }

  // ----- What one write does -----

  function Newest(rows: seq<Row>): Row
    requires rows != []
  {
    rows[|rows| - 1]
  }

  /** A save keeps every version but for its mark and adds one that carries on from the newest. */
  lemma SavedVersions(rows: seq<Row>, text: Option<string>, settings: CssSettings)
    ensures var after := After(rows, SaveCss(text, settings));
      && (rows != [] ==> |after| == |rows| + 1)
      && (rows == [] ==> |after| == 2 && after[0] == Row(false, "default", None, None, None))
      && (forall i :: 0 <= i < |rows| ==>
            after[i] == Row(false, rows[i].others, rows[i].media, rows[i].cssSettings, rows[i].css))
      && Newest(after).active && Newest(after).cssSettings == Some(settings)
      && Newest(after).others == after[|after| - 2].others && Newest(after).media == after[|after| - 2].media
      && Newest(after).css == if text.Some? then text else after[|after| - 2].css
  {
  }

  /** The other writes change the media settings of the newest version, normalized first, and of these their own counter
      and when it was written. */
  lemma MediaWritten(rows: seq<Row>, write: Write)
    requires rows != [] && !write.SaveCss? && !write.Read? && write != Adjust(0, write.now)
    ensures var after := After(rows, write);
      && |after| == |rows| && after[..|rows| - 1] == rows[..|rows| - 1]
      && Newest(after).(media := None) == Newest(rows).(media := None)
      && Newest(after).media.Some? && Newest(after).media.value.Settings?
    ensures var n, written := Normalized(Newest(rows).media), Newest(After(rows, write)).media.value.settings;
      match write
      case Adjust(delta, now) =>
        written == n.(usage := written.usage, usageAt := Some(now)) && written.usage == AdjustedUsage(n.usage, delta)
      case Recompute(total, now) =>
        written == n.(usage := written.usage, usageAt := Some(now))
        && written.usage == if total < 0 then 0 else total
      case RecomputeObjectStorage(size, now) =>
        written == n.(objectUsage := size, objectUsageAt := Some(now))
      case _ => true
  {
    hide Normalized, AdjustedUsage;
  }

  // ----- Runs -----

  function Run(rows: seq<Row>, writes: seq<Write>): seq<Row> {
    if writes == [] then rows else After(Run(rows, writes[..|writes| - 1]), writes[|writes| - 1])
  }

  /** What has been superseded: all of it is there, as it was. */
  ghost predicate HistoryKept(before: seq<Row>, now: seq<Row>) {
    && |before| <= |now|
    && (forall i :: 0 <= i < |before| && !before[i].active ==> now[i] == before[i])
    && (forall i :: 0 <= i < |before| ==>
          && now[i].others == before[i].others && now[i].css == before[i].css
          && now[i].cssSettings == before[i].cssSettings)
  }

  lemma AfterKeeps(rows: seq<Row>, write: Write)
    requires OneActive(rows)
    ensures OneActive(After(rows, write)) && HistoryKept(rows, After(rows, write))
    ensures rows != [] ==> After(rows, write) != [] && Newest(After(rows, write)).others == Newest(rows).others
  {
    hide Normalized, AdjustedUsage, AtLeastZero;
  }

  /** In every reachable state exactly one version is active, the newest; older ones never change again, and what
      these writers do not touch is carried forward. */
  lemma {:induction false} RunKeeps(rows: seq<Row>, writes: seq<Write>)
    requires OneActive(rows)
    ensures OneActive(Run(rows, writes)) && HistoryKept(rows, Run(rows, writes))
    ensures rows != [] ==> Run(rows, writes) != [] && Newest(Run(rows, writes)).others == Newest(rows).others
  {
    if writes != [] {
      RunKeeps(rows, writes[..|writes| - 1]);
      hide After;
      AfterKeeps(Run(rows, writes[..|writes| - 1]), writes[|writes| - 1]);
    }
  }

  function CssText(rows: seq<Row>): Option<string> {
    if rows == [] then None else rows[|rows| - 1].css
  }

  /** The stylesheet last written, if any was. */
  function LastWritten(initially: Option<string>, writes: seq<Write>): Option<string> {
    if writes == [] then initially
    else
      match writes[|writes| - 1]
      case SaveCss(Some(text), _) => Some(text)
      case _ => LastWritten(initially, writes[..|writes| - 1])
  }

  lemma CssStep(rows: seq<Row>, write: Write)
    requires OneActive(rows)
    ensures CssText(After(rows, write)) ==
      match write
      case SaveCss(Some(text), _) => Some(text)
      case _ => CssText(rows)
  {
    hide Normalized, AdjustedUsage, AtLeastZero;
  }

  /** The stylesheet read is the one last written, whatever else was saved since. */
  lemma {:induction false} ReadsLastWritten(rows: seq<Row>, writes: seq<Write>)
    requires OneActive(rows)
    ensures CssText(Run(rows, writes)) == LastWritten(CssText(rows), writes)
  {
    if writes != [] {
      var front := writes[..|writes| - 1];
      ReadsLastWritten(rows, front);
      RunKeeps(rows, front);
      CssStep(Run(rows, front), writes[|writes| - 1]);
      hide After, CssText, OneActive, HistoryKept;
    }
  }

  // ----- The counter over a run -----

  /** As every reader sees it. */
  function Usage(rows: seq<Row>): U64 {
    if rows == [] then 0 else Normalized(rows[|rows| - 1].media).usage
  }

  function UsageAfter(usage: U64, writes: seq<Write>): U64 {
    if writes == [] then usage
    else
      var before := UsageAfter(usage, writes[..|writes| - 1]);
      match writes[|writes| - 1]
      case Adjust(delta, _) => if delta == 0 then before else AdjustedUsage(before, delta)
      case Recompute(total, _) => AtLeastZero(total)
      case _ => before
  }

  lemma UsageStep(rows: seq<Row>, write: Write)
    requires rows != []
    ensures After(rows, write) != []
    ensures Usage(After(rows, write)) ==
      match write
      case Adjust(delta, _) => if delta == 0 then Usage(rows) else AdjustedUsage(Usage(rows), delta)
      case Recompute(total, _) => AtLeastZero(total)
      case _ => Usage(rows)
  {
    ReadsBackIff(Normalized(rows[|rows| - 1].media));
    hide AdjustedUsage, AtLeastZero;
  }

  /** No save of a stylesheet loses the counter, and no save or reading changes it. */
  lemma {:induction false} UsageIsKept(rows: seq<Row>, writes: seq<Write>)
    requires rows != []
    ensures Run(rows, writes) != [] && Usage(Run(rows, writes)) == UsageAfter(Usage(rows), writes)
  {
    if writes != [] {
      UsageIsKept(rows, writes[..|writes| - 1]);
      UsageStep(Run(rows, writes[..|writes| - 1]), writes[|writes| - 1]);
      hide After, Usage, AdjustedUsage, AtLeastZero;
    }
  }

  // ----- What a series of adjustments comes to -----

  function Sum(deltas: seq<I64>): int {
    if deltas == [] then 0 else Sum(deltas[..|deltas| - 1]) + deltas[|deltas| - 1]
  }

  function Min(a: int, b: int): int {
    if a < b then a else b
  }

  /** The lowest of the partial sums, the start included. */
  function Lowest(start: int, deltas: seq<I64>): int {
    if deltas == [] then start
    else Min(Lowest(start, deltas[..|deltas| - 1]), start + Sum(deltas))
  }

  lemma {:induction false} LowestIs(start: int, deltas: seq<I64>)
    ensures forall k :: 0 <= k <= |deltas| ==> Lowest(start, deltas) <= start + Sum(deltas[..k])
    ensures exists k :: 0 <= k <= |deltas| && Lowest(start, deltas) == start + Sum(deltas[..k])
  {
    assert deltas[..|deltas|] == deltas;
    if deltas == [] {
      assert start == start + Sum(deltas[..0]);
    } else {
      var front := deltas[..|deltas| - 1];
      LowestIs(start, front);
      assert forall k :: 0 <= k <= |front| ==> deltas[..k] == front[..k];
      if Lowest(start, deltas) == Lowest(start, front) {
        var k :| 0 <= k <= |front| && Lowest(start, front) == start + Sum(front[..k]);
        assert Lowest(start, deltas) == start + Sum(deltas[..k]);
      } else {
        assert Lowest(start, deltas) == start + Sum(deltas[..|deltas|]);
      }
    }
  }

  function Adjustments(deltas: seq<I64>, now: int): seq<Write> {
    seq(|deltas|, i requires 0 <= i < |deltas| => Adjust(deltas[i], now))
  }

  /** The sum, lifted by as much as it ever fell below zero. */
  function Expected(start: U64, deltas: seq<I64>): int {
    start + Sum(deltas) - Min(0, Lowest(start, deltas))
  }

  /** As long as the counter itself fits, so does the arithmetic, and the clamping at zero adds up to this. */
  lemma {:induction false} AdjustmentsAddUp(start: U64, deltas: seq<I64>, now: int)
    requires forall k :: 0 <= k <= |deltas| ==> Expected(start, deltas[..k]) <= I64_MAX
    ensures UsageAfter(start, Adjustments(deltas, now)) == Expected(start, deltas)
  {
    if deltas == [] {
      assert Expected(start, []) == start;
    } else {
      var front, last := deltas[..|deltas| - 1], deltas[|deltas| - 1];
      forall k | 0 <= k <= |front| ensures Expected(start, front[..k]) <= I64_MAX {
        assert deltas[..k] == front[..k];
      }
      AdjustmentsAddUp(start, front, now);
      assert front[..|front|] == front && deltas[..|deltas|] == deltas;
      assert Adjustments(deltas, now)[..|front|] == Adjustments(front, now);
      assert Expected(start, front) <= I64_MAX && Expected(start, deltas) <= I64_MAX;
      LowestIs(start, front);
      ExpectedStep(start, front, last);
      assert deltas == front + [last];
    }
  }

  lemma ExpectedStep(start: U64, front: seq<I64>, last: I64)
    ensures Expected(start, front) >= 0
    ensures Expected(start, front + [last]) ==
      if Expected(start, front) + last < 0 then 0 else Expected(start, front) + last
  {
    assert (front + [last])[..|front|] == front;
    LowestIs(start, front);
    assert front[..|front|] == front;
  }

  /** `totals` are the true totals before and after each write: adjustments tell their changes, recomputations find
      them, and saves and readings go with none. */
  ghost predicate AreTold(totals: seq<int>, writes: seq<Write>) {
    && |totals| == |writes| + 1
    && (forall i :: 0 <= i < |totals| ==> 0 <= totals[i] <= I64_MAX)
    && (forall i :: 0 <= i < |writes| ==> IsTold(totals[i], writes[i], totals[i + 1]))
  }

  ghost predicate IsTold(before: int, write: Write, after: int) {
    match write
    case Adjust(delta, _) => delta == after - before
    case Recompute(total, _) => total == after == before
    case _ => after == before
  }

  ghost predicate HasRecomputation(writes: seq<Write>) {
    exists i :: 0 <= i < |writes| && writes[i].Recompute?
  }

  /** Through any run of writes and readings, a counter told of every change is the true total at the end, if it
      was at the start or has been recomputed since. */
  lemma {:induction false} StaysInSync(rows: seq<Row>, totals: seq<int>, writes: seq<Write>)
    requires rows != [] && AreTold(totals, writes)
    requires Usage(rows) == totals[0] || HasRecomputation(writes)
    ensures Run(rows, writes) != [] && Usage(Run(rows, writes)) == totals[|writes|]
  {
    if writes != [] {
      var front, last := writes[..|writes| - 1], writes[|writes| - 1];
      var present := Run(rows, front);
      UsageIsKept(rows, front);
      UsageStep(present, last);
      assert IsTold(totals[|front|], last, totals[|writes|]);
      if !last.Recompute? {
        RecomputedBefore(writes);
        assert AreTold(totals[..|writes|], front) by {
          forall i | 0 <= i < |front| ensures IsTold(totals[i], front[i], totals[i + 1]) {
            assert IsTold(totals[i], writes[i], totals[i + 1]);
          }
        }
        StaysInSync(rows, totals[..|writes|], front);
      }
      hide After, Usage, HasRecomputation;
    }
  }

  lemma RecomputedBefore(writes: seq<Write>)
    requires writes != [] && !writes[|writes| - 1].Recompute?
    ensures HasRecomputation(writes) <==> HasRecomputation(writes[..|writes| - 1])
  {
    var front := writes[..|writes| - 1];
    forall i | 0 <= i < |front| ensures front[i] == writes[i] {
    }
  }
}
