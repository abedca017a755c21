/** MainActivity: the hourly update-check throttle, the match of a finished
    download against the tracked update, the routing of links clicked in the
    learning web page, the per-page time log and the daily usage report, the
    top-ten app usage list, the reward-picker grid and the parent PIN check.
    Network, downloads, dialogs and the web view itself are outside the
    model; what they would deliver is passed in. */
module MainActivity {
  import opened Common
  import opened Numbers
  import opened Sorting

  const OneHourMs: int := 60 * 60 * 1000
  /** The "update_download_id" default and the "no download" value. */
  const NoDownload: int := -1

  // ---------------------------------------------------------------------
  // Update check
  // ---------------------------------------------------------------------

  /** `checkForUpdate`: a check goes ahead when forced or when at least an
      hour has passed since the last recorded one. */
  predicate UpdateCheckDue(force: bool, lastCheck: int, now: int) {
    force || now - lastCheck >= OneHourMs
  }

  /** A forced check always runs; a check that was just recorded holds off
      every unforced check for the next hour and none after it. */
  lemma ThrottleWindow(lastCheck: int, now: int)
    ensures UpdateCheckDue(true, lastCheck, now)
    ensures lastCheck <= now < lastCheck + OneHourMs ==> !UpdateCheckDue(false, lastCheck, now)
    ensures now >= lastCheck + OneHourMs ==> UpdateCheckDue(false, lastCheck, now)
  {
  }

  /** What the background check reads from "version.json": the latest
      version code (an Int) and the APK's address. */
  datatype VersionInfo = VersionInfo(latestVersionCode: int, apkUrl: string)

  /** An update is required only for a strictly newer version code; the Int
      is widened to compare with the installed Long version code. */
  predicate UpdateRequired(latestVersionCode: int, currentVersionCode: int) {
    latestVersionCode > currentVersionCode
  }

  /** The "Update Required" dialog the check leads to, given by the APK it
      would download: a check that went ahead, with a network, read the
      file without an exception (`fetched`), found a newer version and was
      started from an activity. */
  function UpdatePrompt(checking: bool, fetched: Option<VersionInfo>, currentVersionCode: int, onActivity: bool): Option<string> {
    if checking && onActivity && fetched.Some? && UpdateRequired(fetched.value.latestVersionCode, currentVersionCode)
    then Some(fetched.value.apkUrl)
    else None
  }

  /** The dialog appears only for a check that is forced or an hour after the
      recorded one, and only for a strictly newer version; the installed
      version or an older one never prompts, and a failed fetch never does. */
  lemma PromptOnlyWhenDueAndNewer(force: bool, lastCheck: int, now: int, fetched: Option<VersionInfo>,
                                  current: int, onActivity: bool)
    ensures var prompt := UpdatePrompt(UpdateCheckDue(force, lastCheck, now), fetched, current, onActivity);
      (prompt.Some? ==> (force || now - lastCheck >= OneHourMs) && fetched.Some? &&
                        fetched.value.latestVersionCode > current && prompt.value == fetched.value.apkUrl) &&
      (fetched.Some? && fetched.value.latestVersionCode <= current ==> prompt.None?) &&
      (fetched.None? ==> prompt.None?) &&
      (force && onActivity && fetched.Some? && fetched.value.latestVersionCode > current ==> prompt.Some?)
  {
  }

  // ---------------------------------------------------------------------
  // Download-complete broadcast
  // ---------------------------------------------------------------------

  /** The broadcast's id is the tracked download or the saved one, and
      neither of those is the "no download" value. */
  predicate DownloadMatches(id: int, tracked: int, saved: int) {
    (id == tracked && tracked != NoDownload) || (id == saved && saved != NoDownload)
  }

  /** A broadcast without a download id never matches, and with nothing
      tracked or saved nothing matches. */
  lemma NoDownloadNeverMatches(id: int, tracked: int, saved: int)
    ensures !DownloadMatches(NoDownload, tracked, saved)
    ensures !DownloadMatches(id, NoDownload, NoDownload)
    ensures DownloadMatches(id, tracked, saved) ==> id != NoDownload && (id == tracked || id == saved)
  {
  }

  /** The tracked download id and "update_prefs"/"update_download_id" (None
      when absent). */
  datatype DownloadIds = DownloadIds(tracked: int, saved: Option<int>)

  /** Whether the receiver acts on a broadcast; `id` is None for a null
      intent. */
  predicate DownloadHandled(id: Option<int>, d: DownloadIds) {
    id.Some? && DownloadMatches(id.value, d.tracked, d.saved.GetOr(NoDownload))
  }

  /** The ids after a broadcast. On a match the saved id is removed and the
      id is tracked, but `handleDownloadedUpdate` first resets the tracked id
      to "no download"; otherwise nothing changes. */
  function AfterDownload(id: Option<int>, d: DownloadIds): DownloadIds {
    if DownloadHandled(id, d) then DownloadIds(NoDownload, None) else d
  }

  /** A handled broadcast was for the tracked or the saved download, and it
      is handled once: afterwards no broadcast is handled, the same id
      delivered again included, until a new download is recorded. */
  lemma HandledDownloadIsForgotten(id: Option<int>, d: DownloadIds, later: Option<int>)
    ensures DownloadHandled(id, d) ==> id.value == d.tracked || d.saved == Some(id.value)
    ensures DownloadHandled(id, d) ==> !DownloadHandled(later, AfterDownload(id, d))
    ensures !DownloadHandled(id, d) ==> AfterDownload(id, d) == d
  {
    if DownloadHandled(id, d) && later.Some? {
      NoDownloadNeverMatches(later.value, NoDownload, NoDownload);
    }
  }

  // ---------------------------------------------------------------------
  // Link routing
  // ---------------------------------------------------------------------

  const SendUsageReportUrl: string := "intent://sendusagereport"
  const ReadAlongHost: string := "readalong.google.com"
  const IntentScheme: string := "intent://"
  const DefaultRewardMinutes: int := 10

  /** What a clicked link does. */
  datatype UrlAction = SendReport | OpenReadAlong | RewardPicker(minutes: int) | IntentError | NotIntercepted

  /** `shouldOverrideUrlLoading`. `parsed` is what parsing the link as an
      intent gave: None when it threw, otherwise its "minutes" query
      parameter, None when absent. */
  function RouteUrl(url: string, parsed: Option<Option<string>>): (r: UrlAction)
    ensures r == SendReport <==> url == SendUsageReportUrl
    ensures r == OpenReadAlong <==> url != SendUsageReportUrl && Contains(url, ReadAlongHost)
    ensures (r.RewardPicker? || r == IntentError) <==>
      url != SendUsageReportUrl && !Contains(url, ReadAlongHost) && StartsWith(url, IntentScheme)
    ensures r == IntentError <==> r != NotIntercepted && !r.SendReport? && !r.OpenReadAlong? && parsed.None?
    ensures r.RewardPicker? ==> IsInt32(r.minutes)
  {
    if url == SendUsageReportUrl then SendReport
    else if Contains(url, ReadAlongHost) then OpenReadAlong
    else if StartsWith(url, IntentScheme) then
      match parsed
      case None => IntentError
      case Some(param) =>
        var minutes := if param.Some? then ToIntOrNull(param.value) else None;
        RewardPicker(minutes.GetOr(DefaultRewardMinutes))
    else NotIntercepted
  }

  /** A reward link carries its minutes through the query parameter
      unchanged, and defaults to ten when the parameter is missing or not a
      number. */
  lemma RewardLinkMinutes(url: string, m: int, junk: string)
    requires StartsWith(url, IntentScheme) && url != SendUsageReportUrl && !Contains(url, ReadAlongHost)
    requires IsInt32(m) && ToIntOrNull(junk).None?
    ensures RouteUrl(url, Some(Some(IntToString(m)))) == RewardPicker(m)
    ensures RouteUrl(url, Some(None)) == RewardPicker(DefaultRewardMinutes)
    ensures RouteUrl(url, Some(Some(junk))) == RewardPicker(DefaultRewardMinutes)
  {
    IntRoundTrip(m);
  }

  // ---------------------------------------------------------------------
  // Page-time log and usage report
  // ---------------------------------------------------------------------

  /** The seconds logged for a page in "usage_data": a missing or
      non-numeric entry counts as 0. */
  function StoredSeconds(usage: map<string, string>, page: string): (r: int)
    ensures IsInt32(r)
  {
    ToIntOrNull(if page in usage then usage[page] else "0").GetOr(0)
  }

  /** Logging a visit adds its duration to the page's total and leaves the
      other pages alone; a page never logged starts from 0. */
  lemma LogVisitAccumulates(usage: map<string, string>, page: string, other: string, d: int)
    requires IsInt32(StoredSeconds(usage, page) + d)
    ensures var after := usage[page := IntToString(Wrap32(StoredSeconds(usage, page) + d))];
      StoredSeconds(after, page) == StoredSeconds(usage, page) + d &&
      (other != page ==> StoredSeconds(after, other) == StoredSeconds(usage, other))
    ensures StoredSeconds(map[], page) == 0
  {
    IntRoundTrip(StoredSeconds(usage, page) + d);
    IntRoundTrip(0);
  }

  const ReportHeader: string := "Today's Activity Report:\n\n"
  const WebHeader: string := "\U{1F4F1} Web Activity:\n"
  const AppHeader: string := "\U{1F4F2} App Usage:\n"

  /** One report line: the seconds as Kotlin's `/ 60` and `% 60` of an `Int`. */
  function EntryLine(e: (string, int)): string {
    "  \U{2022} " + e.0 + ": " + IntToString(TruncDiv(e.1, 60)) + "m " + IntToString(TruncRem(e.1, 60)) + "s\n"
  }

  /** The minutes and seconds shown add back up to the logged seconds, and
      the seconds part of a non-negative total is below a minute. */
  lemma MinutesSeconds(secs: int)
    ensures TruncDiv(secs, 60) * 60 + TruncRem(secs, 60) == secs
    ensures secs >= 0 ==> 0 <= TruncRem(secs, 60) < 60 && TruncDiv(secs, 60) >= 0
  {
  }

  /** Lines written one after another. */
  function Concat(lines: seq<string>): string
    decreases |lines|
  {
    if lines == [] then [] else Concat(lines[..|lines| - 1]) + lines[|lines| - 1]
  }

  /** Each line occurs in the text of all lines. */
  lemma {:induction false} ConcatOccurs(lines: seq<string>, i: nat) returns (k: nat)
    requires i < |lines|
    ensures k + |lines[i]| <= |Concat(lines)|
    ensures Concat(lines)[k..k + |lines[i]|] == lines[i]
    decreases |lines|
  {
    var init := lines[..|lines| - 1];
    if i == |lines| - 1 {
      k := |Concat(init)|;
    } else {
      assert init[i] == lines[i];
      k := ConcatOccurs(init, i);
      assert Concat(lines)[k..k + |lines[i]|] == Concat(init)[k..k + |lines[i]|];
    }
  }

  /** The line of each entry, in order. */
  function EntryLines(entries: seq<(string, int)>): (lines: seq<string>)
    ensures |lines| == |entries|
  {
    seq(|entries|, i requires 0 <= i < |entries| => EntryLine(entries[i]))
  }

  /** One part of the report: a heading, the lines and a blank line, or
      nothing when there are no lines. */
  function Section(heading: string, lines: seq<string>): string {
    if lines != [] then heading + Concat(lines) + "\n" else []
  }

  /** The report: a header, then the web pages, then the apps. */
  function Report(web: seq<(string, int)>, apps: seq<(string, int)>): string {
    ReportHeader + Section(WebHeader, EntryLines(web)) + Section(AppHeader, EntryLines(apps))
  }

  /** Each line of a part occurs in it. */
  lemma SectionOccurs(heading: string, lines: seq<string>, i: nat) returns (k: nat)
    requires i < |lines|
    ensures k + |lines[i]| <= |Section(heading, lines)|
    ensures Section(heading, lines)[k..k + |lines[i]|] == lines[i]
  {
    var j := ConcatOccurs(lines, i);
    k := |heading| + j;
    var text := Concat(lines);
    assert Section(heading, lines) == heading + text + "\n";
    assert Section(heading, lines)[k..k + |lines[i]|] == text[j..j + |lines[i]|];
  }

  /** What occurs in the middle or last part of a text occurs in the text. */
  lemma OccursInParts(a: string, b: string, c: string, sub: string, k: nat, inMiddle: bool)
    requires inMiddle ==> k + |sub| <= |b| && b[k..k + |sub|] == sub
    requires !inMiddle ==> k + |sub| <= |c| && c[k..k + |sub|] == sub
    ensures Contains(a + b + c, sub)
  {
    var t := a + b + c;
    var off := if inMiddle then |a| + k else |a| + |b| + k;
    forall i | 0 <= i < |sub|
      ensures t[off + i] == sub[i]
    {
      if inMiddle {
        assert sub[i] == b[k..k + |sub|][i] == b[k + i];
      } else {
        assert sub[i] == c[k..k + |sub|][i] == c[k + i];
      }
    }
    assert t[off..off + |sub|] == sub;
    ContainsAt(t, sub, off);
  }

  /** Every line of either part occurs in a text made of a header and
      the two parts. */
  lemma PartsListEveryLine(header: string, h1: string, l1: seq<string>, h2: string, l2: seq<string>, line: string)
    requires line in l1 || line in l2
    ensures Contains(header + Section(h1, l1) + Section(h2, l2), line)
  {
    if line in l1 {
      var i :| 0 <= i < |l1| && l1[i] == line;
      var k := SectionOccurs(h1, l1, i);
      OccursInParts(header, Section(h1, l1), Section(h2, l2), line, k, true);
    } else {
      var i :| 0 <= i < |l2| && l2[i] == line;
      var k := SectionOccurs(h2, l2, i);
      OccursInParts(header, Section(h1, l1), Section(h2, l2), line, k, false);
    }
  }

  /** Every page and every app gets its line in the report. */
  lemma ReportListsEveryEntry(web: seq<(string, int)>, apps: seq<(string, int)>, e: (string, int))
    requires e in web || e in apps
    ensures Contains(Report(web, apps), EntryLine(e))
  {
    if e in web {
      var i :| 0 <= i < |web| && web[i] == e;
      assert EntryLines(web)[i] == EntryLine(e);
    } else {
      var i :| 0 <= i < |apps| && apps[i] == e;
      assert EntryLines(apps)[i] == EntryLine(e);
    }
    PartsListEveryLine(ReportHeader, WebHeader, EntryLines(web), AppHeader, EntryLines(apps), EntryLine(e));
  }

  /** Appending the next line extends the text by that line. */
  lemma AppendStep(report: string, r: string, lines: seq<string>, i: nat)
    requires i < |lines| && r == report + Concat(lines[..i])
    ensures r + lines[i] == report + Concat(lines[..i + 1])
  {
    assert lines[..i + 1][..i] == lines[..i];
  }

  /** A non-empty part appended heading first, line by line, then the
      blank line, is the part. */
  lemma SectionAppended(report: string, heading: string, lines: seq<string>)
    requires lines != []
    ensures report + heading + Concat(lines) + "\n" == report + Section(heading, lines)
  {
  }

  /** One part of the report builder: the heading, one line per entry, a
      blank line. */
  method AppendSection(report: string, heading: string, entries: seq<(string, int)>) returns (r: string)
    requires entries != []
    ensures r == report + Section(heading, EntryLines(entries))
  {
    ghost var lines := EntryLines(entries);
    var start := report + heading;
    r := start;
    var i := 0;
    while i < |entries|
      invariant 0 <= i <= |entries|
      invariant r == start + Concat(lines[..i])
    {
      AppendStep(start, r, lines, i);
      r := r + EntryLine(entries[i]);
      i := i + 1;
    }
    assert lines[..i] == lines;
    r := r + "\n";
    SectionAppended(report, heading, lines);
  }

  /** Kotlin's `Char.isWhitespace`, on the ASCII range. */
  predicate IsWhitespace(c: char) {
    c == ' ' || '\t' <= c <= '\r' || '\U{1C}' <= c <= '\U{1F}'
  }

  /** `isNullOrBlank`. */
  predicate IsNullOrBlank(s: Option<string>) {
    s.None? || forall i :: 0 <= i < |s.value| ==> IsWhitespace(s.value[i])
  }

  /** What `sendUsageReport` does. */
  datatype ReportOutcome = NoParentEmail | NoUsageData | Sent(report: string)

  /** The web part of the report: the logged pages in the order given, with
      their seconds read as `logVisit` reads them. */
  function WebEntries(usage: map<string, string>, order: seq<string>): (r: seq<(string, int)>)
    ensures |r| == |order|
    ensures forall i :: 0 <= i < |order| ==> r[i] == (order[i], StoredSeconds(usage, order[i]))
  {
    seq(|order|, i requires 0 <= i < |order| => (order[i], StoredSeconds(usage, order[i])))
  }

  // ---------------------------------------------------------------------
  // App usage: filter, keep the last value per name, top ten
  // ---------------------------------------------------------------------

  const TopAppCount: nat := 10

  /** One `UsageStats` record; `appLabel` is what the package manager gives
      for it, None when the lookup throws. */
  datatype UsageStat = UsageStat(packageName: string, totalTimeInForegroundMs: int, appLabel: Option<string>)

  /** The record counts: not this app, not a system package, and at least
      one whole second. */
  predicate Counted(st: UsageStat) {
    st.packageName != OwnPackage && !StartsWith(st.packageName, "com.android.") &&
    !StartsWith(st.packageName, "android.") && TruncDiv(st.totalTimeInForegroundMs, 1000) > 0
  }

  function AppName(st: UsageStat): string {
    st.appLabel.GetOr(st.packageName)
  }

  /** The seconds as a 32-bit `Int`, the `Long`'s low bits. */
  function Seconds(st: UsageStat): int {
    Wrap32(TruncDiv(st.totalTimeInForegroundMs, 1000))
  }

  predicate DistinctNames(m: seq<(string, int)>) {
    forall i, j :: 0 <= i < j < |m| ==> m[i].0 != m[j].0
  }

  /** `usageData[name] = value` on an insertion-ordered map: an existing
      name keeps its place and takes the new value, a new one goes last. */
  function Put(m: seq<(string, int)>, name: string, value: int): (r: seq<(string, int)>)
    requires DistinctNames(m)
    ensures DistinctNames(r)
    ensures (name, value) in r
    ensures forall e :: e in r ==> e == (name, value) || (e in m && e.0 != name)
    ensures forall e :: e in m && e.0 != name ==> e in r
    decreases |m|
  {
    if m == [] then [(name, value)]
    else if m[0].0 == name then
      assert forall e :: e in m[1..] ==> e.0 != name;
      [(name, value)] + m[1..]
    else
      var rest := Put(m[1..], name, value);
      assert forall e :: e in m[1..] ==> e.0 != m[0].0;
      [m[0]] + rest
  }

  /** What the loop reads from one record: whether it counts, the name it
      is stored under and its seconds. */
  datatype Row = Row(counted: bool, name: string, seconds: int)

  function RowOf(st: UsageStat): (r: Row)
    ensures r.counted == Counted(st) && r.name == AppName(st) && r.seconds == Seconds(st)
  {
    Row(Counted(st), AppName(st), Seconds(st))
  }

  function Rows(stats: seq<UsageStat>): (r: seq<Row>)
    ensures |r| == |stats|
    ensures forall i :: 0 <= i < |stats| ==> r[i] == RowOf(stats[i])
  {
    seq(|stats|, i requires 0 <= i < |stats| => RowOf(stats[i]))
  }

  /** The map the loop builds from the rows read so far. */
  function CollectedRows(rows: seq<Row>): (r: seq<(string, int)>)
    ensures DistinctNames(r)
    decreases |rows|
  {
    if rows == [] then []
    else
      var m := CollectedRows(rows[..|rows| - 1]);
      var last := rows[|rows| - 1];
      if last.counted then Put(m, last.name, last.seconds) else m
  }

  /** The map the loop over the records builds. */
  function Collected(stats: seq<UsageStat>): seq<(string, int)> {
    CollectedRows(Rows(stats))
  }

  /** Row k counts, carries entry e, and no later counted row has its name. */
  predicate LastCounted(rows: seq<Row>, k: int, e: (string, int)) {
    0 <= k < |rows| && rows[k].counted && rows[k].name == e.0 && rows[k].seconds == e.1 &&
    forall j :: k < j < |rows| && rows[j].counted ==> rows[j].name != e.0
  }

  /** Every collected name is a counted record's, with the value of the
      last counted record of that name. */
  lemma {:induction false} CollectedFromCounted(rows: seq<Row>, e: (string, int))
    requires e in CollectedRows(rows)
    ensures exists k :: LastCounted(rows, k, e)
    decreases |rows|
  {
    var init := rows[..|rows| - 1];
    var last := rows[|rows| - 1];
    var m := CollectedRows(init);
    if last.counted && e == (last.name, last.seconds) {
      assert LastCounted(rows, |rows| - 1, e);
    } else {
      assert e in m && (last.counted ==> e.0 != last.name);
      CollectedFromCounted(init, e);
      var k :| LastCounted(init, k, e);
      assert rows[k] == init[k];
      forall j | k < j < |rows| && rows[j].counted
        ensures rows[j].name != e.0
      {
        if j < |init| {
          assert rows[j] == init[j];
        }
      }
      assert LastCounted(rows, k, e);
    }
  }

  /** Every counted record's name is collected. */
  lemma {:induction false} CountedAreCollected(rows: seq<Row>, k: nat)
    requires k < |rows| && rows[k].counted
    ensures exists e :: e in CollectedRows(rows) && e.0 == rows[k].name
    decreases |rows|
  {
    var init := rows[..|rows| - 1];
    var last := rows[|rows| - 1];
    if k < |rows| - 1 {
      assert init[k] == rows[k];
      CountedAreCollected(init, k);
      var e :| e in CollectedRows(init) && e.0 == rows[k].name;
      if last.counted && last.name == e.0 {
        assert (last.name, last.seconds) in CollectedRows(rows);
      } else {
        assert e in CollectedRows(rows);
      }
    } else {
      assert (last.name, last.seconds) in CollectedRows(rows);
    }
  }

  /** Largest seconds first; ties keep their order. */
  predicate ByTimeDesc(a: (string, int), b: (string, int)) {
    a.1 >= b.1
  }

  /** The `toList().sortedByDescending { it.second }.take(10)` of the map. */
  function TopUsage(m: seq<(string, int)>): seq<(string, int)> {
    var sorted := Sort(m, ByTimeDesc);
    sorted[..if |sorted| < TopAppCount then |sorted| else TopAppCount]
  }

  /** The top list holds at most ten entries, all from the map, largest
      first, and no entry left out has more seconds than one kept. */
  lemma TopUsageIsTop(m: seq<(string, int)>)
    ensures var top := TopUsage(m);
      |top| == (if |m| < TopAppCount then |m| else TopAppCount) &&
      multiset(top) <= multiset(m) && Sorted(top, ByTimeDesc) &&
      forall e :: e in multiset(m) - multiset(top) ==> forall t :: t in top ==> t.1 >= e.1
  {
    var sorted := Sort(m, ByTimeDesc);
    DescendingKeyPreorder((e: (string, int)) => e.1, ByTimeDesc);
    SortSorted(m, ByTimeDesc);
    var n := if |sorted| < TopAppCount then |sorted| else TopAppCount;
    TakeSorted(sorted, n, ByTimeDesc);
  }

  /** `getAndroidAppUsageData`: the loop over the records, then the top ten. */
  method GetAndroidAppUsageData(stats: seq<UsageStat>) returns (top: seq<(string, int)>)
    ensures top == TopUsage(Collected(stats))
  {
    var usageData: seq<(string, int)> := [];
    ghost var rows := Rows(stats);
    var i := 0;
    while i < |stats|
      invariant 0 <= i <= |stats|
      invariant usageData == CollectedRows(rows[..i])
    {
      assert rows[..i + 1][..i] == rows[..i];
      var st := stats[i];
      if Counted(st) {
        usageData := Put(usageData, AppName(st), Seconds(st));
      }
      i := i + 1;
    }
    assert rows[..i] == rows;
    top := TopUsage(usageData);
  }

  // ---------------------------------------------------------------------
  // Reward picker grid
  // ---------------------------------------------------------------------

  function Columns(landscape: bool): nat {
    if landscape then 8 else 5
  }

  /** Item `index` goes to row `index / columns`, column `index % columns`. */
  function GridCell(index: nat, landscape: bool): (cell: (nat, nat))
    ensures cell.1 < Columns(landscape)
    ensures cell.0 * Columns(landscape) + cell.1 == index
  {
    (index / Columns(landscape), index % Columns(landscape))
  }

  /** No two items share a cell. */
  lemma GridCellsDistinct(i: nat, j: nat, landscape: bool)
    requires i != j
    ensures GridCell(i, landscape) != GridCell(j, landscape)
  {
  }

  // ---------------------------------------------------------------------
  // Parent PIN
  // ---------------------------------------------------------------------

  /** `showPinPrompt`: the callback runs only when the PIN entered equals
      the stored one, "1234" when none is stored; otherwise the prompt is
      shown again. */
  predicate PinAccepted(entered: string, stored: Option<string>) {
    entered == stored.GetOr(DefaultParentPin)
  }

  lemma PinAcceptedExactly(entered: string, stored: Option<string>)
    ensures stored.None? ==> (PinAccepted(entered, stored) <==> entered == "1234")
    ensures stored.Some? ==> (PinAccepted(entered, stored) <==> entered == stored.value)
  {
  }

  // ---------------------------------------------------------------------
  // The activity's stored state
  // ---------------------------------------------------------------------

  class MainActivityState {
    /** "update_prefs"/"last_update_check"; None when never written. */
    var lastUpdateCheck: Option<int>
    /** "update_prefs"/"update_download_id"; None when absent. */
    var savedDownloadId: Option<int>
    var updateDownloadId: int
    /** "usage_data": page name to logged seconds, as text. */
    var usage: map<string, string>

    constructor (lastCheck: Option<int>, saved: Option<int>, usage: map<string, string>)
      ensures lastUpdateCheck == lastCheck && savedDownloadId == saved
      ensures updateDownloadId == NoDownload && this.usage == usage
    {
      lastUpdateCheck := lastCheck;
      savedDownloadId := saved;
      updateDownloadId := NoDownload;
      this.usage := usage;
    }

    /** `checkForUpdate`: the check time is recorded before anything else;
        `checking` says whether the network check goes ahead. `fetched` is
        what the background thread reads (None without a network or when the
        fetch or its parse throws), `currentVersionCode` the installed
        version, and `onActivity` whether the caller is an activity; `prompt`
        is the APK the "Update Required" dialog offers, if it is shown. */
    method CheckForUpdate(force: bool, now: int, fetched: Option<VersionInfo>, currentVersionCode: int, onActivity: bool)
      returns (checking: bool, prompt: Option<string>)
      modifies this`lastUpdateCheck
      ensures checking == UpdateCheckDue(force, old(lastUpdateCheck).GetOr(0), now)
      ensures lastUpdateCheck == if checking then Some(now) else old(lastUpdateCheck)
      ensures prompt.Some? <==> checking && onActivity && fetched.Some? &&
                                fetched.value.latestVersionCode > currentVersionCode
      ensures prompt.Some? ==> prompt.value == fetched.value.apkUrl
      ensures prompt == UpdatePrompt(checking, fetched, currentVersionCode, onActivity)
    {
      var lastCheckTime := lastUpdateCheck.GetOr(0);
      if !force && now - lastCheckTime < OneHourMs {
        return false, None;
      }
      lastUpdateCheck := Some(now);
      checking := true;
      prompt := None;
      if fetched.Some? {
        var latestVersion := fetched.value.latestVersionCode;
        if latestVersion > currentVersionCode && onActivity {
          prompt := Some(fetched.value.apkUrl);
        }
      }
    }

    /** The download receiver. `id` is None for a null intent. On a match
        the saved id is removed and the update is handled, which resets the
        tracked id. */
    method OnDownloadComplete(id: Option<int>) returns (handled: bool)
      modifies this`savedDownloadId, this`updateDownloadId
      ensures handled == DownloadHandled(id, DownloadIds(old(updateDownloadId), old(savedDownloadId)))
      ensures DownloadIds(updateDownloadId, savedDownloadId) == AfterDownload(id, DownloadIds(old(updateDownloadId), old(savedDownloadId)))
      ensures handled ==> savedDownloadId.None? && updateDownloadId == NoDownload
    {
      if id.None? {
        return false;
      }
      var savedId := savedDownloadId.GetOr(NoDownload);
      handled := DownloadMatches(id.value, updateDownloadId, savedId);
      if handled {
        savedDownloadId := None;
        updateDownloadId := id.value;
        HandleDownloadedUpdate();
      }
    }

    /** `handleDownloadedUpdate`, whose first step forgets the tracked
        download; installing the downloaded file is not modelled. */
    method HandleDownloadedUpdate()
      modifies this`updateDownloadId
      ensures updateDownloadId == NoDownload
    {
      updateDownloadId := NoDownload;
    }

    /** `logVisit`: the page's stored total plus the duration, as a 32-bit
        sum written back as text. */
    method LogVisit(page: string, durationSeconds: int)
      requires IsInt32(durationSeconds)
      modifies this`usage
      ensures usage == old(usage)[page := IntToString(Wrap32(StoredSeconds(old(usage), page) + durationSeconds))]
    {
      var current := StoredSeconds(usage, page);
      usage := usage[page := IntToString(Wrap32(current + durationSeconds))];
    }

    /** `sendUsageReport`. `order` is the order in which the preferences
        map lists the logged pages, each once, and `stats` the usage-stats
        query; the app part is `getAndroidAppUsageData` of it. Without
        an email, or with nothing logged and no app usage, nothing is sent
        and nothing is cleared; otherwise the report is handed to the mail
        app and the page log is cleared. */
    method SendUsageReport(parentEmail: Option<string>, order: seq<string>, stats: seq<UsageStat>)
      returns (outcome: ReportOutcome)
      requires forall k :: k in usage <==> k in order
      requires forall i, j :: 0 <= i < j < |order| ==> order[i] != order[j]
      modifies this`usage
      ensures outcome == NoParentEmail <==> IsNullOrBlank(parentEmail)
      ensures outcome == NoUsageData <==> !IsNullOrBlank(parentEmail) && usage == old(usage) == map[] && TopUsage(Collected(stats)) == []
      ensures outcome.Sent? ==> outcome.report == Report(WebEntries(old(usage), order), TopUsage(Collected(stats))) && usage == map[]
      ensures !outcome.Sent? ==> usage == old(usage)
    {
      if IsNullOrBlank(parentEmail) {
        return NoParentEmail;
      }
      var report := ReportHeader;
      var web := WebEntries(usage, order);
      if |usage| != 0 {
        var k :| k in usage;
        assert k in order;
        report := AppendSection(report, WebHeader, web);
      }
      var apps := GetAndroidAppUsageData(stats);
      if apps != [] {
        report := AppendSection(report, AppHeader, apps);
      }
      if |usage| == 0 && apps == [] {
        return NoUsageData;
      }
      outcome := Sent(report);
      usage := map[];
    }
  }
}
