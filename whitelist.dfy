/** WhitelistSettingsActivity: every launchable activity but the launcher's
    own, one row per package, ordered by label, with a checkbox that adds the
    package to or removes it from the shared whitelist; the header counts the
    rows whose package is whitelisted. The activity's `allowed` is the
    whitelist object itself, so the count is always read from the current
    `allowedApps`. */
module Whitelist {
  import opened Common
  import opened Sorting
  import opened RewardManager
  import opened AppList

  /** One `LauncherActivityInfo`: its package, its label, and whether reading
      the label threw. */
  datatype ActivityEntry = ActivityEntry(packageName: string, labelText: string, labelFails: bool)

  /** The activity's row: its label, or its package name when the label
      cannot be read (the same fallback the sort key uses). */
  function RowOf(e: ActivityEntry): (a: AppInfo)
    ensures a.packageName == e.packageName
    ensures a.labelText == if e.labelFails then e.packageName else e.labelText
  {
    AppInfo(e.packageName, if e.labelFails then e.packageName else e.labelText)
  }

  predicate NotOwn(a: AppInfo) {
    a.packageName != OwnPackage
  }

  /** `distinctBy { packageName }`: the first row of each package not in
      `seen` is kept, later rows of the same package are dropped. */
  function Distinct(s: seq<AppInfo>, seen: set<string>): seq<AppInfo>
    decreases |s|
  {
    if s == [] then []
    else if s[0].packageName in seen then Distinct(s[1..], seen)
    else [s[0]] + Distinct(s[1..], seen + {s[0].packageName})
  }

  /** The rows in screen order. The row of each activity is formed first;
      the own-package filter and `distinctBy` look only at the package name,
      which the row keeps, and the sort key is the row's label. */
  function WhitelistRows(entries: seq<ActivityEntry>): seq<AppInfo> {
    Sort(Distinct(Filter(Map(entries, RowOf), NotOwn), {}), ByLabel)
  }

  /** What `Distinct` keeps: rows of `s`, with packages outside `seen`, no
      package twice. */
  lemma {:induction false} DistinctUnique(s: seq<AppInfo>, seen: set<string>)
    ensures UniqueKeys(Distinct(s, seen))
    ensures forall a :: a in Distinct(s, seen) ==> a in s && a.packageName !in seen
    decreases |s|
  {
    if s != [] {
      if s[0].packageName in seen {
        DistinctUnique(s[1..], seen);
      } else {
        DistinctUnique(s[1..], seen + {s[0].packageName});
        UniqueCons(s[0], Distinct(s[1..], seen + {s[0].packageName}));
      }
    }
  }

  /** The first row of a package outside `seen` is kept. */
  lemma {:induction false} DistinctKeepsFirst(s: seq<AppInfo>, seen: set<string>, j: nat)
    requires j < |s| && s[j].packageName !in seen
    requires forall k :: 0 <= k < j ==> s[k].packageName != s[j].packageName
    ensures s[j] in Distinct(s, seen)
    decreases |s|
  {
    if j > 0 {
      var seen' := if s[0].packageName in seen then seen else seen + {s[0].packageName};
      assert s[1..][j - 1] == s[j];
      DistinctKeepsFirst(s[1..], seen', j - 1);
    }
  }

  /** Dropping the launcher's rows first is the same as treating its package
      as already seen. */
  lemma {:induction false} FilterThenDistinct(s: seq<AppInfo>, seen: set<string>)
    ensures Distinct(Filter(s, NotOwn), seen) == Distinct(s, seen + {OwnPackage})
    decreases |s|
  {
    if s != [] {
      var k := s[0].packageName;
      var rest := Filter(s[1..], NotOwn);
      if k == OwnPackage {
        assert Filter(s, NotOwn) == rest;
        FilterThenDistinct(s[1..], seen);
      } else {
        assert Filter(s, NotOwn) == [s[0]] + rest;
        assert ([s[0]] + rest)[1..] == rest;
        if k in seen {
          FilterThenDistinct(s[1..], seen);
        } else {
          FilterThenDistinct(s[1..], seen + {k});
          assert seen + {k} + {OwnPackage} == seen + {OwnPackage} + {k};
        }
      }
    }
  }

  /** The rows before sorting: no package twice, the launcher's never, each
      from an activity, and the first activity of every other package kept. */
  lemma KeptRows(entries: seq<ActivityEntry>, a: AppInfo, j: nat)
    ensures var kept := Distinct(Filter(Map(entries, RowOf), NotOwn), {});
      UniqueKeys(kept) &&
      (a in kept ==> a.packageName != OwnPackage && exists e :: e in entries && a == RowOf(e)) &&
      (j < |entries| && entries[j].packageName != OwnPackage &&
       (forall k :: 0 <= k < j ==> entries[k].packageName != entries[j].packageName) ==>
       RowOf(entries[j]) in kept)
  {
    var rows := Map(entries, RowOf);
    DistinctUnique(Filter(rows, NotOwn), {});
    FilterThenDistinct(rows, {});
    assert {} + {OwnPackage} == {OwnPackage};
    DistinctUnique(rows, {OwnPackage});
    MapMembers(entries, RowOf, a);
    if j < |entries| && entries[j].packageName != OwnPackage &&
       (forall k :: 0 <= k < j ==> entries[k].packageName != entries[j].packageName) {
      assert forall k :: 0 <= k < j ==> rows[k].packageName != rows[j].packageName;
      DistinctKeepsFirst(rows, {OwnPackage}, j);
    }
  }

  /** The rows are ordered by label, no package has two rows and the
      launcher has none; every row comes from an activity; and the first
      activity of every other package has its row. */
  lemma WhitelistRowsSpec(entries: seq<ActivityEntry>, a: AppInfo, j: nat)
    ensures Sorted(WhitelistRows(entries), ByLabel)
    ensures UniqueKeys(WhitelistRows(entries))
    ensures a in WhitelistRows(entries) ==> a.packageName != OwnPackage && exists e :: e in entries && a == RowOf(e)
    ensures j < |entries| && entries[j].packageName != OwnPackage &&
            (forall k :: 0 <= k < j ==> entries[k].packageName != entries[j].packageName) ==>
            RowOf(entries[j]) in WhitelistRows(entries)
  {
    var kept := Distinct(Filter(Map(entries, RowOf), NotOwn), {});
    KeptRows(entries, a, j);
    ByLabelPreorder();
    SortSorted(kept, ByLabel);
    SortUnique(kept, ByLabel);
    assert a in WhitelistRows(entries) <==> a in multiset(kept);
    if j < |entries| {
      assert RowOf(entries[j]) in WhitelistRows(entries) <==> RowOf(entries[j]) in multiset(kept);
    }
  }

  /** Each toggle moves the header count by exactly one. */
  lemma HeaderFollowsToggle(entries: seq<ActivityEntry>, allowed: set<string>, i: nat)
    requires i < |WhitelistRows(entries)|
    ensures var rows := WhitelistRows(entries);
      var pkg := rows[i].packageName;
      (pkg !in allowed ==> CountIn(rows, allowed + {pkg}) == CountIn(rows, allowed) + 1) &&
      (pkg in allowed ==> CountIn(rows, allowed - {pkg}) == CountIn(rows, allowed) - 1)
  {
    WhitelistRowsSpec(entries, AppInfo([], []), 0);
    ToggleCount(WhitelistRows(entries), allowed, i);
  }

  class WhitelistSettings {
    /** The rows, fixed when the screen is built. */
    const listed: seq<AppInfo>
    /** The checkbox of each row. */
    var checked: seq<bool>
    /** The count in the header. */
    var shownCount: nat

    /** `onCreate`: a row per listed app, checked when its package is
        whitelisted, and the count of such rows. */
    constructor (entries: seq<ActivityEntry>, rm: RewardState)
      ensures listed == WhitelistRows(entries)
      ensures |checked| == |listed|
      ensures forall i :: 0 <= i < |listed| ==> (checked[i] <==> listed[i].packageName in rm.allowedApps)
      ensures shownCount == CountIn(listed, rm.allowedApps)
    {
      var rows := WhitelistRows(entries);
      var allowed := rm.allowedApps;
      listed := rows;
      checked := seq(|rows|, i requires 0 <= i < |rows| => rows[i].packageName in allowed);
      shownCount := CountIn(rows, allowed);
    }

    /** The listener of row `i`'s checkbox. */
    method OnCheckedChanged(i: nat, isChecked: bool, rm: RewardState)
      requires i < |listed| && |checked| == |listed| && rm.Valid()
      modifies this`checked, this`shownCount, rm`allowedApps, rm`storedAllowed
      ensures rm.Valid()
      ensures rm.allowedApps ==
        if isChecked then old(rm.allowedApps) + {listed[i].packageName} else old(rm.allowedApps) - {listed[i].packageName}
      ensures rm.storedAllowed == Some(Persisted(rm.Snapshot()))
      ensures checked == old(checked)[i := isChecked]
      ensures shownCount == CountIn(listed, rm.allowedApps)
    {
      var pkg := listed[i].packageName;
      checked := checked[i := isChecked];
      if isChecked {
        rm.AddToWhitelist(pkg);
      } else {
        rm.RemoveFromWhitelist(pkg);
      }
      shownCount := CountIn(listed, rm.allowedApps);
    }

    /** `onPause`: the whitelist is saved. */
    method OnPause(rm: RewardState)
      modifies rm`storedAllowed
      ensures rm.storedAllowed == Some(Persisted(rm.Snapshot()))
    {
      rm.SaveAllowedApps();
    }
  }
}
