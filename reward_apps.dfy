/** RewardAppsSettingsActivity: a list of the launchable activities, each row
    checked when its package is a saved reward app; a click flips its
    package's membership in the selection, and Back writes the selection to
    "settings"/"reward_apps". */
module RewardApps {
  import opened Common

  /** One launcher activity from `queryIntentActivities`: its label and its
      package. */
  datatype ResolvedActivity = ResolvedActivity(labelText: string, packageName: string)

  function LabelOf(a: ResolvedActivity): string {
    a.labelText
  }

  function PackageOf(a: ResolvedActivity): string {
    a.packageName
  }

  /** The saved reward apps that have a row. */
  function InitialSelection(apps: seq<ResolvedActivity>, saved: set<string>): (r: set<string>)
    ensures forall p :: p in r <==> p in saved && exists i :: 0 <= i < |apps| && apps[i].packageName == p
  {
    set i | 0 <= i < |apps| && apps[i].packageName in saved :: apps[i].packageName
  }

  /** One more row adds its package to the selection when it is saved. */
  lemma SelectionSnoc(apps: seq<ResolvedActivity>, i: nat, saved: set<string>)
    requires i < |apps|
    ensures InitialSelection(apps[..i + 1], saved) ==
      InitialSelection(apps[..i], saved) + (if apps[i].packageName in saved then {apps[i].packageName} else {})
  {
    var pre := apps[..i];
    var next := apps[..i + 1];
    forall p ensures p in InitialSelection(next, saved) <==>
      p in InitialSelection(pre, saved) || (p == apps[i].packageName && p in saved) {
      if exists k :: 0 <= k < |next| && next[k].packageName == p {
        var k :| 0 <= k < |next| && next[k].packageName == p;
        if k < i {
          assert pre[k].packageName == p;
        }
      }
      if exists k :: 0 <= k < |pre| && pre[k].packageName == p {
        var k :| 0 <= k < |pre| && pre[k].packageName == p;
        assert next[k].packageName == p;
      }
      assert next[i] == apps[i];
    }
  }

  /** A saved selection whose packages all have rows is selected again in
      full when the screen is next loaded; saved packages without a row are
      dropped. */
  lemma SaveThenReload(apps: seq<ResolvedActivity>, selected: set<string>)
    ensures InitialSelection(apps, selected) <= selected
    ensures (forall p :: p in selected ==> p in Map(apps, PackageOf)) ==> InitialSelection(apps, selected) == selected
  {
    if forall p :: p in selected ==> p in Map(apps, PackageOf) {
      forall p | p in selected ensures p in InitialSelection(apps, selected) {
        var i :| 0 <= i < |apps| && Map(apps, PackageOf)[i] == p;
        assert apps[i].packageName == p;
      }
    }
  }

  /** A click on a row: its package leaves the selection when present and
      joins it otherwise. */
  function Toggle(selected: set<string>, pkg: string): set<string> {
    if pkg in selected then selected - {pkg} else selected + {pkg}
  }

  /** A click flips only its own package, so a second click on the same row
      restores the selection. */
  lemma ToggleFlips(selected: set<string>, pkg: string, other: string)
    requires other != pkg
    ensures pkg in Toggle(selected, pkg) <==> pkg !in selected
    ensures other in Toggle(selected, pkg) <==> other in selected
    ensures Toggle(Toggle(selected, pkg), pkg) == selected
  {
  }

  class RewardAppsSettings {
    var appLabels: seq<string>
    var appPackages: seq<string>
    var selectedPackages: set<string>
    /** The check marks `loadApps` sets on the list's rows. */
    var itemChecked: seq<bool>
    /** "settings"/"reward_apps"; None when the key is absent. */
    var rewardApps: Option<set<string>>
    var finished: bool

    /** The activity before `loadApps`: empty lists. */
    constructor (stored: Option<set<string>>)
      ensures appLabels == [] && appPackages == [] && selectedPackages == {} && itemChecked == []
      ensures rewardApps == stored && !finished
    {
      appLabels := [];
      appPackages := [];
      selectedPackages := {};
      itemChecked := [];
      rewardApps := stored;
      finished := false;
    }

    /** `loadApps`: the lists are refilled from scratch, index-aligned with
        the activities; the selection is the saved reward apps that have a
        row; and each row is checked exactly when its package is selected. */
    method LoadApps(apps: seq<ResolvedActivity>)
      modifies this`appLabels, this`appPackages, this`selectedPackages, this`itemChecked
      ensures |appLabels| == |appPackages| == |apps|
      ensures forall i :: 0 <= i < |apps| ==> appLabels[i] == apps[i].labelText && appPackages[i] == apps[i].packageName
      ensures selectedPackages == InitialSelection(apps, rewardApps.GetOr({}))
      ensures |itemChecked| == |appPackages|
      ensures forall i :: 0 <= i < |appPackages| ==> (itemChecked[i] <==> appPackages[i] in selectedPackages)
    {
      var saved := rewardApps.GetOr({});
      var labels: seq<string> := [];
      var packages: seq<string> := [];
      var selected: set<string> := {};
      var i := 0;
      while i < |apps|
        invariant 0 <= i <= |apps|
        invariant labels == Map(apps[..i], LabelOf) && packages == Map(apps[..i], PackageOf)
        invariant selected == InitialSelection(apps[..i], saved)
      {
        var text := apps[i].labelText;
        var pkg := apps[i].packageName;
        labels := labels + [text];
        packages := packages + [pkg];
        if pkg in saved {
          selected := selected + {pkg};
        }
        MapSnoc(apps, i, LabelOf);
        MapSnoc(apps, i, PackageOf);
        SelectionSnoc(apps, i, saved);
        i := i + 1;
      }
      assert apps[..i] == apps;
      appLabels := labels;
      appPackages := packages;
      selectedPackages := selected;
      var checks: seq<bool> := [];
      for j := 0 to |packages|
        invariant |checks| == j
        invariant forall k :: 0 <= k < j ==> (checks[k] <==> packages[k] in selected)
      {
        checks := checks + [packages[j] in selected];
      }
      itemChecked := checks;
    }

    /** The row click listener. */
    method OnItemClick(pos: nat)
      requires pos < |appPackages|
      modifies this`selectedPackages
      ensures selectedPackages == Toggle(old(selectedPackages), appPackages[pos])
    {
      var pkg := appPackages[pos];
      if pkg in selectedPackages {
        selectedPackages := selectedPackages - {pkg};
      } else {
        selectedPackages := selectedPackages + {pkg};
      }
    }

    /** The Back callback: the selection is saved and the screen closes. */
    method OnBackPressed()
      modifies this`rewardApps, this`finished
      ensures rewardApps == Some(selectedPackages) && finished
    {
      rewardApps := Some(selectedPackages);
      finished := true;
    }
  }
}
