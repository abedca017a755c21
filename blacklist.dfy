/** BlackListSettingsActivity: every installed package but the launcher's own
    is listed by label with a checkbox; checking one writes it to the
    "blacklist_prefs"/"packages" set and takes it off the whitelist and the
    reward list, unchecking only takes it off the blacklist, and a header
    counts the listed apps that are blacklisted. The package manager's
    answers are inputs. */
module Blacklist {
  import opened Common
  import opened Sorting
  import opened RewardManager
  import opened AppList

  /** One entry of `getInstalledPackages`: whether it carries an
      `applicationInfo`, the label of its launcher activity when it has one,
      its application label, and whether looking the label up threw. */
  datatype InstalledPackage = InstalledPackage(packageName: string, hasAppInfo: bool,
                                               launcherLabel: Option<string>, appLabel: string,
                                               labelFails: bool)

  // ---------------------------------------------------------------------
  // The listing
  // ---------------------------------------------------------------------

  /** The packages that get a row: not the launcher itself, and with an
      `applicationInfo`. */
  predicate Shown(p: InstalledPackage) {
    p.packageName != OwnPackage && p.hasAppInfo
  }

  /** The launcher label, else the application label; the package name when
      the lookup threw. */
  function InfoOf(p: InstalledPackage): (a: AppInfo)
    ensures a.packageName == p.packageName
    ensures p.labelFails ==> a.labelText == p.packageName
    ensures !p.labelFails && p.launcherLabel.None? ==> a.labelText == p.appLabel
  {
    var text := if p.labelFails then p.packageName else p.launcherLabel.GetOr(p.appLabel);
    AppInfo(p.packageName, text)
  }

  /** The rows, in the order the screen shows them. */
  function ListedApps(installed: seq<InstalledPackage>): seq<AppInfo> {
    Sort(Map(Filter(installed, Shown), InfoOf), ByLabel)
  }

  /** A row is drawn from exactly the shown packages. */
  lemma InfosOfShown(installed: seq<InstalledPackage>, a: AppInfo)
    ensures a in Map(Filter(installed, Shown), InfoOf) <==> exists p :: p in installed && Shown(p) && a == InfoOf(p)
  {
    var shown := Filter(installed, Shown);
    MapMembers(shown, InfoOf, a);
    FilterMembers(installed, Shown);
  }

  /** The rows are ordered by label, and an app has a row exactly when it is
      an installed package other than the launcher that has an
      `applicationInfo`; so the launcher itself never has one. */
  lemma ListedAppsExactly(installed: seq<InstalledPackage>, a: AppInfo)
    ensures Sorted(ListedApps(installed), ByLabel)
    ensures |ListedApps(installed)| <= |installed|
    ensures a in ListedApps(installed) <==> exists p :: p in installed && Shown(p) && a == InfoOf(p)
    ensures a in ListedApps(installed) ==> a.packageName != OwnPackage
  {
    var infos := Map(Filter(installed, Shown), InfoOf);
    ByLabelPreorder();
    SortSorted(infos, ByLabel);
    assert |ListedApps(installed)| == |multiset(infos)| == |infos|;
    assert a in ListedApps(installed) <==> a in multiset(infos);
    InfosOfShown(installed, a);
  }

  // ---------------------------------------------------------------------
  // What a checkbox does to the shared lists
  // ---------------------------------------------------------------------

  /** The lists the checkbox handler touches: the stored blacklist, the
      whitelist, the reward-eligible set and "settings"/"reward_apps". */
  datatype Lists = Lists(blacklist: Option<set<string>>, allowed: set<string>,
                         eligible: set<string>, rewardApps: Option<set<string>>)

  /** The blacklist as read, empty when the key is absent. */
  function Blacklisted(l: Lists): set<string> {
    l.blacklist.GetOr({})
  }

  /** The checkbox listener. */
  function Check(l: Lists, pkg: string, isChecked: bool): Lists {
    if isChecked then
      var eligible := pkg in l.eligible;
      Lists(Some(Blacklisted(l) + {pkg}), l.allowed - {pkg},
            if eligible then l.eligible - {pkg} else l.eligible,
            if eligible then Some(l.rewardApps.GetOr({}) - {pkg}) else l.rewardApps)
    else
      l.(blacklist := Some(Blacklisted(l) - {pkg}))
  }

  /** A checked package is blacklisted and neither whitelisted nor reward
      eligible; an unchecked one is off the blacklist and nothing else moves;
      no other package changes membership in any list. */
  lemma CheckEffect(l: Lists, pkg: string, isChecked: bool, other: string)
    requires other != pkg
    ensures var r := Check(l, pkg, isChecked);
      r.blacklist.Some? && (pkg in Blacklisted(r) <==> isChecked)
    ensures var r := Check(l, pkg, isChecked);
      isChecked ==> pkg !in r.allowed && pkg !in r.eligible &&
                    (pkg in l.eligible ==> r.rewardApps.Some? && pkg !in r.rewardApps.value)
    ensures var r := Check(l, pkg, isChecked);
      !isChecked ==> r.allowed == l.allowed && r.eligible == l.eligible && r.rewardApps == l.rewardApps
    ensures var r := Check(l, pkg, isChecked);
      (other in Blacklisted(r) <==> other in Blacklisted(l)) &&
      (other in r.allowed <==> other in l.allowed) &&
      (other in r.eligible <==> other in l.eligible) &&
      (other in r.rewardApps.GetOr({}) <==> other in l.rewardApps.GetOr({}))
  {
  }

  /** Checking and then unchecking a package leaves it off the blacklist
      again, but its whitelist and reward-list entries are not restored. */
  lemma CheckThenUncheck(l: Lists, pkg: string)
    requires pkg in l.allowed && pkg in l.eligible
    ensures var r := Check(Check(l, pkg, true), pkg, false);
      pkg !in Blacklisted(r) && pkg !in r.allowed && pkg !in r.eligible &&
      r.allowed == l.allowed - {pkg} && r.eligible == l.eligible - {pkg}
  {
  }

  // ---------------------------------------------------------------------
  // The activity
  // ---------------------------------------------------------------------

  class BlacklistSettings {
    /** The rows, fixed when the screen is built. */
    const listed: seq<AppInfo>
    /** "blacklist_prefs"/"packages"; None when the key is absent. */
    var stored: Option<set<string>>
    /** "settings"/"reward_apps". */
    var rewardApps: Option<set<string>>
    /** The checkbox of each row. */
    var checked: seq<bool>
    /** The count in the header. */
    var shownCount: nat

    function Blacklist(): set<string>
      reads this
    {
      stored.GetOr({})
    }

    function ListsWith(rm: RewardState): Lists
      reads this, rm
    {
      Lists(stored, rm.allowedApps, rm.rewardEligibleApps, rewardApps)
    }

    /** `onCreate`: one row per listed app, checked when the app is on the
        blacklist, and the count of such rows. */
    constructor (installed: seq<InstalledPackage>, stored: Option<set<string>>, rewardApps: Option<set<string>>)
      ensures listed == ListedApps(installed)
      ensures this.stored == stored && this.rewardApps == rewardApps
      ensures |checked| == |listed|
      ensures forall i :: 0 <= i < |listed| ==> (checked[i] <==> listed[i].packageName in Blacklist())
      ensures shownCount == CountIn(listed, Blacklist())
    {
      var apps := ListedApps(installed);
      var blacklist := stored.GetOr({});
      listed := apps;
      this.stored := stored;
      this.rewardApps := rewardApps;
      checked := seq(|apps|, i requires 0 <= i < |apps| => apps[i].packageName in blacklist);
      shownCount := CountIn(apps, blacklist);
    }

    /** `addToBlacklist`: the stored set, read with an empty default, gains
        the package. */
    method AddToBlacklist(pkg: string)
      modifies this`stored
      ensures stored == Some(old(Blacklist()) + {pkg})
    {
      var blacklist := stored.GetOr({});
      blacklist := blacklist + {pkg};
      stored := Some(blacklist);
    }

    /** `removeFromBlacklist`. */
    method RemoveFromBlacklist(pkg: string)
      modifies this`stored
      ensures stored == Some(old(Blacklist()) - {pkg})
    {
      var blacklist := stored.GetOr({});
      blacklist := blacklist - {pkg};
      stored := Some(blacklist);
    }

    /** `clearAllBlacklist`: the key is removed, so the blacklist reads empty. */
    method ClearAllBlacklist()
      modifies this`stored
      ensures stored.None? && Blacklist() == {}
    {
      stored := None;
    }

    /** The listener of row `i`'s checkbox. `refreshRewardEligibleApps` is
        not part of this model, so the reward-eligible set is left as the
        handler itself leaves it. */
    method OnCheckedChanged(i: nat, isChecked: bool, rm: RewardState)
      requires i < |listed| && |checked| == |listed| && rm.Valid()
      modifies this`stored, this`rewardApps, this`checked, this`shownCount
      modifies rm`allowedApps, rm`storedAllowed, rm`rewardEligibleApps
      ensures rm.Valid()
      ensures ListsWith(rm) == Check(old(ListsWith(rm)), listed[i].packageName, isChecked)
      ensures checked == old(checked)[i := isChecked]
      ensures shownCount == CountIn(listed, Blacklist())
      ensures rm.storedAllowed ==
        if isChecked && listed[i].packageName in old(rm.allowedApps) then Some(Persisted(rm.Snapshot()))
        else old(rm.storedAllowed)
    {
      var pkg := listed[i].packageName;
      checked := checked[i := isChecked];
      if isChecked {
        AddToBlacklist(pkg);
        if pkg in rm.allowedApps {
          rm.RemoveFromWhitelist(pkg);
        }
        if pkg in rm.rewardEligibleApps {
          rm.rewardEligibleApps := rm.rewardEligibleApps - {pkg};
          var current := rewardApps.GetOr({});
          current := current - {pkg};
          rewardApps := Some(current);
        }
      } else {
        RemoveFromBlacklist(pkg);
      }
      shownCount := CountIn(listed, Blacklist());
    }
  }
}
