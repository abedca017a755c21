/** AppManagementActivity: the installed non-system apps that have a
    launcher activity, sorted by name, and a search that narrows the list
    shown to the apps whose name or package contains the query, ignoring
    case. The list adapter keeps its own copy of the rows it shows. */
module AppManagement {
  import opened Common
  import opened Sorting

  /** `ApplicationInfo.FLAG_SYSTEM`. */
  const FlagSystem: bv32 := 1

  /** One launcher activity's application: its label, package and flags. */
  datatype ResolvedApp = ResolvedApp(name: string, packageName: string, flags: bv32)

  /** The screen's `AppInfo`, without its icon. */
  datatype AppEntry = AppEntry(name: string, packageName: string, isSystemApp: bool)

  /** `appInfo.flags and FLAG_SYSTEM == 0`. */
  predicate NonSystem(r: ResolvedApp) {
    r.flags & FlagSystem == 0
  }

  function EntryOf(r: ResolvedApp): AppEntry {
    AppEntry(r.name, r.packageName, false)
  }

  /** `sortBy { it.name }`. */
  predicate ByName(a: AppEntry, b: AppEntry) {
    LexLe(a.name, b.name)
  }

  /** The list `loadInstalledApps` builds. */
  function Loaded(resolved: seq<ResolvedApp>): seq<AppEntry> {
    Sort(Map(Filter(resolved, NonSystem), EntryOf), ByName)
  }

  /** The loaded list is sorted by name, and holds exactly the entries of the
      non-system apps, none of them marked as a system app. */
  lemma LoadedSpec(resolved: seq<ResolvedApp>, a: AppEntry)
    ensures Sorted(Loaded(resolved), ByName)
    ensures |Loaded(resolved)| == |Filter(resolved, NonSystem)|
    ensures a in Loaded(resolved) <==> exists r :: r in resolved && NonSystem(r) && a == EntryOf(r)
    ensures a in Loaded(resolved) ==> !a.isSystemApp
  {
    var entries := Map(Filter(resolved, NonSystem), EntryOf);
    LexKeyPreorder((x: AppEntry) => x.name, ByName);
    SortSorted(entries, ByName);
    assert |Loaded(resolved)| == |multiset(entries)| == |entries|;
    assert a in Loaded(resolved) <==> a in multiset(entries);
    MapMembers(Filter(resolved, NonSystem), EntryOf, a);
    FilterMembers(resolved, NonSystem);
  }

  /** `name.contains(query, true) || packageName.contains(query, true)`. */
  predicate Matches(a: AppEntry, query: string) {
    ContainsIgnoreCase(a.name, query) || ContainsIgnoreCase(a.packageName, query)
  }

  /** `filterApps`: everything for an empty query, otherwise the matching
      apps in their order. */
  function Filtered(apps: seq<AppEntry>, query: string): seq<AppEntry> {
    if query == [] then apps else Filter(apps, (a: AppEntry) => Matches(a, query))
  }

  /** An empty query shows every app; any other query keeps exactly the apps
      that match it, never more than there are. */
  lemma FilteredSpec(apps: seq<AppEntry>, query: string, a: AppEntry)
    ensures query == [] ==> Filtered(apps, query) == apps
    ensures query != [] ==> (a in Filtered(apps, query) <==> a in apps && Matches(a, query))
    ensures |Filtered(apps, query)| <= |apps|
  {
    FilterMembers(apps, (x: AppEntry) => Matches(x, query));
  }

  /** The search keeps the list's order: filtering two runs of the list is
      filtering each and joining the results. */
  lemma FilteredKeepsOrder(front: seq<AppEntry>, back: seq<AppEntry>, query: string)
    ensures Filtered(front + back, query) == Filtered(front, query) + Filtered(back, query)
  {
    if query != [] {
      FilterAppend(front, back, (a: AppEntry) => Matches(a, query));
    }
  }

  /** The letter case of the query does not matter. */
  lemma QueryCaseIgnored(apps: seq<AppEntry>, query: string)
    ensures Filtered(apps, query) == Filtered(apps, Lower(query))
  {
    if query != [] {
      LowerTwice(query);
      assert Lower(query) != [];
      FilterSame(apps, (a: AppEntry) => Matches(a, query), (a: AppEntry) => Matches(a, Lower(query)));
    }
  }

  // ---------------------------------------------------------------------
  // The screen
  // ---------------------------------------------------------------------

  /** The activity's `installedApps` and the adapter's `displayApps`. */
  datatype Screen = Screen(installed: seq<AppEntry>, display: seq<AppEntry>)

  /** `onCreate` as written: the adapter copies the installed list while it
      is still empty, and loading afterwards only notifies it. */
  function Created(resolved: seq<ResolvedApp>): Screen {
    Screen(Loaded(resolved), [])
  }

  /** `onCreate` as evidently intended: the loaded apps are also shown. */
  function CreatedShown(resolved: seq<ResolvedApp>): Screen {
    Screen(Loaded(resolved), Loaded(resolved))
  }

  /** As written, for every result of the package query the list shows no
      row until a search is run, although every installed non-system app
      is loaded. */
  lemma CreatedShowsNothing(resolved: seq<ResolvedApp>, r: ResolvedApp)
    ensures Created(resolved).display == []
    ensures r in resolved && NonSystem(r) ==>
              EntryOf(r) in Created(resolved).installed && Created(resolved).installed != []
  {
    LoadedSpec(resolved, EntryOf(r));
  }

  /** As intended, the list shows exactly the loaded apps, the same list an
      empty search shows. */
  lemma CreatedShownLists(resolved: seq<ResolvedApp>, a: AppEntry)
    ensures var s := CreatedShown(resolved);
      s.display == s.installed == Filtered(s.installed, []) &&
      (a in s.display <==> exists r :: r in resolved && NonSystem(r) && a == EntryOf(r))
  {
    LoadedSpec(resolved, a);
  }

  // ---------------------------------------------------------------------
  // The package manager assignment at the start of onCreate
  // ---------------------------------------------------------------------

  /** A Kotlin `lateinit var`: unset until its first assignment. */
  datatype Lateinit<T> = Unset | Assigned(value: T)

  /** Reading a `lateinit var`: None when it is unset, where Kotlin throws
      UninitializedPropertyAccessException. */
  function ReadLateinit<T>(p: Lateinit<T>): (r: Option<T>)
    ensures r.None? <==> p.Unset?
    ensures r.Some? ==> p == Assigned(r.value)
  {
    match p
    case Unset => None
    case Assigned(v) => Some(v)
  }

  /** How `onCreate` ends. */
  datatype CreateResult<T> = Threw | Reached(manager: Lateinit<T>, screen: Screen)

  /** `onCreate` as written. The activity declares its own `lateinit`
      `packageManager`, which hides the platform's `getPackageManager()`,
      so `this.packageManager` on the right of the assignment reads that
      property itself; `platform` is what the platform would have given. */
  function OnCreateAsWritten<T>(manager: Lateinit<T>, platform: T, resolved: seq<ResolvedApp>): (r: CreateResult<T>)
    ensures r == Threw <==> manager.Unset?
    ensures r.Reached? ==> r.manager == manager && r.screen == Created(resolved)
  {
    match ReadLateinit(manager)
    case None => Threw
    case Some(m) => Reached(Assigned(m), Created(resolved))
  }

  /** On every launch the property is still unset when that line runs, so
      `onCreate` throws before any view is built, whatever the platform
      would have returned. */
  lemma OnCreateThrowsOnLaunch<T>(platform: T, resolved: seq<ResolvedApp>)
    ensures OnCreateAsWritten(Unset, platform, resolved) == Threw
  {
  }

  /** `onCreate` as evidently intended: the property takes the platform's
      package manager, and the screen is built and loaded. */
  function OnCreate<T>(manager: Lateinit<T>, platform: T, resolved: seq<ResolvedApp>): (r: CreateResult<T>)
    ensures r.Reached? && ReadLateinit(r.manager) == Some(platform)
    ensures r.screen.installed == Loaded(resolved)
  {
    Reached(Assigned(platform), Created(resolved))
  }

  class AppManagementScreen {
    var installedApps: seq<AppEntry>
    /** The adapter's `displayApps`. */
    var displayApps: seq<AppEntry>

    function Snapshot(): Screen
      reads this
    {
      Screen(installedApps, displayApps)
    }

    /** `onCreate` past its package manager assignment, read as intended
        (see `OnCreate`): the adapter is built over the empty installed
        list, then the apps are loaded. */
    constructor (resolved: seq<ResolvedApp>)
      ensures Snapshot() == Created(resolved)
    {
      installedApps := [];
      displayApps := installedApps;
      new;
      LoadInstalledApps(resolved);
    }

    /** `loadInstalledApps` (also the Refresh button): the non-system apps in
        resolution order, then sorted by name, replace the installed list;
        the adapter's list is left as it was. */
    method LoadInstalledApps(resolved: seq<ResolvedApp>)
      modifies this`installedApps
      ensures installedApps == Loaded(resolved)
    {
      var apps: seq<AppEntry> := [];
      for i := 0 to |resolved|
        invariant apps == Map(Filter(resolved[..i], NonSystem), EntryOf)
      {
        var r := resolved[i];
        FilterSnoc(resolved, i, NonSystem);
        if r.flags & FlagSystem == 0 {
          apps := apps + [AppEntry(r.name, r.packageName, false)];
        }
      }
      assert resolved[..|resolved|] == resolved;
      apps := Sort(apps, ByName);
      installedApps := apps;
    }

    /** The adapter's `updateApps`: its list becomes the given one. */
    method UpdateApps(newApps: seq<AppEntry>)
      modifies this`displayApps
      ensures displayApps == newApps && Count() == |newApps|
    {
      displayApps := newApps;
    }

    /** `getCount`. */
    function Count(): nat
      reads this
    {
      |displayApps|
    }

    /** The Search button. */
    method FilterApps(query: string)
      modifies this`displayApps
      ensures displayApps == Filtered(installedApps, query)
      ensures Count() == |Filtered(installedApps, query)|
    {
      var filteredApps := if query == [] then installedApps
                          else Filter(installedApps, (a: AppEntry) => Matches(a, query));
      UpdateApps(filteredApps);
    }

    /** Loading that also hands the loaded list to the adapter. */
    method LoadAndShowInstalledApps(resolved: seq<ResolvedApp>)
      modifies this`installedApps, this`displayApps
      ensures Snapshot() == CreatedShown(resolved)
    {
      LoadInstalledApps(resolved);
      UpdateApps(installedApps);
    }
  }
}
