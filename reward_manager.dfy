/** RewardManager: the launcher's whitelist of visible apps, the temporary
    reward grants layered on top of it, the one pending expiry, the fixed
    rule for which background processes may survive, and the reward hand-off
    file written by the companion learning app. */
module RewardManager {
  import opened Common
  import opened Numbers

  /** Apps that may always stay in memory. */
  const MemoryAllowedApps: set<string> := {OwnPackage, BaerenEdPackage, PokemonGoPackage}

  /** System packages that are never killed. */
  const EssentialSystemPackages: set<string> := {
    SystemUiPackage, "com.android.launcher", "com.android.launcher3",
    "com.google.android.apps.nexuslauncher", "android", "com.android.phone",
    SettingsPackage, "com.android.providers.settings", "com.android.providers.downloads",
    "com.android.providers.media", "com.android.providers.calendar",
    "com.android.providers.contacts"
  }

  /** The packages a pending reward is handed to, in this order, when installed. */
  const RewardPackages: seq<string> := [PokemonGoPackage, "com.roblox.client", "com.mojang.minecraftpe"]

  /** Age limit of a pending reward: one day in milliseconds. */
  const OneDayMs: int := 24 * 60 * 60 * 1000

  // ---------------------------------------------------------------------
  // Grants as values
  // ---------------------------------------------------------------------

  /** The expiry runnable currently posted: which package it revokes and the
      delay it was posted with. */
  datatype Expiry = Expiry(pkg: string, delayMs: int)

  /** The access sets and the single expiry slot. */
  datatype Grants = Grants(allowed: set<string>, temporary: set<string>, pending: Option<Expiry>)

  /** The delay `minutes * 60 * 1000L`: the first product is a 32-bit `Int`
      and wraps, the second is a `Long`. */
  function ExpiryDelayMs(minutes: int): (r: int)
    requires IsInt32(minutes)
    ensures 0 <= minutes <= IntMax / 60 ==> r == minutes * 60000
    ensures r % 1000 == 0 && IsInt64(r)
  {
    Wrap32(minutes * 60) * 1000
  }

  /** What `saveAllowedApps` writes: the whitelist without the reward grants. */
  function Persisted(g: Grants): set<string> {
    g.allowed - g.temporary
  }

  /** `grantAccess`: the package joins both sets, and its expiry replaces
      whatever expiry was pending. */
  function Grant(g: Grants, pkg: string, minutes: int): Grants
    requires IsInt32(minutes)
  {
    Grants(g.allowed + {pkg}, g.temporary + {pkg}, Some(Expiry(pkg, ExpiryDelayMs(minutes))))
  }

  /** The expiry runnable running: its package leaves both sets. */
  function ExpireGrant(g: Grants): Grants {
    match g.pending
    case None => g
    case Some(e) => Grants(g.allowed - {e.pkg}, g.temporary - {e.pkg}, None)
  }

  /** `grantRewardTime`: a grant for every installed package of `pkgs`, in order. */
  function GrantAll(g: Grants, pkgs: seq<string>, installed: set<string>, minutes: int): Grants
    requires IsInt32(minutes)
    decreases |pkgs|
  {
    if pkgs == [] then g
    else
      var before := GrantAll(g, pkgs[..|pkgs| - 1], installed, minutes);
      var p := pkgs[|pkgs| - 1];
      if p in installed then Grant(before, p, minutes) else before
  }

  /** Only the expiry slot's package can be revoked later: it is a grant. */
  ghost predicate WellFormed(g: Grants) {
    g.pending.Some? ==> g.pending.value.pkg in g.temporary
  }

  /** A grant makes the package allowed and temporary and leaves the rest of
      both sets alone; its expiry is now the one pending. */
  lemma GrantEffect(g: Grants, pkg: string, minutes: int)
    requires IsInt32(minutes)
    ensures var r := Grant(g, pkg, minutes);
      r.allowed == g.allowed + {pkg} && r.temporary == g.temporary + {pkg} &&
      r.pending.Some? && r.pending.value.pkg == pkg && WellFormed(r)
  {
  }

  /** Expiry right after a grant removes exactly that package from both sets
      and changes no other member. */
  lemma GrantThenExpire(g: Grants, pkg: string, minutes: int)
    requires IsInt32(minutes)
    ensures var r := ExpireGrant(Grant(g, pkg, minutes));
      r.allowed == g.allowed - {pkg} && r.temporary == g.temporary - {pkg} && r.pending.None?
  {
  }

  /** A second grant cancels the first one's expiry: after the only pending
      expiry runs, the first package is still allowed, and still a grant, so
      it is neither revoked nor ever persisted. */
  lemma SecondGrantSupersedes(g: Grants, p: string, q: string, m: int, n: int)
    requires IsInt32(m) && IsInt32(n) && p != q
    ensures var r := ExpireGrant(Grant(Grant(g, p, m), q, n));
      p in r.allowed && p in r.temporary && q !in r.allowed && r.pending.None? &&
      ExpireGrant(r) == r
  {
  }

  /** Reward grants are never saved as permanent: the persisted whitelist
      holds no granted package, and granting removes the package from it even
      when the parent had whitelisted it. */
  lemma PersistedExcludesGrants(g: Grants, pkg: string, minutes: int)
    requires IsInt32(minutes)
    ensures forall p :: p in Persisted(g) <==> p in g.allowed && p !in g.temporary
    ensures Persisted(Grant(g, pkg, minutes)) == Persisted(g) - {pkg}
  {
  }

  /** A whitelisted app that receives a reward grant is no longer whitelisted
      once the grant expires, in memory and in storage. */
  lemma {:induction false} GrantLosesWhitelistEntry(g: Grants, pkg: string, minutes: int)
    requires IsInt32(minutes) && pkg in g.allowed && pkg !in g.temporary
    ensures pkg in Persisted(g)
    ensures var r := ExpireGrant(Grant(g, pkg, minutes));
      pkg !in r.allowed && pkg !in Persisted(r) && Persisted(r) == Persisted(g) - {pkg}
  {
    GrantThenExpire(g, pkg, minutes);
  }

  /** Expiry keeps the slot's invariant and never touches any package other
      than the one it was posted for. */
  lemma ExpireWellFormed(g: Grants)
    requires WellFormed(g)
    ensures WellFormed(ExpireGrant(g))
    ensures g.pending.Some? ==> ExpireGrant(g).allowed == g.allowed - {g.pending.value.pkg}
    ensures g.pending.None? ==> ExpireGrant(g) == g
  {
  }

  /** After `grantRewardTime` every installed reward package is allowed and
      granted, and nothing else joins either set. */
  lemma {:induction false} GrantAllSets(g: Grants, pkgs: seq<string>, installed: set<string>, minutes: int)
    requires IsInt32(minutes) && WellFormed(g)
    ensures var r := GrantAll(g, pkgs, installed, minutes);
      WellFormed(r) &&
      (forall p :: p in r.allowed <==> p in g.allowed || (p in pkgs && p in installed)) &&
      (forall p :: p in r.temporary <==> p in g.temporary || (p in pkgs && p in installed))
    decreases |pkgs|
  {
    if pkgs != [] {
      var init := pkgs[..|pkgs| - 1];
      GrantAllSets(g, init, installed, minutes);
      assert pkgs == init + [pkgs[|pkgs| - 1]];
    }
  }

  /** The one expiry left pending after `grantRewardTime` belongs to the last
      installed package of the list, so the grants before it never expire;
      with no installed package the old expiry stays pending. */
  lemma {:induction false} GrantAllPending(g: Grants, pkgs: seq<string>, installed: set<string>, minutes: int, k: nat)
    requires IsInt32(minutes)
    requires k < |pkgs| && pkgs[k] in installed
    requires forall j :: k < j < |pkgs| ==> pkgs[j] !in installed
    ensures GrantAll(g, pkgs, installed, minutes).pending == Some(Expiry(pkgs[k], ExpiryDelayMs(minutes)))
    decreases |pkgs|
  {
    if k < |pkgs| - 1 {
      var init := pkgs[..|pkgs| - 1];
      assert init[k] == pkgs[k];
      GrantAllPending(g, init, installed, minutes, k);
    }
  }

  lemma {:induction false} GrantAllNoneInstalled(g: Grants, pkgs: seq<string>, installed: set<string>, minutes: int)
    requires IsInt32(minutes)
    requires forall j :: 0 <= j < |pkgs| ==> pkgs[j] !in installed
    ensures GrantAll(g, pkgs, installed, minutes) == g
    decreases |pkgs|
  {
    if pkgs != [] {
      GrantAllNoneInstalled(g, pkgs[..|pkgs| - 1], installed, minutes);
    }
  }

  // ---------------------------------------------------------------------
  // Background processes
  // ---------------------------------------------------------------------

  /** `isBackgroundAppAllowed`. */
  predicate IsBackgroundAppAllowed(pkg: string) {
    pkg in EssentialSystemPackages || StartsWith(pkg, "com.android.") ||
    StartsWith(pkg, "android.") || pkg in MemoryAllowedApps
  }

  /** The cleanup loop's own two skip tests, in its order. */
  predicate ShouldKill(pkg: string) {
    if pkg in MemoryAllowedApps then false
    else if pkg in EssentialSystemPackages || StartsWith(pkg, "com.android.") || StartsWith(pkg, "android.") then false
    else true
  }

  /** The cleanup loop spares exactly the processes `isBackgroundAppAllowed`
      admits; the launcher itself and the learning app always survive. */
  lemma KillIffNotBackgroundAllowed(pkg: string)
    ensures ShouldKill(pkg) <==> !IsBackgroundAppAllowed(pkg)
    ensures !ShouldKill(OwnPackage) && !ShouldKill(BaerenEdPackage) && !ShouldKill(PokemonGoPackage)
    ensures !ShouldKill("android") && ShouldKill("com.roblox.client")
  {
    var roblox := "com.roblox.client";
    assert roblox[4] == 'r' && "com.android."[4] == 'a' && roblox[0] != 'a';
  }

  /** How many kill attempts succeed: the candidates whose kill does not throw. */
  function KillCount(procs: seq<string>, fails: set<string>): (n: nat)
    ensures n <= |Filter(procs, ShouldKill)| <= |procs|
    decreases |procs|
  {
    if procs == [] then 0
    else
      var last := procs[|procs| - 1];
      FilterSnoc(procs, |procs| - 1, ShouldKill);
      assert procs[..|procs|] == procs;
      KillCount(procs[..|procs| - 1], fails) + (if ShouldKill(last) && last !in fails then 1 else 0)
  }

  /** When no process is a candidate, nothing is killed. */
  lemma {:induction false} KillCountNone(procs: seq<string>, fails: set<string>)
    requires forall k :: 0 <= k < |procs| ==> IsBackgroundAppAllowed(procs[k])
    ensures Filter(procs, ShouldKill) == [] && KillCount(procs, fails) == 0
    decreases |procs|
  {
    if procs != [] {
      var n := |procs| - 1;
      KillIffNotBackgroundAllowed(procs[n]);
      KillCountNone(procs[..n], fails);
      FilterSnoc(procs, n, ShouldKill);
      assert procs[..n + 1] == procs;
    }
  }

  /** `killUnauthorizedBackgroundAppsWithCount`. `aggressive` is the stored
      "aggressive_cleanup" flag (absent reads as true), `processes` the
      running processes (None when the platform gives none), and `fails` the
      packages whose kill throws. Returns the kill requests in order and the
      number that succeeded. */
  method KillUnauthorizedBackgroundAppsWithCount(aggressive: Option<bool>, processes: Option<seq<string>>, fails: set<string>)
    returns (attempted: seq<string>, count: int)
    ensures !aggressive.GetOr(true) || processes.None? ==> attempted == [] && count == 0
    ensures aggressive.GetOr(true) && processes.Some? ==>
      attempted == Filter(processes.value, ShouldKill) && count == KillCount(processes.value, fails)
    ensures 0 <= count <= |attempted|
    ensures forall p :: p in attempted ==> !IsBackgroundAppAllowed(p)
  {
    attempted, count := [], 0;
    if !aggressive.GetOr(true) || processes.None? {
      return;
    }
    var procs := processes.value;
    var i := 0;
    while i < |procs|
      invariant 0 <= i <= |procs|
      invariant attempted == Filter(procs[..i], ShouldKill)
      invariant count == KillCount(procs[..i], fails)
      invariant 0 <= count <= |attempted|
    {
      var name := procs[i];
      FilterSnoc(procs, i, ShouldKill);
      assert procs[..i + 1][..i] == procs[..i];
      if name in MemoryAllowedApps {
        i := i + 1;
        continue;
      }
      if name in EssentialSystemPackages || StartsWith(name, "com.android.") || StartsWith(name, "android.") {
        i := i + 1;
        continue;
      }
      attempted := attempted + [name];
      if name !in fails {
        count := count + 1;
      }
      i := i + 1;
    }
    assert procs[..i] == procs;
    FilterMembers(procs, ShouldKill);
    forall p | p in attempted ensures !IsBackgroundAppAllowed(p) {
      KillIffNotBackgroundAllowed(p);
    }
  }

  /** `killUnauthorizedBackgroundApps`: the same loop, without the count. */
  method KillUnauthorizedBackgroundApps(aggressive: Option<bool>, processes: Option<seq<string>>, fails: set<string>)
    returns (attempted: seq<string>)
    ensures !aggressive.GetOr(true) || processes.None? ==> attempted == []
    ensures aggressive.GetOr(true) && processes.Some? ==> attempted == Filter(processes.value, ShouldKill)
    ensures forall p :: p in attempted ==> !IsBackgroundAppAllowed(p)
  {
    var count;
    attempted, count := KillUnauthorizedBackgroundAppsWithCount(aggressive, processes, fails);
  }

  // ---------------------------------------------------------------------
  // The reward hand-off file
  // ---------------------------------------------------------------------

  /** Kotlin's `lines()`: split on "\r\n", "\n" and "\r". */
  function Lines(s: string): (r: seq<string>)
    ensures |r| >= 1
    ensures forall k :: 0 <= k < |r| ==> '\n' !in r[k] && '\r' !in r[k]
    decreases |s|
  {
    if s == [] then [[]]
    else if s[0] == '\n' then [[]] + Lines(s[1..])
    else if s[0] == '\r' then
      if |s| >= 2 && s[1] == '\n' then [[]] + Lines(s[2..]) else [[]] + Lines(s[1..])
    else
      var rest := Lines(s[1..]);
      [[s[0]] + rest[0]] + rest[1..]
  }

  lemma {:induction false} LinesNoBreak(s: string)
    requires '\n' !in s && '\r' !in s
    ensures Lines(s) == [s]
    decreases |s|
  {
    if s != [] {
      assert '\n' !in s[1..] && '\r' !in s[1..] by {
        forall k | 0 <= k < |s| - 1 ensures s[1..][k] == s[k + 1] { }
      }
      LinesNoBreak(s[1..]);
      assert [s[0]] + s[1..] == s;
    }
  }

  lemma {:induction false} LinesAroundNewline(a: string, b: string)
    requires '\n' !in a && '\r' !in a
    ensures Lines(a + "\n" + b) == [a] + Lines(b)
    decreases |a|
  {
    if a == [] {
      assert a + "\n" + b == "\n" + b;
      assert ("\n" + b)[1..] == b;
    } else {
      assert (a + "\n" + b)[1..] == a[1..] + "\n" + b;
      assert '\n' !in a[1..] && '\r' !in a[1..] by {
        forall k | 0 <= k < |a| - 1 ensures a[1..][k] == a[k + 1] { }
      }
      LinesAroundNewline(a[1..], b);
      assert [a[0]] + a[1..] == a;
    }
  }

  /** `getPendingRewardData`: the file's first line is the minutes and its
      second the time it was written; non-numbers read as 0. The reward is
      accepted only with at least two lines, positive minutes, a positive
      time, and an age under one day at `now`. */
  function ParsePendingReward(file: Option<string>, now: int): (r: Option<(int, int)>)
    ensures r.Some? ==> file.Some? && |Lines(file.value)| >= 2
    ensures r.Some? ==> 0 < r.value.0 <= IntMax && 0 < r.value.1 <= LongMax && now - r.value.1 < OneDayMs
    ensures r.Some? ==> ToIntOrNull(Lines(file.value)[0]) == Some(r.value.0)
    ensures r.Some? ==> ToLongOrNull(Lines(file.value)[1]) == Some(r.value.1)
  {
    match file
    case None => None
    case Some(content) =>
      var lines := Lines(content);
      if |lines| >= 2 then
        var minutes := ToIntOrNull(lines[0]).GetOr(0);
        var timestamp := ToLongOrNull(lines[1]).GetOr(0);
        if minutes > 0 && timestamp > 0 && now - timestamp < OneDayMs then Some((minutes, timestamp))
        else None
      else None
  }

  /** The file the learning app writes, "minutes\ntimestamp", is read back as
      written while it is younger than a day. */
  lemma RewardFileRoundTrip(minutes: int, timestamp: int, now: int)
    requires 0 < minutes <= IntMax && 0 < timestamp <= LongMax && now - timestamp < OneDayMs
    ensures ParsePendingReward(Some(IntToString(minutes) + "\n" + IntToString(timestamp)), now) == Some((minutes, timestamp))
  {
    IntToStringHasNoLineBreak(minutes);
    IntToStringHasNoLineBreak(timestamp);
    LinesAroundNewline(IntToString(minutes), IntToString(timestamp));
    LinesNoBreak(IntToString(timestamp));
    IntRoundTrip(minutes);
    LongRoundTrip(timestamp);
  }

  /** A one-line file, an empty file or a stale reward is refused. */
  lemma RewardFileRefused(content: string, now: int)
    requires '\n' !in content && '\r' !in content
    ensures ParsePendingReward(Some(content), now).None?
    ensures ParsePendingReward(None, now).None?
  {
    LinesNoBreak(content);
  }

  // ---------------------------------------------------------------------
  // The singleton's state
  // ---------------------------------------------------------------------

  /** The `RewardManager` object together with what it persists: the
      "allowed" entry of "whitelist_prefs" and the shared reward file. The
      members `rewardEligibleApps` and `currentRewardMinutes`, which other
      classes read and write, are plain fields. */
  class RewardState {
    var allowedApps: set<string>
    var temporaryApps: set<string>
    var pending: Option<Expiry>
    /** "whitelist_prefs"/"allowed"; None while never written. */
    var storedAllowed: Option<set<string>>
    /** The content of the shared reward file; None when it does not exist. */
    var rewardFile: Option<string>
    var rewardEligibleApps: set<string>
    var currentRewardMinutes: int

    ghost predicate Valid()
      reads this
    {
      WellFormed(Snapshot())
    }

    function Snapshot(): Grants
      reads this
    {
      Grants(allowedApps, temporaryApps, pending)
    }

    /** The object as first touched: the launcher and the learning app are
        visible, no grant exists; the persisted state is given. */
    constructor (stored: Option<set<string>>, file: Option<string>, eligible: set<string>, minutes: int)
      ensures Valid()
      ensures allowedApps == {BaerenEdPackage, OwnPackage} && temporaryApps == {} && pending.None?
      ensures storedAllowed == stored && rewardFile == file
      ensures rewardEligibleApps == eligible && currentRewardMinutes == minutes
    {
      allowedApps := {BaerenEdPackage, OwnPackage};
      temporaryApps := {};
      pending := None;
      storedAllowed := stored;
      rewardFile := file;
      rewardEligibleApps := eligible;
      currentRewardMinutes := minutes;
    }

    /** `isAllowed`. */
    predicate IsAllowed(pkg: string)
      reads this
    {
      pkg in allowedApps
    }

    /** `saveAllowedApps`. */
    method SaveAllowedApps()
      modifies this`storedAllowed
      ensures storedAllowed == Some(Persisted(Snapshot()))
    {
      storedAllowed := Some(allowedApps - temporaryApps);
    }

    /** `grantAccess`: cancels the pending expiry and posts the new one. */
    method GrantAccess(pkg: string, minutes: int)
      requires Valid() && IsInt32(minutes)
      modifies this`allowedApps, this`temporaryApps, this`pending, this`storedAllowed
      ensures Valid()
      ensures Snapshot() == Grant(old(Snapshot()), pkg, minutes)
      ensures storedAllowed == Some(Persisted(Snapshot()))
    {
      allowedApps := allowedApps + {pkg};
      temporaryApps := temporaryApps + {pkg};
      SaveAllowedApps();
      pending := Some(Expiry(pkg, ExpiryDelayMs(minutes)));
    }

    /** The posted expiry runs: the package loses access, the whitelist is
        saved, and the package is returned so its processes can be killed and
        the home screen shown. Nothing happens when no expiry is pending. */
    method Expire() returns (revoked: Option<string>)
      requires Valid()
      modifies this`allowedApps, this`temporaryApps, this`pending, this`storedAllowed
      ensures Valid()
      ensures Snapshot() == ExpireGrant(old(Snapshot()))
      ensures revoked == (if old(pending).Some? then Some(old(pending).value.pkg) else None)
      ensures storedAllowed == if old(pending).Some? then Some(Persisted(Snapshot())) else old(storedAllowed)
    {
      match pending
      case None =>
        revoked := None;
      case Some(e) =>
        allowedApps := allowedApps - {e.pkg};
        temporaryApps := temporaryApps - {e.pkg};
        pending := None;
        SaveAllowedApps();
        revoked := Some(e.pkg);
    }

    /** `addToWhitelist`. */
    method AddToWhitelist(pkg: string)
      requires Valid()
      modifies this`allowedApps, this`storedAllowed
      ensures Valid()
      ensures allowedApps == old(allowedApps) + {pkg}
      ensures storedAllowed == Some(Persisted(Snapshot()))
    {
      allowedApps := allowedApps + {pkg};
      SaveAllowedApps();
    }

    /** `removeFromWhitelist`. */
    method RemoveFromWhitelist(pkg: string)
      requires Valid()
      modifies this`allowedApps, this`storedAllowed
      ensures Valid()
      ensures allowedApps == old(allowedApps) - {pkg}
      ensures storedAllowed == Some(Persisted(Snapshot()))
    {
      allowedApps := allowedApps - {pkg};
      SaveAllowedApps();
    }

    /** `loadAllowedApps`: a stored whitelist replaces the current one; the
        grants are not reloaded; Pokemon GO is added when installed. */
    method LoadAllowedApps(pokemonInstalled: bool)
      requires Valid()
      modifies this`allowedApps
      ensures Valid()
      ensures allowedApps == LoadedWhitelist(old(allowedApps), storedAllowed, pokemonInstalled)
    {
      if storedAllowed.Some? {
        allowedApps := storedAllowed.value;
      }
      if pokemonInstalled {
        allowedApps := allowedApps + {PokemonGoPackage};
      }
    }

    /** `addPokemonGoIfInstalled`. */
    method AddPokemonGoIfInstalled(pokemonInstalled: bool)
      requires Valid()
      modifies this`allowedApps
      ensures Valid()
      ensures allowedApps == if pokemonInstalled then old(allowedApps) + {PokemonGoPackage} else old(allowedApps)
    {
      if pokemonInstalled {
        allowedApps := allowedApps + {PokemonGoPackage};
      }
    }

    /** `getAllowedAppsList`: a copy of the whitelist, grants included. */
    method GetAllowedAppsList() returns (r: set<string>)
      ensures r == allowedApps
      ensures temporaryApps <= allowedApps ==> Persisted(Snapshot()) + temporaryApps == r
    {
      r := allowedApps;
    }

    /** `checkForPendingRewardTime`: a valid pending reward is consumed (the
        file deleted) before every installed reward package is granted its
        minutes; `installed` is what the package manager reports. */
    method CheckForPendingRewardTime(now: int, installed: set<string>) returns (found: bool)
      requires Valid()
      modifies this`allowedApps, this`temporaryApps, this`pending, this`storedAllowed, this`rewardFile
      ensures Valid()
      ensures found == ParsePendingReward(old(rewardFile), now).Some?
      ensures !found ==> (Snapshot() == old(Snapshot()) && rewardFile == old(rewardFile) &&
                          storedAllowed == old(storedAllowed))
      ensures found ==> (rewardFile.None? &&
        Snapshot() == GrantAll(old(Snapshot()), RewardPackages, installed, ParsePendingReward(old(rewardFile), now).value.0))
      ensures found && (exists p :: p in RewardPackages && p in installed) ==> storedAllowed == Some(Persisted(Snapshot()))
      ensures found && (forall p :: p in RewardPackages ==> p !in installed) ==> storedAllowed == old(storedAllowed)
    {
      var reward := ParsePendingReward(rewardFile, now);
      if reward.None? {
        return false;
      }
      var minutes := reward.value.0;
      rewardFile := None;
      var i := 0;
      while i < |RewardPackages|
        invariant 0 <= i <= |RewardPackages|
        invariant Valid() && rewardFile.None?
        invariant Snapshot() == GrantAll(old(Snapshot()), RewardPackages[..i], installed, minutes)
        invariant (exists k :: 0 <= k < i && RewardPackages[k] in installed) ==> storedAllowed == Some(Persisted(Snapshot()))
        invariant (forall k :: 0 <= k < i ==> RewardPackages[k] !in installed) ==> storedAllowed == old(storedAllowed)
      {
        assert RewardPackages[..i + 1][..i] == RewardPackages[..i];
        if RewardPackages[i] in installed {
          GrantAccess(RewardPackages[i], minutes);
        }
        i := i + 1;
      }
      assert RewardPackages[..i] == RewardPackages;
      found := true;
    }
  }

  /** The whitelist `loadAllowedApps` leaves. */
  function LoadedWhitelist(current: set<string>, stored: Option<set<string>>, pokemonInstalled: bool): set<string> {
    (if stored.Some? then stored.value else current) + (if pokemonInstalled then {PokemonGoPackage} else {})
  }

  /** Saving then loading gives back the permanent whitelist and drops every
      grant; with nothing stored the current set is kept. */
  lemma SaveThenLoad(g: Grants, current: set<string>, pokemonInstalled: bool)
    ensures LoadedWhitelist(current, Some(Persisted(g)), false) * g.temporary == {}
    ensures g.temporary == {} ==> LoadedWhitelist(current, Some(Persisted(g)), false) == g.allowed
    ensures LoadedWhitelist(current, None, false) == current
    ensures PokemonGoPackage in LoadedWhitelist(current, Some(Persisted(g)), true)
  {
  }
}
