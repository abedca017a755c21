/** AppBlockerService: the accessibility service that sends the child back
    to the launcher when a reward app is opened with no reward minutes left.
    It reaches that decision from accessibility events, from the running
    processes and from recent usage events; it also keeps an editable set of
    blocked packages in the "blocked_apps" preferences. */
module AppBlocker {
  import opened Common
  import RewardManager

  /** AccessibilityEvent types the service listens to. */
  const TypeViewFocused: int := 8
  const TypeWindowStateChanged: int := 32
  const TypeWindowContentChanged: int := 2048
  /** RunningAppProcessInfo.IMPORTANCE_FOREGROUND. */
  const ImportanceForeground: int := 100
  /** UsageEvents.Event.ACTIVITY_RESUMED. */
  const ActivityResumed: int := 1

  /** What a check does: nothing, or block `pkg` by returning to the
      launcher, disabling the app first when `disable` (device owner). */
  datatype Decision = NoAction | Block(pkg: string, disable: bool)

  datatype Process = Process(processName: string, importance: int)

  datatype UsageEvent = UsageEvent(eventType: int, packageName: string)

  /** The one rule all three paths apply. */
  predicate ShouldBlock(pkg: string, eligible: set<string>, minutes: int) {
    pkg in eligible && minutes <= 0
  }

  /** The action taken once a path has chosen the package to judge. */
  function Respond(pkg: string, eligible: set<string>, minutes: int, deviceOwner: bool): (d: Decision)
    ensures d.Block? <==> ShouldBlock(pkg, eligible, minutes)
    ensures d.Block? ==> d.pkg == pkg && d.disable == deviceOwner
  {
    if ShouldBlock(pkg, eligible, minutes) then Block(pkg, deviceOwner) else NoAction
  }

  predicate IsWatchedEvent(eventType: int) {
    eventType == TypeWindowStateChanged || eventType == TypeWindowContentChanged ||
    eventType == TypeViewFocused
  }

  /** The first process with foreground importance, if any. */
  function FirstForeground(procs: seq<Process>): (r: Option<string>)
    ensures r.Some? <==> exists k :: 0 <= k < |procs| && procs[k].importance == ImportanceForeground
    decreases |procs|
  {
    if procs == [] then None
    else if procs[0].importance == ImportanceForeground then Some(procs[0].processName)
    else
      var rest := FirstForeground(procs[1..]);
      assert rest.Some? ==> exists k :: 0 <= k < |procs| && procs[k].importance == ImportanceForeground by {
        if rest.Some? {
          var k :| 0 <= k < |procs[1..]| && procs[1..][k].importance == ImportanceForeground;
          assert procs[k + 1] == procs[1..][k];
        }
      }
      assert (exists k :: 0 <= k < |procs| && procs[k].importance == ImportanceForeground) ==> rest.Some? by {
        if exists k :: 0 <= k < |procs| && procs[k].importance == ImportanceForeground {
          var k :| 0 <= k < |procs| && procs[k].importance == ImportanceForeground;
          assert procs[1..][k - 1] == procs[k];
        }
      }
      rest
  }

  /** FirstForeground picks the earliest foreground process: every process
      before it is in the background. */
  lemma {:induction false} FirstForegroundIsFirst(procs: seq<Process>, k: nat)
    requires k < |procs| && procs[k].importance == ImportanceForeground
    requires forall j :: 0 <= j < k ==> procs[j].importance != ImportanceForeground
    ensures FirstForeground(procs) == Some(procs[k].processName)
    decreases k
  {
    if k > 0 {
      FirstForegroundIsFirst(procs[1..], k - 1);
    }
  }

  /** The package of the last ACTIVITY_RESUMED event, if any. */
  function LastResumed(events: seq<UsageEvent>): (r: Option<string>)
    decreases |events|
  {
    if events == [] then None
    else if events[|events| - 1].eventType == ActivityResumed then Some(events[|events| - 1].packageName)
    else LastResumed(events[..|events| - 1])
  }

  /** LastResumed picks the latest resumed activity: no event after it is an
      ACTIVITY_RESUMED, and with no such event there is nothing to judge. */
  lemma {:induction false} LastResumedIsLast(events: seq<UsageEvent>)
    ensures LastResumed(events).None? <==> forall k :: 0 <= k < |events| ==> events[k].eventType != ActivityResumed
    ensures LastResumed(events).Some? ==>
      (exists k :: 0 <= k < |events| && events[k].eventType == ActivityResumed &&
         events[k].packageName == LastResumed(events).value &&
         forall j :: k < j < |events| ==> events[j].eventType != ActivityResumed)
    decreases |events|
  {
    if events != [] && events[|events| - 1].eventType != ActivityResumed {
      var init := events[..|events| - 1];
      LastResumedIsLast(init);
      if LastResumed(events).Some? {
        var k :| 0 <= k < |init| && init[k].eventType == ActivityResumed &&
          init[k].packageName == LastResumed(init).value &&
          forall j :: k < j < |init| ==> init[j].eventType != ActivityResumed;
        assert events[k] == init[k];
      }
    }
  }

  /** The decision of `onAccessibilityEvent`, for an event of `eventType`
      whose package is `pkg` (None when the event carries none). */
  function EventDecision(eventType: int, pkg: Option<string>, eligible: set<string>, minutes: int, deviceOwner: bool): (d: Decision)
    ensures !IsWatchedEvent(eventType) || pkg.None? ==> d == NoAction
    ensures IsWatchedEvent(eventType) && pkg.Some? ==> d == Respond(pkg.value, eligible, minutes, deviceOwner)
  {
    if !IsWatchedEvent(eventType) then NoAction
    else match pkg
      case None => NoAction
      case Some(p) => if p in eligible && minutes <= 0 then Block(p, deviceOwner) else NoAction
  }

  /** The three paths agree: whichever way the package in front is learnt,
      it is blocked iff it is reward-eligible and no minutes are left, and
      the app is disabled iff the device owner is active. */
  lemma SamePredicateOnAllPaths(pkg: string, eventType: int, procs: seq<Process>, events: seq<UsageEvent>,
                                eligible: set<string>, minutes: int, deviceOwner: bool)
    requires IsWatchedEvent(eventType)
    requires FirstForeground(procs) == Some(pkg) && LastResumed(events) == Some(pkg)
    ensures EventDecision(eventType, Some(pkg), eligible, minutes, deviceOwner) ==
            Respond(FirstForeground(procs).value, eligible, minutes, deviceOwner) ==
            Respond(LastResumed(events).value, eligible, minutes, deviceOwner)
    ensures EventDecision(eventType, Some(pkg), eligible, minutes, deviceOwner).Block? <==>
            pkg in eligible && minutes <= 0
  {
  }

  /** Reward minutes left, or an app that is not reward-eligible, means no
      path ever blocks. */
  lemma NothingBlockedWithMinutesLeft(pkg: string, eligible: set<string>, minutes: int, deviceOwner: bool, eventType: int)
    requires minutes > 0 || pkg !in eligible
    ensures EventDecision(eventType, Some(pkg), eligible, minutes, deviceOwner) == NoAction
    ensures Respond(pkg, eligible, minutes, deviceOwner) == NoAction
  {
  }

  /** The service's own state, with the apps the device policy has disabled
      on its request and the "blocked_apps"/"packages" preference (None while
      absent). */
  class AppBlockerService {
    var lastPackage: Option<string>
    var blockedPackages: set<string>
    var storedBlocked: Option<set<string>>
    var disabledApps: set<string>

    constructor (stored: Option<set<string>>, disabled: set<string>)
      ensures lastPackage.None? && blockedPackages == {}
      ensures storedBlocked == stored && disabledApps == disabled
    {
      lastPackage := None;
      blockedPackages := {};
      storedBlocked := stored;
      disabledApps := disabled;
    }

    /** The blocked set and its stored copy agree. */
    ghost predicate InSync()
      reads this
    {
      blockedPackages == storedBlocked.GetOr({})
    }

    /** `onAccessibilityEvent`; the returned decision is what the user sees
        (a Block returns to the launcher). Only this path records `lastPackage`. */
    method OnAccessibilityEvent(eventType: int, pkg: Option<string>, rm: RewardManager.RewardState, deviceOwner: bool)
      returns (d: Decision)
      modifies this`disabledApps, this`lastPackage
      ensures d == EventDecision(eventType, pkg, rm.rewardEligibleApps, rm.currentRewardMinutes, deviceOwner)
      ensures d.Block? && d.disable ==> disabledApps == old(disabledApps) + {d.pkg}
      ensures !(d.Block? && d.disable) ==> disabledApps == old(disabledApps)
      ensures lastPackage == if d.Block? then Some(d.pkg) else old(lastPackage)
    {
      if eventType != TypeWindowStateChanged && eventType != TypeWindowContentChanged && eventType != TypeViewFocused {
        return NoAction;
      }
      if pkg.None? {
        return NoAction;
      }
      var name := pkg.value;
      if name in rm.rewardEligibleApps && rm.currentRewardMinutes <= 0 {
        lastPackage := Some(name);
        if deviceOwner {
          disabledApps := disabledApps + {name};
        }
        return Block(name, deviceOwner);
      }
      d := NoAction;
    }

    /** `checkForegroundApp`: the first foreground process decides and the
        scan stops there; a missing process list decides nothing. */
    method CheckForegroundApp(processes: Option<seq<Process>>, rm: RewardManager.RewardState, deviceOwner: bool)
      returns (d: Decision)
      modifies this`disabledApps
      ensures processes.None? || FirstForeground(processes.value).None? ==> d == NoAction
      ensures processes.Some? && FirstForeground(processes.value).Some? ==>
        d == Respond(FirstForeground(processes.value).value, rm.rewardEligibleApps, rm.currentRewardMinutes, deviceOwner)
      ensures d.Block? && d.disable ==> disabledApps == old(disabledApps) + {d.pkg}
      ensures !(d.Block? && d.disable) ==> disabledApps == old(disabledApps)
    {
      d := NoAction;
      if processes.None? {
        return;
      }
      var procs := processes.value;
      var i := 0;
      while i < |procs|
        invariant 0 <= i <= |procs|
        invariant FirstForeground(procs) == FirstForeground(procs[i..])
      {
        assert procs[i..][1..] == procs[i + 1..];
        if procs[i].importance == ImportanceForeground {
          var name := procs[i].processName;
          if name in rm.rewardEligibleApps && rm.currentRewardMinutes <= 0 {
            if deviceOwner {
              disabledApps := disabledApps + {name};
            }
            return Block(name, deviceOwner);
          }
          return;
        }
        i := i + 1;
      }
    }

    /** `checkUsageStats`: the package of the last ACTIVITY_RESUMED event of
        the window decides; with none the check ends. */
    method CheckUsageStats(events: seq<UsageEvent>, rm: RewardManager.RewardState, deviceOwner: bool)
      returns (d: Decision)
      modifies this`disabledApps
      ensures LastResumed(events).None? ==> d == NoAction
      ensures LastResumed(events).Some? ==>
        d == Respond(LastResumed(events).value, rm.rewardEligibleApps, rm.currentRewardMinutes, deviceOwner)
      ensures d.Block? && d.disable ==> disabledApps == old(disabledApps) + {d.pkg}
      ensures !(d.Block? && d.disable) ==> disabledApps == old(disabledApps)
    {
      var lastForeground: Option<string> := None;
      var i := 0;
      while i < |events|
        invariant 0 <= i <= |events|
        invariant lastForeground == LastResumed(events[..i])
      {
        assert events[..i + 1][..i] == events[..i];
        if events[i].eventType == ActivityResumed {
          lastForeground := Some(events[i].packageName);
        }
        i := i + 1;
      }
      assert events[..i] == events;
      if lastForeground.None? {
        return NoAction;
      }
      var name := lastForeground.value;
      if name in rm.rewardEligibleApps && rm.currentRewardMinutes <= 0 {
        if deviceOwner {
          disabledApps := disabledApps + {name};
        }
        return Block(name, deviceOwner);
      }
      d := NoAction;
    }

    /** `loadBlockedPackages`: the stored set, or the empty set, replaces
        the blocked set. */
    method LoadBlockedPackages()
      modifies this`blockedPackages
      ensures blockedPackages == storedBlocked.GetOr({})
      ensures InSync()
    {
      blockedPackages := storedBlocked.GetOr({});
    }

    /** `addBlockedPackage`: one package in, the whole set saved, the app
        disabled when the device owner is active. */
    method AddBlockedPackage(pkg: string, deviceOwner: bool)
      modifies this`blockedPackages, this`storedBlocked, this`disabledApps
      ensures blockedPackages == old(blockedPackages) + {pkg}
      ensures storedBlocked == Some(blockedPackages) && InSync()
      ensures disabledApps == if deviceOwner then old(disabledApps) + {pkg} else old(disabledApps)
    {
      blockedPackages := blockedPackages + {pkg};
      storedBlocked := Some(blockedPackages);
      if deviceOwner {
        disabledApps := disabledApps + {pkg};
      }
    }

    /** `removeBlockedPackage`: one package out, the whole set saved, the app
        re-enabled when the device owner is active. */
    method RemoveBlockedPackage(pkg: string, deviceOwner: bool)
      modifies this`blockedPackages, this`storedBlocked, this`disabledApps
      ensures blockedPackages == old(blockedPackages) - {pkg}
      ensures storedBlocked == Some(blockedPackages) && InSync()
      ensures disabledApps == if deviceOwner then old(disabledApps) - {pkg} else old(disabledApps)
    {
      blockedPackages := blockedPackages - {pkg};
      storedBlocked := Some(blockedPackages);
      if deviceOwner {
        disabledApps := disabledApps - {pkg};
      }
    }

    /** `getBlockedPackages`: a copy equal to the blocked set. */
    method GetBlockedPackages() returns (r: set<string>)
      ensures r == blockedPackages
    {
      r := blockedPackages;
    }

    /** `clearAllBlockedPackages`: every blocked app is re-enabled (device
        owner only) before the set and its whole preference file are cleared. */
    method ClearAllBlockedPackages(deviceOwner: bool)
      modifies this`blockedPackages, this`storedBlocked, this`disabledApps
      ensures blockedPackages == {} && storedBlocked.None? && InSync()
      ensures disabledApps == if deviceOwner then old(disabledApps) - old(blockedPackages) else old(disabledApps)
    {
      if deviceOwner {
        disabledApps := disabledApps - blockedPackages;
      }
      blockedPackages := {};
      storedBlocked := None;
    }
  }
}
