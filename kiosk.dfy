/** KioskModeManager: lock-task package lists and the restriction flags each
    kiosk mode writes. The singleton is built on the application context,
    which is never an Activity, so `startLockTask` / `stopLockTask` are never
    reached from it: whether the device is in lock-task mode is an input
    that these operations read and never change. */
module Kiosk {
  import opened Common
  import opened Restrictions

  const LollipopSdk: int := 21
  const MarshmallowSdk: int := 23
  const ReadAlongPackage: string := "com.google.android.apps.seekh"

  /** `canUseKioskMode`. */
  predicate CanUseKioskMode(deviceOwner: bool, sdk: int) {
    deviceOwner && sdk >= LollipopSdk
  }

  /** The four configurations a caller can ask for. */
  datatype Mode = BaerenEd | Educational | Reward | RewardApp(pkg: string)

  /** The lock-task package list a configuration leaves behind, given the
      current one; the reward mode does not set one. */
  function ModePackages(mode: Mode, current: seq<string>): seq<string> {
    match mode
    case BaerenEd => [OwnPackage, SystemUiPackage, SettingsPackage]
    case Educational => [OwnPackage, SystemUiPackage, ReadAlongPackage]
    case Reward => current
    case RewardApp(pkg) => [OwnPackage, SystemUiPackage, pkg]
  }

  /** The restriction table a configuration leaves behind. */
  function ModePrefs(mode: Mode, p: map<string, bool>): map<string, bool> {
    match mode
    case BaerenEd => p[StatusBar := true][Keyguard := true][Camera := true][ScreenCapture := true]
    case Educational => p[Camera := true][ScreenCapture := true][StatusBar := false]
    case Reward => p[StatusBar := false][Camera := true][ScreenCapture := true]
    case RewardApp(_) => p
  }

  /** The launcher and the system UI head every list a configuration sets. */
  predicate KeepsLauncher(pkgs: seq<string>) {
    |pkgs| >= 2 && pkgs[0] == OwnPackage && pkgs[1] == SystemUiPackage
  }

  /** What each configuration does. BaerenEd mode allows the launcher, the
      system UI and Settings and turns on status bar, keyguard, camera and
      screen capture; educational mode allows the launcher, the system UI and
      Read Along, turns on camera and screen capture and turns off the status
      bar; reward mode keeps the package list, turns off the status bar and
      turns on camera and screen capture; entering for a reward app allows
      the launcher, the system UI and that app and writes no flag. No other
      flag changes, and the launcher stays allowed whenever it was. */
  lemma ModeEffect(mode: Mode, current: seq<string>, p: map<string, bool>, key: string)
    ensures var q := ModePrefs(mode, p);
      (mode == BaerenEd ==>
        ModePackages(mode, current) == [OwnPackage, SystemUiPackage, SettingsPackage] &&
        Lookup(q, key) == (key in {StatusBar, Keyguard, Camera, ScreenCapture} || Lookup(p, key))) &&
      (mode == Educational ==>
        ModePackages(mode, current) == [OwnPackage, SystemUiPackage, ReadAlongPackage] &&
        Lookup(q, key) == if key == StatusBar then false else key in {Camera, ScreenCapture} || Lookup(p, key)) &&
      (mode == Reward ==>
        ModePackages(mode, current) == current &&
        Lookup(q, key) == if key == StatusBar then false else key in {Camera, ScreenCapture} || Lookup(p, key)) &&
      (mode.RewardApp? ==> ModePackages(mode, current) == [OwnPackage, SystemUiPackage, mode.pkg] && q == p)
    ensures KeepsLauncher(current) ==> KeepsLauncher(ModePackages(mode, current))
    ensures mode != Reward ==> KeepsLauncher(ModePackages(mode, current))
  {
  }

  /** The reward app entered is one of exactly three allowed packages. */
  lemma RewardAppAllowed(pkg: string, current: seq<string>)
    ensures var r := ModePackages(RewardApp(pkg), current);
      |r| == 3 && pkg in r && forall x :: x in r ==> x in {OwnPackage, SystemUiPackage, pkg}
  {
  }

  /** The singleton over the device-policy state it reads and writes. */
  class KioskModeManager {
    /** `isDeviceOwnerApp` for this package. */
    const deviceOwner: bool
    /** `Build.VERSION.SDK_INT`. */
    const sdk: int
    /** Whether the activity manager reports a lock-task mode. */
    const lockTaskActive: bool
    /** The device-policy lock-task package list. */
    var lockTaskPackages: seq<string>
    /** The shared RestrictionsManager. */
    const restrictions: RestrictionsManager

    constructor (deviceOwner: bool, sdk: int, lockTaskActive: bool, packages: seq<string>, restrictions: RestrictionsManager)
      ensures this.deviceOwner == deviceOwner && this.sdk == sdk && this.lockTaskActive == lockTaskActive
      ensures lockTaskPackages == packages && this.restrictions == restrictions
    {
      this.deviceOwner := deviceOwner;
      this.sdk := sdk;
      this.lockTaskActive := lockTaskActive;
      lockTaskPackages := packages;
      this.restrictions := restrictions;
    }

    /** `isInLockTaskMode`: false below Lollipop. */
    predicate IsInLockTaskMode() {
      sdk >= LollipopSdk && lockTaskActive
    }

    /** `getAllowedPackages`: only readable from Marshmallow on, and only by
        the device owner; for any other caller the device-policy read throws
        and the catch returns null. */
    function GetAllowedPackages(): (r: Option<seq<string>>)
      reads this
      ensures r.Some? <==> deviceOwner && sdk >= MarshmallowSdk
      ensures r.Some? ==> r.value == lockTaskPackages
    {
      if sdk >= MarshmallowSdk && deviceOwner then Some(lockTaskPackages) else None
    }

    /** `setAllowedPackages`: written only from Lollipop on, and only by the
        device owner; for any other caller the device-policy write throws,
        the catch swallows it and the list stays as it was. */
    method SetAllowedPackages(packages: seq<string>)
      modifies this`lockTaskPackages
      ensures lockTaskPackages == if CanUseKioskMode(deviceOwner, sdk) then packages else old(lockTaskPackages)
    {
      if sdk >= LollipopSdk {
        if deviceOwner {
          lockTaskPackages := packages;
        }
      }
    }

    /** `startKioskMode`: the given list, or the launcher alone when the
        caller passes none, becomes the lock-task list when kiosk mode can
        be used; the lock task itself is never started. */
    method StartKioskMode(allowedPackages: Option<seq<string>>)
      modifies this`lockTaskPackages
      ensures lockTaskPackages == if CanUseKioskMode(deviceOwner, sdk) then allowedPackages.GetOr([OwnPackage]) else old(lockTaskPackages)
    {
      if !CanUseKioskMode(deviceOwner, sdk) {
        return;
      }
      lockTaskPackages := allowedPackages.GetOr([OwnPackage]);
    }

    /** `configureBaerenEdKioskMode`, `configureEducationalKioskMode`,
        `configureRewardKioskMode` and `enterKioskModeForRewardApp`: each
        does nothing unless kiosk mode can be used. */
    method Configure(mode: Mode)
      modifies this`lockTaskPackages, restrictions
      ensures CanUseKioskMode(deviceOwner, sdk) ==>
        lockTaskPackages == ModePackages(mode, old(lockTaskPackages)) &&
        restrictions.prefs == ModePrefs(mode, old(restrictions.prefs))
      ensures !CanUseKioskMode(deviceOwner, sdk) ==>
        lockTaskPackages == old(lockTaskPackages) && restrictions.prefs == old(restrictions.prefs)
    {
      if !CanUseKioskMode(deviceOwner, sdk) {
        return;
      }
      match mode {
        case BaerenEd =>
          SetAllowedPackages([OwnPackage, SystemUiPackage, SettingsPackage]);
          restrictions.EnableRestriction(StatusBar);
          restrictions.EnableRestriction(Keyguard);
          restrictions.EnableRestriction(Camera);
          restrictions.EnableRestriction(ScreenCapture);
        case Educational =>
          SetAllowedPackages([OwnPackage, SystemUiPackage, ReadAlongPackage]);
          restrictions.EnableRestriction(Camera);
          restrictions.EnableRestriction(ScreenCapture);
          restrictions.DisableRestriction(StatusBar);
        case Reward =>
          restrictions.DisableRestriction(StatusBar);
          restrictions.EnableRestriction(Camera);
          restrictions.EnableRestriction(ScreenCapture);
        case RewardApp(pkg) =>
          SetAllowedPackages([OwnPackage, SystemUiPackage, pkg]);
      }
    }

    /** `exitKioskMode`: back to the launcher and the system UI, only when in
        lock-task mode, and only for the device owner, whose write alone
        succeeds. */
    method ExitKioskMode()
      modifies this`lockTaskPackages
      ensures lockTaskPackages == ExitPackages(IsInLockTaskMode() && deviceOwner, old(lockTaskPackages))
    {
      if IsInLockTaskMode() {
        SetAllowedPackages([OwnPackage, SystemUiPackage]);
      }
    }
  }

  /** The list `exitKioskMode` leaves behind. */
  function ExitPackages(inLockTask: bool, current: seq<string>): seq<string> {
    if inLockTask then [OwnPackage, SystemUiPackage] else current
  }

  /** Leaving lock-task mode after any configuration keeps only the launcher
      and the system UI, whatever the configuration allowed. */
  lemma ExitAfterConfigure(mode: Mode, current: seq<string>)
    ensures ExitPackages(true, ModePackages(mode, current)) == [OwnPackage, SystemUiPackage]
    ensures KeepsLauncher(ExitPackages(true, current))
    ensures ExitPackages(false, current) == current
  {
  }
}
