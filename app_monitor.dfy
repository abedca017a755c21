/** AppMonitorService (the older service of the learning app's package):
    when the rewarded app comes to the front after its reward has ended, the
    main app is brought back. The companion fields `rewardedPackage` and
    `rewardEndTime` are only read here; the clock is an input. */
module AppMonitor {
  import opened Common

  const TypeWindowStateChanged: int := 32

  datatype AccessibilityEvent = AccessibilityEvent(eventType: int, packageName: Option<string>)

  /** `onAccessibilityEvent`: true when the main app is relaunched. A null
      event is None. */
  function ShouldRelaunch(event: Option<AccessibilityEvent>, rewardedPackage: Option<string>, rewardEndTime: int, now: int): (r: bool)
    ensures r <==> event.Some? && event.value.eventType == TypeWindowStateChanged &&
                   event.value.packageName.Some? && event.value.packageName == rewardedPackage &&
                   now > rewardEndTime
  {
    match event
    case None => false
    case Some(e) =>
      if e.eventType != TypeWindowStateChanged then false
      else match e.packageName
        case None => false
        case Some(pkg) => rewardedPackage.Some? && pkg == rewardedPackage.value && now > rewardEndTime
  }

  /** With no rewarded package (its initial value) nothing is ever relaunched,
      and the end time itself is still reward time. */
  lemma NoRewardNoRelaunch(event: Option<AccessibilityEvent>, rewardEndTime: int, now: int, pkg: Option<string>)
    ensures !ShouldRelaunch(event, None, rewardEndTime, now)
    ensures !ShouldRelaunch(event, pkg, rewardEndTime, rewardEndTime)
  {
  }

  /** Once the reward has ended it stays ended: a relaunch at `now` is also a
      relaunch at every later time, and other event types never relaunch. */
  lemma RelaunchStaysDue(e: AccessibilityEvent, rewardedPackage: Option<string>, rewardEndTime: int, now: int, later: int)
    requires ShouldRelaunch(Some(e), rewardedPackage, rewardEndTime, now) && later >= now
    ensures ShouldRelaunch(Some(e), rewardedPackage, rewardEndTime, later)
    ensures forall t :: t != TypeWindowStateChanged ==>
      !ShouldRelaunch(Some(AccessibilityEvent(t, e.packageName)), rewardedPackage, rewardEndTime, later)
  {
  }
}
