/** LauncherActivity: the rules the home screen applies around the shared
    reward state. The settings provider (PIN, profile) and the launcher's own
    preferences are fields; the package manager's answers, the clock and
    whether this app is the default home app are inputs. */
module Launcher {
  import opened Common
  import opened Numbers
  import opened RewardManager
  import MainActivity

  /** How long a dismissed "set as home" prompt stays quiet. */
  const PromptIntervalMs: int := 3600000

  /** The `ENABLED_ACCESSIBILITY_SERVICES` entry of the blocking service. */
  const ExpectedService: string := "com.talq2me.baerenlock/com.talq2me.baerenlock.AppBlockerService"

  const ProfilePrefixA: string := "bg_a_"
  const ProfilePrefixB: string := "bg_b_"
  const OriginalSuffix: string := "_orig"

  // ---------------------------------------------------------------------
  // Reward minutes handed over in the launching intent
  // ---------------------------------------------------------------------

  /** `currentRewardMinutes += incoming` on a 32-bit `Int`, taken only when
      the "reward_minutes" extra (0 when absent) is positive. */
  function TopUp(current: int, extra: Option<int>): int {
    var incoming := extra.GetOr(0);
    if incoming > 0 then Wrap32(current + incoming) else current
  }

  /** A positive extra adds exactly its minutes while the sum fits an `Int`;
      an absent, zero or negative extra changes nothing. */
  lemma TopUpAdds(current: int, extra: Option<int>)
    requires IsInt32(current)
    ensures extra.GetOr(0) <= 0 ==> TopUp(current, extra) == current
    ensures extra.GetOr(0) > 0 && current + extra.GetOr(0) <= IntMax ==>
      TopUp(current, extra) == current + extra.GetOr(0) > current
    ensures IsInt32(TopUp(current, extra))
  {
  }

  // ---------------------------------------------------------------------
  // The "set as home" prompt
  // ---------------------------------------------------------------------

  /** The prompt is due when it was never shown (stored 0) or was last shown
      more than an hour ago. */
  predicate PromptDue(lastShown: int, now: int) {
    lastShown == 0 || now - lastShown > PromptIntervalMs
  }

  /** After a prompt at a non-zero time it is quiet for one hour exactly,
      and due again after that; a reset makes it due at once. */
  lemma PromptThrottle(shownAt: int, now: int)
    requires shownAt != 0
    ensures PromptDue(shownAt, now) <==> now > shownAt + PromptIntervalMs
    ensures PromptDue(0, now)
  {
  }

  // ---------------------------------------------------------------------
  // Accessibility service check
  // ---------------------------------------------------------------------

  /** `parts.any { it.equals(expected, ignoreCase = true) }`. */
  function AnyEqualsIgnoreCase(parts: seq<string>, expected: string): (r: bool)
    ensures r <==> exists i :: 0 <= i < |parts| && EqualsIgnoreCase(parts[i], expected)
    decreases |parts|
  {
    if parts == [] then false
    else EqualsIgnoreCase(parts[0], expected) || AnyEqualsIgnoreCase(parts[1..], expected)
  }

  /** `isAccessibilityServiceEnabled` over the setting's value, None when
      the setting is null. */
  predicate ServiceEnabled(setting: Option<string>) {
    setting.Some? && AnyEqualsIgnoreCase(Split(setting.value, ':'), ExpectedService)
  }

  /** The service counts as enabled when its entry stands anywhere in the
      ':'-separated list, in any letter case, or is the whole setting; never
      when the setting is null; and a lone entry of another length, such as
      one that only begins with the expected name, does not count. */
  lemma ServiceEnabledCases(before: string, entry: string, after: string)
    requires ':' !in entry
    ensures EqualsIgnoreCase(entry, ExpectedService) ==> ServiceEnabled(Some(before + ":" + entry + ":" + after))
    ensures ServiceEnabled(Some(entry)) <==> EqualsIgnoreCase(entry, ExpectedService)
    ensures |entry| != |ExpectedService| ==> !ServiceEnabled(Some(entry))
    ensures !ServiceEnabled(None)
  {
    assert before + ":" + entry + ":" + after == before + [':'] + (entry + [':'] + after);
    SplitAround(before, entry + [':'] + after, ':');
    SplitAround(entry, after, ':');
    SplitNoSep(entry, ':');
    var parts := Split(before + ":" + entry + ":" + after, ':');
    assert parts == Split(before, ':') + ([entry] + Split(after, ':'));
    assert parts[|Split(before, ':')|] == entry;
    assert |Lower(entry)| == |entry|;
  }

  // ---------------------------------------------------------------------
  // Profile choice and background images
  // ---------------------------------------------------------------------

  /** Item 0 of the profile dialog is "A"; any other item is "B". */
  function SelectedProfile(which: int): (p: string)
    ensures p == "A" <==> which == 0
    ensures p == "A" || p == "B"
  {
    if which == 0 then "A" else "B"
  }

  function BackgroundPrefix(profile: string): (prefix: string)
    ensures prefix == (if profile == "A" then ProfilePrefixA else ProfilePrefixB)
  {
    if profile == "A" then ProfilePrefixA else ProfilePrefixB
  }

  predicate IsBackgroundFor(name: string, profile: string) {
    StartsWith(name, BackgroundPrefix(profile)) && EndsWith(name, OriginalSuffix)
  }

  /** The "_orig" drawables whose name starts with `prefix`. */
  function WithPrefix(names: seq<string>, prefix: string): seq<string> {
    Filter(names, (n: string) => StartsWith(n, prefix) && EndsWith(n, OriginalSuffix))
  }

  /** The drawables a background is drawn from; with no profile (none
      chosen yet, or the provider read failed) there is none, and only the
      dark grey colour shows. */
  function BackgroundCandidates(names: seq<string>, profile: Option<string>): seq<string> {
    match profile
    case None => []
    case Some(p) => WithPrefix(names, BackgroundPrefix(p))
  }

  /** With a profile, exactly the "_orig" drawables with its prefix are
      candidates; without one there is none. Profile "A" and profile "B"
      never share one, and every profile other than "A" draws from the "B"
      images. */
  lemma BackgroundCandidatesExactly(names: seq<string>, profile: Option<string>, name: string)
    ensures profile.None? ==> BackgroundCandidates(names, profile) == []
    ensures name in BackgroundCandidates(names, profile) <==>
              profile.Some? && name in names && IsBackgroundFor(name, profile.value)
    ensures IsBackgroundFor(name, "A") ==> !IsBackgroundFor(name, "B")
    ensures profile.Some? && profile.value != "A" ==>
              BackgroundCandidates(names, profile) == BackgroundCandidates(names, Some("B"))
  {
    if profile.Some? {
      var prefix := BackgroundPrefix(profile.value);
      FilterMembers(names, (n: string) => StartsWith(n, prefix) && EndsWith(n, OriginalSuffix));
    }
    if IsBackgroundFor(name, "A") {
      assert name[..5] == ProfilePrefixA;
      assert name[3] == 'a';
    }
  }

  // ---------------------------------------------------------------------
  // The icon grid
  // ---------------------------------------------------------------------

  /** `refreshIcons`: the launchable activities, by package, whose package
      is allowed, in the order the package manager lists them. */
  function LauncherGrid(launchable: seq<string>, allowed: set<string>): seq<string> {
    Filter(launchable, (p: string) => p in allowed)
  }

  /** The grid shows exactly the allowed launchable apps; a granted app
      appears for the length of its grant and leaves when it expires, even
      when it was on the permanent whitelist before. */
  lemma GridFollowsGrants(launchable: seq<string>, g: Grants, pkg: string, minutes: int, app: string)
    requires pkg in launchable && IsInt32(minutes)
    ensures app in LauncherGrid(launchable, g.allowed) <==> app in launchable && app in g.allowed
    ensures pkg in LauncherGrid(launchable, Grant(g, pkg, minutes).allowed)
    ensures pkg !in LauncherGrid(launchable, ExpireGrant(Grant(g, pkg, minutes)).allowed)
  {
    FilterMembers(launchable, (p: string) => p in g.allowed);
    var granted := Grant(g, pkg, minutes);
    FilterMembers(launchable, (p: string) => p in granted.allowed);
    var expired := ExpireGrant(granted);
    FilterMembers(launchable, (p: string) => p in expired.allowed);
  }

  // ---------------------------------------------------------------------
  // The activity's stored state
  // ---------------------------------------------------------------------

  class LauncherActivity {
    /** The "reward_minutes" extra of the launching intent. */
    var rewardExtra: Option<int>
    /** "com.talq2me.baerenlock.prefs"/"launcher_prompt_last_shown". */
    var promptLastShown: Option<int>
    /** The settings provider's PIN and profile; None when unset. */
    var pin: Option<string>
    var profile: Option<string>

    constructor (extra: Option<int>, lastShown: Option<int>, pin: Option<string>, profile: Option<string>)
      ensures rewardExtra == extra && promptLastShown == lastShown
      ensures this.pin == pin && this.profile == profile
    {
      rewardExtra := extra;
      promptLastShown := lastShown;
      this.pin := pin;
      this.profile := profile;
    }

    /** The reward top-up in `onCreate`: the extra is consumed only when it
        was positive. */
    method TakeRewardMinutes(rm: RewardState)
      modifies this`rewardExtra, rm`currentRewardMinutes
      ensures rm.currentRewardMinutes == TopUp(old(rm.currentRewardMinutes), old(rewardExtra))
      ensures rewardExtra == if old(rewardExtra).GetOr(0) > 0 then None else old(rewardExtra)
    {
      var incoming := rewardExtra.GetOr(0);
      if incoming > 0 {
        rm.currentRewardMinutes := Wrap32(rm.currentRewardMinutes + incoming);
        rewardExtra := None;
      }
    }

    /** `ensureDefaultLauncher` for a device that is not device owner, or
        one that is (nothing here changes then). `isDefault` is what the
        home-intent resolution reports. */
    method EnsureDefaultLauncher(deviceOwner: bool, isDefault: bool, now: int) returns (prompted: bool)
      modifies this`promptLastShown
      ensures prompted <==> !deviceOwner && !isDefault && PromptDue(old(promptLastShown).GetOr(0), now)
      ensures promptLastShown ==
        if deviceOwner then old(promptLastShown)
        else if isDefault then Some(0)
        else if prompted then Some(now)
        else old(promptLastShown)
    {
      prompted := false;
      if deviceOwner {
        return;
      }
      if !isDefault {
        var lastPromptTime := promptLastShown.GetOr(0);
        if lastPromptTime == 0 || now - lastPromptTime > PromptIntervalMs {
          prompted := true;
          promptLastShown := Some(now);
        }
      } else {
        promptLastShown := Some(0);
      }
    }

    /** `showPinPrompt`: `onSuccess` runs only on the stored PIN, "1234"
        when none is stored. */
    function PinPromptAccepts(entered: string): (ok: bool)
      reads this
      ensures ok <==> entered == pin.GetOr(DefaultParentPin)
    {
      MainActivity.PinAccepted(entered, pin)
    }

    /** The "Change PIN" dialog's Save button. */
    method SaveNewPin(newPin: string, confirmPin: string) returns (changed: bool)
      modifies this`pin
      ensures changed <==> newPin != [] && newPin == confirmPin
      ensures pin == if changed then Some(newPin) else old(pin)
    {
      changed := |newPin| > 0 && newPin == confirmPin;
      if changed {
        pin := Some(newPin);
      }
    }

    /** The "Select User Profile" dialog: the choice is written, and the
        launcher restarted, only when it differs from the current one. */
    method ChangeProfile(which: int) returns (restarted: bool)
      modifies this`profile
      ensures restarted <==> old(profile) != Some(SelectedProfile(which))
      ensures profile == Some(SelectedProfile(which))
    {
      var selectedProfile := if which == 0 then "A" else "B";
      restarted := profile != Some(selectedProfile);
      if restarted {
        profile := Some(selectedProfile);
      }
    }
  }

  /** After a successful change the prompt accepts the new PIN and nothing
      else; after a refused change it accepts what it accepted before. */
  lemma PinChangeUnlocks(before: Option<string>, newPin: string, confirmPin: string, entered: string)
    ensures newPin != [] && newPin == confirmPin ==>
      (MainActivity.PinAccepted(entered, Some(newPin)) <==> entered == newPin)
    ensures MainActivity.PinAccepted(entered, before) <==> entered == before.GetOr("1234")
  {
  }
}
