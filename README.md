# BaerenLock policy model

BaerenLock is an Android home-screen launcher for parental control. It shows
the child only the apps a parent has whitelisted. It grants reward apps for a
limited number of minutes and blocks them once the minutes run out. It keeps a
table of device restrictions and can lock the device into kiosk modes. Parent
actions are protected by a four-digit PIN.

This project models the decisions the app makes, one Dafny module per
Kotlin file:

- `RewardManager`: the whitelist, the temporary reward grants and their single
  pending expiry, the persisted whitelist, the background-process rule, and
  the reward file written by the companion learning app.
- `AppBlocker`: the block rule used on all three detection paths (accessibility
  event, first foreground process, last resumed activity), and the editable
  "blocked_apps" set.
- `AppMonitor`: the older deadline rule.
- `Restrictions`: the twenty-flag restriction table.
- `Kiosk`: lock-task package lists and the flags each kiosk mode writes.
- `PinPrompt`: the keypad state machine.
- `ChangePin`: the two-step change-PIN machine.
- `MainActivity` and `Launcher`: the rules inside the two activities.
- `Blacklist`, `Whitelist`, `RewardApps` and `AppManagement`: the four
  settings screens.
- `AppList`: the row type and the header count shared by the blacklist and
  whitelist screens.

Helper modules:

- `Common`: Option, string predicates, filter, map and split.
- `Numbers`: Kotlin `Int`/`Long` text conversion, 32-bit wrap-around and
  truncating division.
- `Sorting`: a stable insertion sort and lexicographic string order.

Objects whose fields the app updates are classes. Their methods are specified
against functions on values, and the properties are proved about those
functions. Platform answers are parameters of the operations: installed
packages, running processes, usage events, the clock, device-owner status, the
SDK level, and whether this app is the default launcher.

## Model

Source paths are relative to the repository root.

| member | source | states |
|---|---|---|
| RewardManager.ExpiryDelayMs | app/src/main/java/com/talq2me/baerenlock/RewardManager.kt:66 | the expiry delay is minutes × 60000 ms whenever `minutes * 60` fits an Int; it is always whole seconds and a Long (the Int product wraps) |
| RewardManager.Persisted | app/src/main/java/com/talq2me/baerenlock/RewardManager.kt:85-90 | definition: the set saveAllowedApps writes, the whitelist without the reward grants (properties in PersistedExcludesGrants and SaveThenLoad) |
| RewardManager.Grant | app/src/main/java/com/talq2me/baerenlock/RewardManager.kt:42-49 | definition: grantAccess on values (properties in GrantEffect and SecondGrantSupersedes) |
| RewardManager.ExpireGrant | app/src/main/java/com/talq2me/baerenlock/RewardManager.kt:49-53 | definition: the posted expiry running (properties in GrantThenExpire and ExpireWellFormed) |
| RewardManager.GrantAll | app/src/main/java/com/talq2me/baerenlock/RewardManager.kt:335-350 | definition: grantRewardTime, one grant per installed reward package in order (properties in GrantAllSets, GrantAllPending and GrantAllNoneInstalled) |
| RewardManager.GrantEffect | app/src/main/java/com/talq2me/baerenlock/RewardManager.kt:42-49 | a grant adds the package to allowedApps and temporaryApps and nothing else; its expiry becomes the only pending one, and it targets a granted package |
| RewardManager.GrantThenExpire | app/src/main/java/com/talq2me/baerenlock/RewardManager.kt:49-53 | the expiry that follows a grant removes exactly that package from both sets and leaves nothing pending |
| RewardManager.SecondGrantSupersedes | app/src/main/java/com/talq2me/baerenlock/RewardManager.kt:47-49 | a second grant cancels the first grant's expiry, so once the only pending expiry has run the first package is still allowed and still temporary |
| RewardManager.PersistedExcludesGrants | app/src/main/java/com/talq2me/baerenlock/RewardManager.kt:85-90 | the saved whitelist is exactly allowedApps minus temporaryApps; a grant removes the package from it |
| RewardManager.GrantLosesWhitelistEntry | app/src/main/java/com/talq2me/baerenlock/RewardManager.kt:42-53 | a permanently whitelisted app that is granted and then expires has left the whitelist, in memory and in storage |
| RewardManager.ExpireWellFormed | app/src/main/java/com/talq2me/baerenlock/RewardManager.kt:49-53 | an expiry keeps the pending-slot invariant and removes only its own package; with nothing pending it changes nothing |
| RewardManager.GrantAllSets | app/src/main/java/com/talq2me/baerenlock/RewardManager.kt:335-350 | after grantRewardTime a package is allowed (or temporary) iff it already was, or it is an installed reward package |
| RewardManager.GrantAllPending | app/src/main/java/com/talq2me/baerenlock/RewardManager.kt:344-349 | the one pending expiry belongs to the last installed reward package, so the earlier grants never expire |
| RewardManager.GrantAllNoneInstalled | app/src/main/java/com/talq2me/baerenlock/RewardManager.kt:344-349 | with no reward package installed, grantRewardTime changes nothing |
| RewardManager.KillIffNotBackgroundAllowed | app/src/main/java/com/talq2me/baerenlock/RewardManager.kt:226-233 | the cleanup loop's two skip tests spare exactly the packages isBackgroundAppAllowed admits; the launcher, BaerenEd and Pokemon GO always survive |
| RewardManager.IsBackgroundAppAllowed | app/src/main/java/com/talq2me/baerenlock/RewardManager.kt:226-233 | definition: essential system packages, "com.android." and "android." prefixes, and the memory whitelist (tied to the loop by KillIffNotBackgroundAllowed) |
| RewardManager.ShouldKill | app/src/main/java/com/talq2me/baerenlock/RewardManager.kt:186-197 | definition: the cleanup loop's two skip tests in their order (tied to isBackgroundAppAllowed by KillIffNotBackgroundAllowed) |
| RewardManager.KillCount | app/src/main/java/com/talq2me/baerenlock/RewardManager.kt:183-211 | the kill count is at most the number of candidate processes, which is at most the number of processes |
| RewardManager.KillCountNone | app/src/main/java/com/talq2me/baerenlock/RewardManager.kt:184-197 | when every process is background-allowed, no process is a candidate and the count is 0 |
| RewardManager.KillUnauthorizedBackgroundAppsWithCount | app/src/main/java/com/talq2me/baerenlock/RewardManager.kt:167-224 | returns 0 and attempts nothing when aggressive cleanup is off or there is no process list; otherwise it attempts exactly the candidates in order and counts the kills that do not throw; every attempted package is one isBackgroundAppAllowed rejects |
| RewardManager.KillUnauthorizedBackgroundApps | app/src/main/java/com/talq2me/baerenlock/RewardManager.kt:116-165 | the same kill requests as the counting version |
| RewardManager.Lines | app/src/main/java/com/talq2me/baerenlock/RewardManager.kt:278 | Kotlin `lines()` yields at least one line, and no line holds a line break |
| RewardManager.ParsePendingReward | app/src/main/java/com/talq2me/baerenlock/RewardManager.kt:272-297 | a reward is accepted only from an existing file with at least two lines, minutes > 0 and a timestamp > 0 (each parsed from its own line), younger than one day |
| RewardManager.RewardFileRoundTrip | app/src/main/java/com/talq2me/baerenlock/RewardManager.kt:277-289 | the file "minutes\ntimestamp" is read back as the same pair while it is younger than a day |
| RewardManager.RewardFileRefused | app/src/main/java/com/talq2me/baerenlock/RewardManager.kt:275-279 | a missing file and a file without a line break yield no reward |
| RewardManager.RewardState.constructor | app/src/main/java/com/talq2me/baerenlock/RewardManager.kt:11-15 | the object starts with BaerenEd and the launcher allowed, no grant and no pending expiry |
| RewardManager.RewardState.IsAllowed | app/src/main/java/com/talq2me/baerenlock/RewardManager.kt:69-73 | definition: membership in allowedApps, grants included (used by GridFollowsGrants) |
| RewardManager.RewardState.SaveAllowedApps | app/src/main/java/com/talq2me/baerenlock/RewardManager.kt:85-90 | stores allowedApps minus temporaryApps |
| RewardManager.RewardState.GrantAccess | app/src/main/java/com/talq2me/baerenlock/RewardManager.kt:42-67 | the new state is `Grant` of the old one, and the saved whitelist is the new persisted set |
| RewardManager.RewardState.Expire | app/src/main/java/com/talq2me/baerenlock/RewardManager.kt:49-65 | the new state is `ExpireGrant` of the old one; it returns the revoked package and saves the whitelist, or does nothing when nothing is pending |
| RewardManager.RewardState.AddToWhitelist | app/src/main/java/com/talq2me/baerenlock/RewardManager.kt:75-78 | allowedApps gains the package, and the persisted set is saved |
| RewardManager.RewardState.RemoveFromWhitelist | app/src/main/java/com/talq2me/baerenlock/RewardManager.kt:80-83 | allowedApps loses the package, and the persisted set is saved |
| RewardManager.RewardState.LoadAllowedApps | app/src/main/java/com/talq2me/baerenlock/RewardManager.kt:92-105 | a stored set replaces allowedApps; with none stored the current set is kept; Pokemon GO is added when installed |
| RewardManager.RewardState.AddPokemonGoIfInstalled | app/src/main/java/com/talq2me/baerenlock/RewardManager.kt:235-242 | allowedApps gains Pokemon GO exactly when it is installed |
| RewardManager.RewardState.GetAllowedAppsList | app/src/main/java/com/talq2me/baerenlock/RewardManager.kt:244-248 | returns the whitelist including the grants: the persisted part plus the temporary part |
| RewardManager.RewardState.CheckForPendingRewardTime | app/src/main/java/com/talq2me/baerenlock/RewardManager.kt:253-267 | true iff the file holds a valid reward; in that case the file is deleted and every installed reward package is granted those minutes; otherwise nothing changes |
| RewardManager.SaveThenLoad | app/src/main/java/com/talq2me/baerenlock/RewardManager.kt:85-105 | reloading a saved whitelist never brings back a grant; without grants it gives back allowedApps; with nothing stored the current set is kept |
| RewardManager.LoadedWhitelist | app/src/main/java/com/talq2me/baerenlock/RewardManager.kt:92-105 | definition: the stored set, or the current one when none is stored, plus Pokemon GO when installed (used by LoadAllowedApps; properties in SaveThenLoad) |
| AppBlocker.Respond | app/src/main/java/com/talq2me/baerenlock/AppBlockerService.kt:79-89 | blocks iff the package is reward-eligible and no minutes are left; disables the app iff the device owner is active |
| AppBlocker.ShouldBlock | app/src/main/java/com/talq2me/baerenlock/AppBlockerService.kt:79 | definition: reward-eligible and no minutes left (the rule Respond and SamePredicateOnAllPaths are stated in) |
| AppBlocker.FirstForeground | app/src/main/java/com/talq2me/baerenlock/AppBlockerService.kt:150-153 | finds a process iff some process has foreground importance |
| AppBlocker.FirstForegroundIsFirst | app/src/main/java/com/talq2me/baerenlock/AppBlockerService.kt:152-172 | the process chosen is the first foreground one |
| AppBlocker.LastResumed | app/src/main/java/com/talq2me/baerenlock/AppBlockerService.kt:225-237 | definition: the package of the last ACTIVITY_RESUMED event (properties in LastResumedIsLast) |
| AppBlocker.LastResumedIsLast | app/src/main/java/com/talq2me/baerenlock/AppBlockerService.kt:225-237 | there is no package iff no event is ACTIVITY_RESUMED; otherwise the package is the one of the last ACTIVITY_RESUMED event |
| AppBlocker.EventDecision | app/src/main/java/com/talq2me/baerenlock/AppBlockerService.kt:65-95 | events that are not window-state, window-content or view-focused, and events with no package, take no action; any other event gets the common response |
| AppBlocker.IsWatchedEvent | app/src/main/java/com/talq2me/baerenlock/AppBlockerService.kt:70-74 | definition: window-state, window-content or view-focused events (used in EventDecision) |
| AppBlocker.SamePredicateOnAllPaths | app/src/main/java/com/talq2me/baerenlock/AppBlockerService.kt:79-89 | the event, foreground-process and usage-stats paths reach the same decision for the same package |
| AppBlocker.NothingBlockedWithMinutesLeft | app/src/main/java/com/talq2me/baerenlock/AppBlockerService.kt:79 | with minutes left, or for an app that is not reward-eligible, no path blocks |
| AppBlocker.AppBlockerService.constructor | app/src/main/java/com/talq2me/baerenlock/AppBlockerService.kt:25-50 | no last package, an empty blocked set, and the given stored set |
| AppBlocker.AppBlockerService.OnAccessibilityEvent | app/src/main/java/com/talq2me/baerenlock/AppBlockerService.kt:65-95 | the decision is `EventDecision`; a block disables the app only when it should, and records the package as the last one |
| AppBlocker.AppBlockerService.CheckForegroundApp | app/src/main/java/com/talq2me/baerenlock/AppBlockerService.kt:144-181 | only the first foreground process is judged; with no process list or no foreground process nothing happens |
| AppBlocker.AppBlockerService.CheckUsageStats | app/src/main/java/com/talq2me/baerenlock/AppBlockerService.kt:218-258 | the package of the last ACTIVITY_RESUMED event is judged; with none nothing happens |
| AppBlocker.AppBlockerService.LoadBlockedPackages | app/src/main/java/com/talq2me/baerenlock/AppBlockerService.kt:285-295 | the stored set (empty when absent) replaces the blocked set |
| AppBlocker.AppBlockerService.AddBlockedPackage | app/src/main/java/com/talq2me/baerenlock/AppBlockerService.kt:297-312 | exactly one package is added, the whole set is stored, and the app is disabled only under device owner |
| AppBlocker.AppBlockerService.RemoveBlockedPackage | app/src/main/java/com/talq2me/baerenlock/AppBlockerService.kt:314-329 | exactly one package is removed, the whole set is stored, and the app is re-enabled only under device owner |
| AppBlocker.AppBlockerService.GetBlockedPackages | app/src/main/java/com/talq2me/baerenlock/AppBlockerService.kt:331-333 | returns a copy equal to the blocked set |
| AppBlocker.AppBlockerService.ClearAllBlockedPackages | app/src/main/java/com/talq2me/baerenlock/AppBlockerService.kt:358-375 | under device owner every blocked app is re-enabled; then the set and its stored copy are emptied |
| AppMonitor.ShouldRelaunch | app/AppMonitorService.kt:20-35 | relaunch iff the event is window-state-changed, carries a package equal to rewardedPackage, and now > rewardEndTime strictly |
| AppMonitor.NoRewardNoRelaunch | app/AppMonitorService.kt:16-29 | with rewardedPackage null nothing is relaunched, and at exactly the end time nothing is relaunched |
| AppMonitor.RelaunchStaysDue | app/AppMonitorService.kt:28-33 | a due relaunch stays due at every later time; other event types never relaunch |
| Restrictions.Lookup | app/src/main/java/com/talq2me/baerenlock/RestrictionsManager.kt:24-26 | a flag never written reads as false |
| Restrictions.ResetTogglesFacts | app/src/main/java/com/talq2me/baerenlock/RestrictionsManager.kt:113-125 | a reset writes only "off", only to fixed keys that are on, and to every fixed key that is on |
| Restrictions.ResetToggles | app/src/main/java/com/talq2me/baerenlock/RestrictionsManager.kt:113-125 | definition: the writes resetAllRestrictions makes, in key order (properties in ResetTogglesFacts and ResetClearsAll) |
| Restrictions.ResetClearsAll | app/src/main/java/com/talq2me/baerenlock/RestrictionsManager.kt:113-125 | after a reset every one of the twenty keys reads false; other keys are unchanged |
| Restrictions.ProfileEffect | app/src/main/java/com/talq2me/baerenlock/RestrictionsManager.kt:127-157 | "strict", "moderate" and "lenient" turn on or off exactly their listed flags; any other name changes nothing |
| Restrictions.ProfilePrefs | app/src/main/java/com/talq2me/baerenlock/RestrictionsManager.kt:127-157 | definition: the table after applyRestrictionsFromProfile (properties in ProfileEffect) |
| Restrictions.RestrictionsManager.constructor | app/src/main/java/com/talq2me/baerenlock/RestrictionsManager.kt:16-22 | the table is the stored preferences |
| Restrictions.RestrictionsManager.IsRestrictionEnabled | app/src/main/java/com/talq2me/baerenlock/RestrictionsManager.kt:24-26 | false for an unset key, otherwise the stored flag |
| Restrictions.RestrictionsManager.EnableRestriction | app/src/main/java/com/talq2me/baerenlock/RestrictionsManager.kt:28-59 | the key reads true afterwards, even when it has no platform action; every other key is unchanged |
| Restrictions.RestrictionsManager.DisableRestriction | app/src/main/java/com/talq2me/baerenlock/RestrictionsManager.kt:61-92 | the key reads false afterwards; every other key is unchanged |
| Restrictions.RestrictionsManager.GetAllRestrictions | app/src/main/java/com/talq2me/baerenlock/RestrictionsManager.kt:94-111 | the result has exactly the twenty fixed keys, each mapped to its current flag |
| Restrictions.RestrictionsManager.ResetAllRestrictions | app/src/main/java/com/talq2me/baerenlock/RestrictionsManager.kt:113-125 | switches off, in order, every fixed key that is on |
| Restrictions.RestrictionsManager.ApplyRestrictionsFromProfile | app/src/main/java/com/talq2me/baerenlock/RestrictionsManager.kt:127-157 | the table becomes `ProfilePrefs` of the old table |
| Kiosk.ModeEffect | app/src/main/java/com/talq2me/baerenlock/KioskModeManager.kt:119-233 | the package list and the flags each of the four configurations leaves; no other flag changes; the launcher stays first in every list set |
| Kiosk.RewardAppAllowed | app/src/main/java/com/talq2me/baerenlock/KioskModeManager.kt:211-217 | reward-app mode allows exactly the launcher, the system UI and that app |
| Kiosk.CanUseKioskMode | app/src/main/java/com/talq2me/baerenlock/KioskModeManager.kt:34-36 | definition: device owner and SDK ≥ 21, the guard of every configuration |
| Kiosk.ModePackages | app/src/main/java/com/talq2me/baerenlock/KioskModeManager.kt:119-233 | definition: the lock-task list each configuration leaves (properties in ModeEffect and RewardAppAllowed) |
| Kiosk.ModePrefs | app/src/main/java/com/talq2me/baerenlock/KioskModeManager.kt:119-233 | definition: the restriction flags each configuration leaves (properties in ModeEffect) |
| Kiosk.ExitAfterConfigure | app/src/main/java/com/talq2me/baerenlock/KioskModeManager.kt:235-250 | leaving lock-task mode keeps only the launcher and the system UI; outside lock-task mode exiting changes nothing |
| Kiosk.ExitPackages | app/src/main/java/com/talq2me/baerenlock/KioskModeManager.kt:237-243 | definition: the list exitKioskMode leaves (properties in ExitAfterConfigure) |
| Kiosk.KioskModeManager.constructor | app/src/main/java/com/talq2me/baerenlock/KioskModeManager.kt:14-28 | the manager holds the given device-owner status, SDK level, lock-task state and package list |
| Kiosk.KioskModeManager.GetAllowedPackages | app/src/main/java/com/talq2me/baerenlock/KioskModeManager.kt:95-106 | the list is readable iff this app is device owner and SDK ≥ 23, and then equals the lock-task list; any other caller gets null |
| Kiosk.KioskModeManager.SetAllowedPackages | app/src/main/java/com/talq2me/baerenlock/KioskModeManager.kt:108-117 | the list is written iff this app is device owner and SDK ≥ 21; any other write throws, is caught, and leaves the list as it was |
| Kiosk.KioskModeManager.StartKioskMode | app/src/main/java/com/talq2me/baerenlock/KioskModeManager.kt:39-63 | the given list, or the launcher alone when none is passed, becomes the lock-task list iff kiosk mode can be used; otherwise nothing changes |
| Kiosk.KioskModeManager.Configure | app/src/main/java/com/talq2me/baerenlock/KioskModeManager.kt:119-233 | with device owner and SDK ≥ 21 the list and flags become those of the mode; otherwise nothing changes |
| Kiosk.KioskModeManager.ExitKioskMode | app/src/main/java/com/talq2me/baerenlock/KioskModeManager.kt:235-250 | resets the list to the launcher and the system UI only when in lock-task mode and device owner; otherwise nothing changes |
| Kiosk.KioskModeManager.IsInLockTaskMode | app/src/main/java/com/talq2me/baerenlock/KioskModeManager.kt:81-93 | definition: SDK ≥ 21 and the activity manager reports a lock-task mode other than NONE; the caught exception's `false` is folded into the lock-task input (used by ExitKioskMode) |
| PinPrompt.ButtonLabels | app/src/main/java/com/talq2me/baerenlock/PinPromptDialog.kt:44-49 | every key other than backspace and enter is a single digit |
| PinPrompt.NextInput | app/src/main/java/com/talq2me/baerenlock/PinPromptDialog.kt:72-87 | backspace drops the last character (no-op when empty); a digit is appended only below four; enter leaves the buffer |
| PinPrompt.NextInputValid | app/src/main/java/com/talq2me/baerenlock/PinPromptDialog.kt:13-86 | starting from a valid buffer, every key leaves at most four digits |
| PinPrompt.BackspaceUndoesDigit | app/src/main/java/com/talq2me/baerenlock/PinPromptDialog.kt:73-86 | backspace undoes a digit typed while there was room |
| PinPrompt.TypingPin | app/src/main/java/com/talq2me/baerenlock/PinPromptDialog.kt:84-86 | typing the digits of a PIN of at most four digits fills the buffer with that PIN |
| PinPrompt.PinPromptDialog.constructor | app/src/main/java/com/talq2me/baerenlock/PinPromptDialog.kt:8-104 | the buffer starts empty, with no error and four empty dots |
| PinPrompt.PinPromptDialog.Press | app/src/main/java/com/talq2me/baerenlock/PinPromptDialog.kt:70-89 | each key first clears the error. Enter on a short buffer shows "PIN must be 4 digits" and does not redraw. Enter on four characters dismisses the dialog and then delivers the buffer; nothing else delivers. The buffer stays at most four digits |
| PinPrompt.RenderDots | app/src/main/java/com/talq2me/baerenlock/PinPromptDialog.kt:50-60 | draws the four dots, dot i filled iff i < buffer length |
| PinPrompt.FilledCount | app/src/main/java/com/talq2me/baerenlock/PinPromptDialog.kt:52-54 | dot i is filled exactly when i is below the buffer length |
| PinPrompt.Dots | app/src/main/java/com/talq2me/baerenlock/PinPromptDialog.kt:50-60 | definition: the four dots, filled below the typed length (properties in FilledCount) |
| ChangePin.Answer | app/src/main/java/com/talq2me/baerenlock/ChangePinActivity.kt:34-60 | the stored PIN changes only on a confirmation equal to the accepted new PIN; that is also the only way to finish |
| ChangePin.AnswerKeepsInv | app/src/main/java/com/talq2me/baerenlock/ChangePinActivity.kt:34-60 | each answer keeps the invariant: a PIN awaiting confirmation has four characters, the stored PIN is untouched until finishing, and then it equals the new PIN |
| ChangePin.RunWritesConfirmedPin | app/src/main/java/com/talq2me/baerenlock/ChangePinActivity.kt:47-58 | over any run of answers, the activity finishes only after two consecutive answers agree on a four-character PIN, which is what is stored |
| ChangePin.TwoAnswers | app/src/main/java/com/talq2me/baerenlock/ChangePinActivity.kt:34-58 | the same four-character PIN twice stores it; two different answers store nothing and return to "Enter new PIN" with "PINs do not match" |
| ChangePin.ChangePinActivity.constructor | app/src/main/java/com/talq2me/baerenlock/ChangePinActivity.kt:14-32 | the new-PIN prompt is showing with an empty new PIN |
| ChangePin.Start | app/src/main/java/com/talq2me/baerenlock/ChangePinActivity.kt:14-35 | definition: onCreate shows the "Enter new PIN" dialog with an empty new PIN and no error (used by the constructor and RunWritesConfirmedPin) |
| ChangePin.ChangePinActivity.OnNewPin | app/src/main/java/com/talq2me/baerenlock/ChangePinActivity.kt:34-45 | the new state is `Answer` of the old state on the new-PIN prompt |
| ChangePin.ChangePinActivity.OnConfirmPin | app/src/main/java/com/talq2me/baerenlock/ChangePinActivity.kt:47-60 | the new state is `Answer` of the old state on the confirmation prompt |
| MainActivity.ThrottleWindow | app/src/main/java/com/talq2me/baerenlock/MainActivity.kt:46-60 | a forced check always runs; an unforced one runs iff at least an hour has passed since the recorded check |
| MainActivity.UpdateCheckDue | app/src/main/java/com/talq2me/baerenlock/MainActivity.kt:46-53 | definition: forced, or an hour since the recorded check (properties in ThrottleWindow) |
| MainActivity.UpdateRequired | app/src/main/java/com/talq2me/baerenlock/MainActivity.kt:86 | definition: a strictly newer version code, the Int widened to the installed Long |
| MainActivity.UpdatePrompt | app/src/main/java/com/talq2me/baerenlock/MainActivity.kt:62-127 | definition: the dialog a check leads to, given by the APK it offers |
| MainActivity.PromptOnlyWhenDueAndNewer | app/src/main/java/com/talq2me/baerenlock/MainActivity.kt:46-127 | the update dialog appears only for a check that is forced or an hour after the recorded one, and only for a strictly newer version; an equal or older version, or a failed fetch, never prompts; a forced check from an activity that finds a newer version always prompts |
| MainActivity.NoDownloadNeverMatches | app/src/main/java/com/talq2me/baerenlock/MainActivity.kt:164-171 | a matching id is never -1 and equals the tracked or the saved id; with neither set nothing matches |
| MainActivity.DownloadMatches | app/src/main/java/com/talq2me/baerenlock/MainActivity.kt:170-171 | definition: the id is the tracked or the saved download, neither being -1 |
| MainActivity.DownloadHandled | app/src/main/java/com/talq2me/baerenlock/MainActivity.kt:163-171 | definition: the receiver acts on a non-null broadcast whose id matches |
| MainActivity.AfterDownload | app/src/main/java/com/talq2me/baerenlock/MainActivity.kt:172-175 | definition: the ids after a broadcast; on a match both are cleared, the tracked one by handleDownloadedUpdate |
| MainActivity.HandledDownloadIsForgotten | app/src/main/java/com/talq2me/baerenlock/MainActivity.kt:163-177 | a handled broadcast was for the tracked or saved download; after it no broadcast is handled, a repeat of the same id included; an unhandled one changes nothing |
| MainActivity.RouteUrl | app/src/main/java/com/talq2me/baerenlock/MainActivity.kt:341-371 | the exact "intent://sendusagereport" link goes first, then readalong links, then other "intent://" links (reward or error); nothing else is intercepted |
| MainActivity.RewardLinkMinutes | app/src/main/java/com/talq2me/baerenlock/MainActivity.kt:356-363 | a reward link carries its "minutes" parameter unchanged, and defaults to 10 when it is missing or not a number |
| MainActivity.StoredSeconds | app/src/main/java/com/talq2me/baerenlock/MainActivity.kt:486 | the stored total is an Int; missing or non-numeric text reads as 0 |
| MainActivity.LogVisitAccumulates | app/src/main/java/com/talq2me/baerenlock/MainActivity.kt:484-488 | logging adds the duration to that page's total and leaves other pages alone; a page never logged starts at 0 |
| MainActivity.MinutesSeconds | app/src/main/java/com/talq2me/baerenlock/MainActivity.kt:510-523 | the minutes and seconds shown add back up to the seconds logged; seconds are below 60 for a non-negative total |
| MainActivity.ReportListsEveryEntry | app/src/main/java/com/talq2me/baerenlock/MainActivity.kt:504-527 | every page and every app gets its line in the report |
| MainActivity.Report | app/src/main/java/com/talq2me/baerenlock/MainActivity.kt:504-527 | definition: the report header, the web part and the app part, an empty part omitted (properties in ReportListsEveryEntry and AppendSection) |
| MainActivity.Section | app/src/main/java/com/talq2me/baerenlock/MainActivity.kt:504-525 | definition: a heading, the lines and a blank line, or nothing when there are no lines (used by Report) |
| MainActivity.AppendSection | app/src/main/java/com/talq2me/baerenlock/MainActivity.kt:507-515 | appends the heading, one line per entry in order, then a blank line |
| MainActivity.EntryLine | app/src/main/java/com/talq2me/baerenlock/MainActivity.kt:510-512 | definition: one report line, "  • name: Mm Ss\n" with truncating minutes and seconds (properties in MinutesSeconds and ReportListsEveryEntry) |
| MainActivity.WebEntries | app/src/main/java/com/talq2me/baerenlock/MainActivity.kt:509-511 | one web entry per logged page, in map order, with the seconds as logVisit reads them |
| MainActivity.Put | app/src/main/java/com/talq2me/baerenlock/MainActivity.kt:584 | map assignment: the new pair is present, names stay distinct, and other names keep their entries |
| MainActivity.CollectedFromCounted | app/src/main/java/com/talq2me/baerenlock/MainActivity.kt:567-586 | every collected entry comes from a counted record (not this app, not a system prefix, at least one second), with the value of the last counted record of that name |
| MainActivity.CountedAreCollected | app/src/main/java/com/talq2me/baerenlock/MainActivity.kt:567-586 | every counted record's name is collected |
| MainActivity.Counted | app/src/main/java/com/talq2me/baerenlock/MainActivity.kt:571-575 | definition: a usage record that is not this app, not a system package and has at least one second (properties in CollectedFromCounted and CountedAreCollected) |
| MainActivity.AppName | app/src/main/java/com/talq2me/baerenlock/MainActivity.kt:576-581 | definition: the application label, or the package name when the label lookup throws (used by Collected) |
| MainActivity.Seconds | app/src/main/java/com/talq2me/baerenlock/MainActivity.kt:568-583 | definition: the foreground milliseconds divided by 1000, truncated, then narrowed to a 32-bit Int (used by Collected) |
| MainActivity.TopUsageIsTop | app/src/main/java/com/talq2me/baerenlock/MainActivity.kt:592-595 | the top list has min(10, n) entries taken from the map, sorted by descending time; no entry left out has more time than one kept |
| MainActivity.TopUsage | app/src/main/java/com/talq2me/baerenlock/MainActivity.kt:592-595 | definition: sorted by descending time, first ten (properties in TopUsageIsTop) |
| MainActivity.GetAndroidAppUsageData | app/src/main/java/com/talq2me/baerenlock/MainActivity.kt:557-596 | the loop builds the collected map, and the result is its top ten |
| MainActivity.GridCell | app/src/main/java/com/talq2me/baerenlock/MainActivity.kt:632-651 | item i is at row i / columns and column i % columns (8 columns landscape, 5 portrait); row × columns + column gives i back |
| MainActivity.GridCellsDistinct | app/src/main/java/com/talq2me/baerenlock/MainActivity.kt:650-651 | no two items share a cell |
| MainActivity.Columns | app/src/main/java/com/talq2me/baerenlock/MainActivity.kt:632 | definition: 8 columns in landscape, 5 in portrait (used by GridCell) |
| MainActivity.PinAcceptedExactly | app/src/main/java/com/talq2me/baerenlock/MainActivity.kt:716-728 | the callback runs iff the entered PIN equals the stored one, "1234" when unset |
| MainActivity.PinAccepted | app/src/main/java/com/talq2me/baerenlock/MainActivity.kt:716-728 | definition: the entry equals the stored PIN, "1234" when unset (properties in PinAcceptedExactly) |
| MainActivity.MainActivityState.constructor | app/src/main/java/com/talq2me/baerenlock/MainActivity.kt:160-161 | the tracked download id starts at -1 |
| MainActivity.MainActivityState.CheckForUpdate | app/src/main/java/com/talq2me/baerenlock/MainActivity.kt:46-127 | the check proceeds iff it is due, and then the check time is recorded before anything else; the dialog is shown, offering the fetched APK, iff the check proceeded from an activity and the fetched version code is greater than the installed one |
| MainActivity.MainActivityState.OnDownloadComplete | app/src/main/java/com/talq2me/baerenlock/MainActivity.kt:163-177 | handled iff the id matches the tracked or the saved download; then the saved id is removed and the tracked id ends as -1; otherwise nothing changes |
| MainActivity.MainActivityState.HandleDownloadedUpdate | app/src/main/java/com/talq2me/baerenlock/MainActivity.kt:248-249 | the tracked download id becomes -1 |
| MainActivity.MainActivityState.LogVisit | app/src/main/java/com/talq2me/baerenlock/MainActivity.kt:484-488 | the page's entry becomes the text of the 32-bit sum of its stored total and the duration |
| MainActivity.MainActivityState.SendUsageReport | app/src/main/java/com/talq2me/baerenlock/MainActivity.kt:491-555 | the app part is getAndroidAppUsageData of the usage records (TopUsage of Collected); a blank email, or no web data and no app data, sends nothing and clears nothing; otherwise that report is sent and the web data is cleared |
| MainActivity.IsNullOrBlank | app/src/main/java/com/talq2me/baerenlock/MainActivity.kt:499 | definition: a null email, or one of whitespace only (used in SendUsageReport's contract) |
| Launcher.TopUpAdds | app/src/main/java/com/talq2me/baerenlock/LauncherActivity.kt:176-182 | a positive extra adds exactly its minutes while the sum fits an Int; an absent, zero or negative extra changes nothing |
| Launcher.TopUp | app/src/main/java/com/talq2me/baerenlock/LauncherActivity.kt:176-182 | definition: a positive "reward_minutes" extra added with 32-bit wrap-around (properties in TopUpAdds) |
| Launcher.PromptThrottle | app/src/main/java/com/talq2me/baerenlock/LauncherActivity.kt:276-279 | after a prompt the next is due iff more than 3,600,000 ms have passed; a reset to 0 makes it due at once |
| Launcher.PromptDue | app/src/main/java/com/talq2me/baerenlock/LauncherActivity.kt:276-279 | definition: never shown, or shown more than an hour ago (properties in PromptThrottle) |
| Launcher.AnyEqualsIgnoreCase | app/src/main/java/com/talq2me/baerenlock/LauncherActivity.kt:519 | true iff some part equals the expected name, ignoring case |
| Launcher.ServiceEnabledCases | app/src/main/java/com/talq2me/baerenlock/LauncherActivity.kt:516-520 | enabled when the entry stands anywhere in the ':'-separated list in any case; never for a null setting; never for a lone entry of another length |
| Launcher.ServiceEnabled | app/src/main/java/com/talq2me/baerenlock/LauncherActivity.kt:516-520 | definition: a non-null setting with the service among its ':'-separated entries, ignoring case (properties in ServiceEnabledCases) |
| Launcher.SelectedProfile | app/src/main/java/com/talq2me/baerenlock/LauncherActivity.kt:545 | item 0 is "A", any other item is "B" |
| Launcher.BackgroundCandidatesExactly | app/src/main/java/com/talq2me/baerenlock/LauncherActivity.kt:621-640 | with no profile (none chosen yet, or the provider read failed) there is no candidate; otherwise candidates are exactly the drawables with the profile's prefix and the "_orig" suffix; "A" and "B" never share one; every profile other than "A" uses "B" |
| Launcher.BackgroundCandidates | app/src/main/java/com/talq2me/baerenlock/LauncherActivity.kt:621-640 | definition: none without a profile, else the drawables with the profile's prefix and "_orig" suffix (properties in BackgroundCandidatesExactly) |
| Launcher.IsBackgroundFor | app/src/main/java/com/talq2me/baerenlock/LauncherActivity.kt:633-637 | definition: a drawable name with the profile's prefix and the "_orig" suffix (used by BackgroundCandidatesExactly) |
| Launcher.WithPrefix | app/src/main/java/com/talq2me/baerenlock/LauncherActivity.kt:635-637 | definition: the "_orig" drawables whose name starts with the prefix, in field order (used by BackgroundCandidates) |
| Launcher.GridFollowsGrants | app/src/main/java/com/talq2me/baerenlock/LauncherActivity.kt:444-448 | the grid shows exactly the allowed launchable apps; a granted app appears, and is gone after its expiry |
| Launcher.LauncherGrid | app/src/main/java/com/talq2me/baerenlock/LauncherActivity.kt:444-448 | definition: the launchable apps whose package is allowed, in package-manager order (properties in GridFollowsGrants) |
| Launcher.LauncherActivity.constructor | app/src/main/java/com/talq2me/baerenlock/LauncherActivity.kt:173-176 | holds the given intent extra, prompt time, PIN and profile |
| Launcher.LauncherActivity.TakeRewardMinutes | app/src/main/java/com/talq2me/baerenlock/LauncherActivity.kt:176-182 | the minutes grow by `TopUp`; the extra is removed only when it was positive |
| Launcher.LauncherActivity.EnsureDefaultLauncher | app/src/main/java/com/talq2me/baerenlock/LauncherActivity.kt:245-312 | without device owner, prompts iff not default and due, recording the time; when default, the time is reset to 0 |
| Launcher.LauncherActivity.PinPromptAccepts | app/src/main/java/com/talq2me/baerenlock/LauncherActivity.kt:495-514 | accepts iff the entry equals the stored PIN, "1234" when unset |
| Launcher.LauncherActivity.SaveNewPin | app/src/main/java/com/talq2me/baerenlock/LauncherActivity.kt:577-587 | writes iff the new PIN is non-empty and equals the confirmation |
| Launcher.LauncherActivity.ChangeProfile | app/src/main/java/com/talq2me/baerenlock/LauncherActivity.kt:539-554 | the chosen profile is written, and the launcher restarted, only when it differs from the current one |
| Launcher.PinChangeUnlocks | app/src/main/java/com/talq2me/baerenlock/LauncherActivity.kt:581-586 | after a successful change the prompt accepts exactly the new PIN |
| AppList.CountIn | app/src/main/java/com/talq2me/baerenlock/BlackListSettingsActivity.kt:67-69 | the count never exceeds the number of rows |
| AppList.CountInExtremes | app/src/main/java/com/talq2me/baerenlock/BlackListSettingsActivity.kt:67-69 | the count is 0 iff no row's package is in the set, and all rows iff every row's is |
| AppList.CountToggle | app/src/main/java/com/talq2me/baerenlock/BlackListSettingsActivity.kt:128-130 | adding or removing a package moves the count by that package's rows and no other |
| AppList.ToggleCount | app/src/main/java/com/talq2me/baerenlock/WhitelistSettingsActivity.kt:100 | with unique packages, checking an unchecked row raises the count by one and unchecking lowers it by one |
| AppList.SortUnique | app/src/main/java/com/talq2me/baerenlock/WhitelistSettingsActivity.kt:48-55 | sorting keeps packages unique |
| Blacklist.InfoOf | app/src/main/java/com/talq2me/baerenlock/BlackListSettingsActivity.kt:48-58 | the label is the launcher label, otherwise the application label, and the package name when the lookup throws |
| Blacklist.ListedAppsExactly | app/src/main/java/com/talq2me/baerenlock/BlackListSettingsActivity.kt:46-59 | rows are sorted by label; an app has a row iff it is installed, is not the launcher and has an applicationInfo |
| Blacklist.Shown | app/src/main/java/com/talq2me/baerenlock/BlackListSettingsActivity.kt:47 | definition: not the launcher itself and with an applicationInfo (used by ListedApps and ListedAppsExactly) |
| Blacklist.ListedApps | app/src/main/java/com/talq2me/baerenlock/BlackListSettingsActivity.kt:46-59 | definition: the shown packages' rows sorted by label (properties in ListedAppsExactly) |
| Blacklist.CheckEffect | app/src/main/java/com/talq2me/baerenlock/BlackListSettingsActivity.kt:101-126 | checking blacklists the package and removes it from the whitelist and the reward lists; unchecking only unblacklists it; other packages are unaffected |
| Blacklist.CheckThenUncheck | app/src/main/java/com/talq2me/baerenlock/BlackListSettingsActivity.kt:101-126 | check then uncheck does not restore the whitelist or reward entries |
| Blacklist.Check | app/src/main/java/com/talq2me/baerenlock/BlackListSettingsActivity.kt:101-126 | definition: the checkbox listener on the four lists (properties in CheckEffect and CheckThenUncheck) |
| Blacklist.BlacklistSettings.constructor | app/src/main/java/com/talq2me/baerenlock/BlackListSettingsActivity.kt:64-100 | one row per listed app, checked iff blacklisted, with the header count |
| Blacklist.BlacklistSettings.AddToBlacklist | app/src/main/java/com/talq2me/baerenlock/BlackListSettingsActivity.kt:150-156 | the stored set (empty when absent) gains the package |
| Blacklist.BlacklistSettings.RemoveFromBlacklist | app/src/main/java/com/talq2me/baerenlock/BlackListSettingsActivity.kt:158-164 | the stored set loses the package |
| Blacklist.BlacklistSettings.ClearAllBlacklist | app/src/main/java/com/talq2me/baerenlock/BlackListSettingsActivity.kt:166-170 | the key is removed, so the blacklist reads empty |
| Blacklist.BlacklistSettings.OnCheckedChanged | app/src/main/java/com/talq2me/baerenlock/BlackListSettingsActivity.kt:101-131 | the lists become `Check` of the old lists; the checkbox is updated; the header is recounted; the whitelist is saved only when it changed |
| Whitelist.RowOf | app/src/main/java/com/talq2me/baerenlock/WhitelistSettingsActivity.kt:49-55 | the row keeps the package, and its label is the package name when the label throws |
| Whitelist.DistinctUnique | app/src/main/java/com/talq2me/baerenlock/WhitelistSettingsActivity.kt:48 | distinctBy leaves no package twice, and keeps only rows of the input |
| Whitelist.DistinctKeepsFirst | app/src/main/java/com/talq2me/baerenlock/WhitelistSettingsActivity.kt:48 | distinctBy keeps the first row of each package |
| Whitelist.Distinct | app/src/main/java/com/talq2me/baerenlock/WhitelistSettingsActivity.kt:48 | definition: distinctBy on the package (properties in DistinctUnique and DistinctKeepsFirst) |
| Whitelist.NotOwn | app/src/main/java/com/talq2me/baerenlock/WhitelistSettingsActivity.kt:40-47 | definition: a row whose package is not the launcher (used by WhitelistRows and FilterThenDistinct) |
| Whitelist.FilterThenDistinct | app/src/main/java/com/talq2me/baerenlock/WhitelistSettingsActivity.kt:39-48 | dropping the launcher's rows and then deduplicating is deduplicating with the launcher already seen |
| Whitelist.WhitelistRowsSpec | app/src/main/java/com/talq2me/baerenlock/WhitelistSettingsActivity.kt:39-55 | rows are sorted by label, the launcher is excluded, no package appears twice, every row comes from an activity, and the first activity of every other package is listed |
| Whitelist.WhitelistRows | app/src/main/java/com/talq2me/baerenlock/WhitelistSettingsActivity.kt:39-55 | definition: the rows in screen order (properties in WhitelistRowsSpec) |
| Whitelist.HeaderFollowsToggle | app/src/main/java/com/talq2me/baerenlock/WhitelistSettingsActivity.kt:91-101 | each toggle moves the header count by exactly one |
| Whitelist.WhitelistSettings.constructor | app/src/main/java/com/talq2me/baerenlock/WhitelistSettingsActivity.kt:39-90 | each row is checked iff its package is in allowedApps, with the header count |
| Whitelist.WhitelistSettings.OnCheckedChanged | app/src/main/java/com/talq2me/baerenlock/WhitelistSettingsActivity.kt:91-101 | checking adds to allowedApps and unchecking removes; the set is saved; the header is recounted from the live set |
| Whitelist.WhitelistSettings.OnPause | app/src/main/java/com/talq2me/baerenlock/WhitelistSettingsActivity.kt:114-117 | the whitelist is saved |
| RewardApps.InitialSelection | app/src/main/java/com/talq2me/baerenlock/RewardAppsSettingsActivity.kt:54-60 | the selection is exactly the saved reward apps that have a row |
| RewardApps.SaveThenReload | app/src/main/java/com/talq2me/baerenlock/RewardAppsSettingsActivity.kt:25-59 | reloading a saved selection gives it back in full when all its packages have rows, and never adds anything |
| RewardApps.ToggleFlips | app/src/main/java/com/talq2me/baerenlock/RewardAppsSettingsActivity.kt:75-78 | a click flips only its own package, so two clicks restore the selection |
| RewardApps.Toggle | app/src/main/java/com/talq2me/baerenlock/RewardAppsSettingsActivity.kt:75-78 | definition: a click flips the package's membership (properties in ToggleFlips) |
| RewardApps.RewardAppsSettings.constructor | app/src/main/java/com/talq2me/baerenlock/RewardAppsSettingsActivity.kt:15-17 | empty lists and the stored reward apps |
| RewardApps.RewardAppsSettings.LoadApps | app/src/main/java/com/talq2me/baerenlock/RewardAppsSettingsActivity.kt:46-74 | labels and packages are rebuilt index-aligned with the activities; the selection is `InitialSelection`; each row is checked iff its package is selected |
| RewardApps.RewardAppsSettings.OnItemClick | app/src/main/java/com/talq2me/baerenlock/RewardAppsSettingsActivity.kt:75-78 | the selection becomes `Toggle` of the clicked package |
| RewardApps.RewardAppsSettings.OnBackPressed | app/src/main/java/com/talq2me/baerenlock/RewardAppsSettingsActivity.kt:23-29 | the selection is saved as "reward_apps" and the screen finishes |
| AppManagement.LoadedSpec | app/src/main/java/com/talq2me/baerenlock/AppManagementActivity.kt:116-141 | the loaded list is sorted by name and holds exactly the non-system apps, none marked as system |
| AppManagement.NonSystem | app/src/main/java/com/talq2me/baerenlock/AppManagementActivity.kt:127 | definition: the FLAG_SYSTEM bit is clear (used by Loaded and LoadedSpec) |
| AppManagement.EntryOf | app/src/main/java/com/talq2me/baerenlock/AppManagementActivity.kt:132 | definition: the app's name and package, marked non-system (used by Loaded and LoadedSpec) |
| AppManagement.Loaded | app/src/main/java/com/talq2me/baerenlock/AppManagementActivity.kt:116-149 | definition: the non-system launcher apps sorted by name (properties in LoadedSpec) |
| AppManagement.FilteredSpec | app/src/main/java/com/talq2me/baerenlock/AppManagementActivity.kt:151-158 | an empty query shows everything; otherwise exactly the apps whose name or package contains the query, ignoring case |
| AppManagement.Matches | app/src/main/java/com/talq2me/baerenlock/AppManagementActivity.kt:155 | definition: the name or the package contains the query, ignoring case (used by Filtered and FilteredSpec) |
| AppManagement.Filtered | app/src/main/java/com/talq2me/baerenlock/AppManagementActivity.kt:151-158 | definition: the search (properties in FilteredSpec, FilteredKeepsOrder and QueryCaseIgnored) |
| AppManagement.FilteredKeepsOrder | app/src/main/java/com/talq2me/baerenlock/AppManagementActivity.kt:155 | the search keeps the list's order |
| AppManagement.QueryCaseIgnored | app/src/main/java/com/talq2me/baerenlock/AppManagementActivity.kt:155 | the query's letter case does not matter |
| AppManagement.CreatedShowsNothing | app/src/main/java/com/talq2me/baerenlock/AppManagementActivity.kt:82-87 | as written, for every package query the list shows no row, although every installed non-system app is loaded |
| AppManagement.Created | app/src/main/java/com/talq2me/baerenlock/AppManagementActivity.kt:82-87 | definition: onCreate as written leaves the loaded apps in installedApps and an empty display (the Findings row; properties in CreatedShowsNothing) |
| AppManagement.CreatedShown | app/src/main/java/com/talq2me/baerenlock/AppManagementActivity.kt:139-141 | definition: onCreate as intended shows the loaded apps (properties in CreatedShownLists) |
| AppManagement.CreatedShownLists | app/src/main/java/com/talq2me/baerenlock/AppManagementActivity.kt:139-141 | once the loaded list is handed to the adapter, it shows exactly the loaded apps, the same as an empty search |
| AppManagement.ReadLateinit | app/src/main/java/com/talq2me/baerenlock/AppManagementActivity.kt:22 | reading a lateinit property fails exactly when it is unset, and otherwise gives its value |
| AppManagement.OnCreateAsWritten | app/src/main/java/com/talq2me/baerenlock/AppManagementActivity.kt:26-32 | as written, onCreate throws exactly when the lateinit packageManager is unset at line 32, because the line reads that property itself |
| AppManagement.OnCreateThrowsOnLaunch | app/src/main/java/com/talq2me/baerenlock/AppManagementActivity.kt:32 | on launch the property is unset, so onCreate as written always throws before any view is built |
| AppManagement.OnCreate | app/src/main/java/com/talq2me/baerenlock/AppManagementActivity.kt:26-87 | as intended, the property holds the platform's package manager and onCreate goes on to build and load the screen |
| AppManagement.AppManagementScreen.constructor | app/src/main/java/com/talq2me/baerenlock/AppManagementActivity.kt:82-87 | onCreate from the adapter on, with line 32 read as intended: apps loaded, nothing displayed |
| AppManagement.AppManagementScreen.LoadInstalledApps | app/src/main/java/com/talq2me/baerenlock/AppManagementActivity.kt:116-149 | the installed list is replaced (not appended to) by the sorted non-system apps; the displayed list is untouched |
| AppManagement.AppManagementScreen.UpdateApps | app/src/main/java/com/talq2me/baerenlock/AppManagementActivity.kt:168-174 | the adapter's list becomes the new one, and its count equals that list's size |
| AppManagement.AppManagementScreen.FilterApps | app/src/main/java/com/talq2me/baerenlock/AppManagementActivity.kt:151-158 | the displayed list is `Filtered` of the installed apps |
| AppManagement.AppManagementScreen.LoadAndShowInstalledApps | app/src/main/java/com/talq2me/baerenlock/AppManagementActivity.kt:139-141 | loading also displays the loaded apps |

## Left out

- Network, downloads, package installation, dialogs, toasts, notifications,
  icons and the web view are not modelled. What they would deliver is a
  parameter.
- Platform queries are parameters. These include running processes, usage
  events, installed packages and labels, the device-owner status, the SDK
  level, lock-task state and the clock.
- Handler and Looper timers, the background thread and the polling loops are
  not modelled. The posted expiry is the explicit `Expire` operation, and each
  polling check is one call.
- Calls into DevicePolicyManager.kt are not modelled, because that file is not
  part of this model. Only the app-disable requests the blocker issues are
  recorded, as `disabledApps`.
- The platform action that accompanies each restriction flag is not
  modelled; only the table is.
- Used but not defined in RewardManager.kt, so modelled as plain fields or
  left out:
  - `rewardEligibleApps` and `currentRewardMinutes` are fields;
  - `loadRewardMinutes`, `saveRewardMinutes`, `startRewardTimer` and
    `refreshRewardEligibleApps` have no behaviour of their own. The
    blacklist handler's call to `refreshRewardEligibleApps` is not modelled.
- Blacklist.BlacklistSettings.OnCheckedChanged: the reward-eligible set is
  left as the handler itself leaves it. The refresh that follows
  (BlackListSettingsActivity.kt:118) cannot be modelled without its
  definition.
- Blankness is ASCII-only: `IsNullOrBlank` counts the ASCII whitespace
  characters, while Kotlin's `isNullOrBlank` also counts Unicode spaces such
  as U+00A0.
- Number parsing accepts ASCII digits only. Kotlin's `toIntOrNull` and
  `toLongOrNull` also accept other Unicode decimal digits.
- Case folding is ASCII-only. Kotlin's `ignoreCase` also folds non-ASCII
  letters. Strings are sequences of characters, not UTF-16 units.
- Kotlin `sortedBy` and `sortBy` are modelled as a stable insertion sort on
  lexicographic character order. String comparison is not locale-aware.
- TopUsage: the sort is stable, so apps with equal time keep the map's order,
  but TopUsageIsTop states only which entries are kept and their descending
  order, not the order among ties.
- ParsePendingReward: a file whose read throws is the same as a missing one
  (`None`), as the catch at RewardManager.kt:292-295 returns null.
- The whitelist and app-management pipelines form each row before the
  own-package filter and the de-duplication. Both of those steps look only at
  the package name, which the row keeps.
- The order in which the preferences map iterates the logged pages is a
  parameter of SendUsageReport.
- Email validation and the choice of mail app are not modelled. The report
  is the result.
- The random choice of background image is not modelled. Only the
  candidates are.
- KioskModeManager always holds the application context. Its
  `startLockTask` and `stopLockTask` branches are therefore never reached, so
  `stopKioskMode` changes nothing and is not modelled. `getKioskModeStatus`
  only reports values the model already exposes.
- The time-window arithmetic of the usage queries is not modelled.
  `now - timestamp` in the reward file check is exact: a Long overflow there
  would need a timestamp near the Long limits.
- The outer catch of `killUnauthorizedBackgroundApps` and its counting
  version, which returns 0 when listing the processes itself throws
  (RewardManager.kt:162-164 and 220-223), is not modelled. A kill that
  throws is modelled.
- AppManagement.AppManagementScreen.constructor: models `onCreate` with line
  32 read as intended. As written, `onCreate` throws at that line (see
  Findings and `OnCreateAsWritten`), so nothing after it runs.
- Exception paths are not modelled: settings-provider write failures, and the
  try/catch around `loadInstalledApps` and the blocker's preference writes.
  The label lookups that throw are modelled.
- Ticking a reward-app row also makes the list view flip its own check mark.
  Only `selectedPackages` is modelled.
- `lateinit` views are not modelled. The header text and the row text of
  each settings screen are not modelled; the count in the header is.
- ChangePin: the activity's `step` field is never updated in the source.
  The model tracks which prompt is showing instead.
- AppMonitorService.kt belongs to another package (`com.talq2me.baeren`).
  It reads two companion fields that nothing in the shown code writes, so
  they are inputs.

## Findings

| source | as written | input that shows it | evidently intended | confidence | as-written member | corrected member |
|---|---|---|---|---|---|---|
| app/src/main/java/com/talq2me/baerenlock/AppManagementActivity.kt:32 | The activity declares its own `lateinit var packageManager` (line 22), which hides the platform's `getPackageManager()`. So `packageManager = this.packageManager` reads the unset property and throws `UninitializedPropertyAccessException`. | Any launch of the screen: the property is unset when line 32 runs. | The property takes the platform's package manager, and onCreate builds the screen. | high, not executed | AppManagement.OnCreateThrowsOnLaunch | AppManagement.OnCreate |
| app/src/main/java/com/talq2me/baerenlock/AppManagementActivity.kt:82-87 | The adapter copies `installedApps` into its own `displayApps` when it is built, while the list is still empty. `loadInstalledApps` and Refresh (lines 139-141) then replace `installedApps` and only call `notifyDataSetChanged`. | One non-system launcher app "Game" (com.example.game): `installedApps` holds 1 entry, but the list shows 0 rows until a search is run. This is reached only once line 32 (the row above) is corrected. | The loaded apps are shown, as an empty search would show them. | medium, not executed | AppManagement.CreatedShowsNothing | AppManagement.AppManagementScreen.LoadAndShowInstalledApps |
