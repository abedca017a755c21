/** RestrictionsManager: a table of twenty boolean restriction flags kept in
    the "device_restrictions" preferences, with enable, disable, reset and
    three preset profiles. The device-policy call that accompanies each of
    the twenty keys is not modelled. */
module Restrictions {

  const Camera: string := "disable_camera"
  const Microphone: string := "disable_microphone"
  const Bluetooth: string := "disable_bluetooth"
  const Wifi: string := "disable_wifi"
  const Location: string := "disable_location"
  const ScreenCapture: string := "disable_screen_capture"
  const StatusBar: string := "disable_status_bar"
  const Keyguard: string := "disable_keyguard"

  /** The fixed keys, in the order `getAllRestrictions` lists them. */
  const Keys: seq<string> := [
    Camera, Microphone, Bluetooth, Wifi, Location, ScreenCapture, StatusBar, Keyguard,
    "disable_data_roaming", "disable_usb_file_transfer", "disable_nfc",
    "disable_factory_reset", "disable_developer_options", "disable_unknown_sources",
    "disable_verify_apps", "disable_play_store", "disable_google_apps",
    "disable_voice_assistants", "disable_printing", "disable_safe_boot"
  ]

  /** One flag write: `on` is enable, otherwise disable. */
  datatype Toggle = Toggle(key: string, on: bool)

  /** `getBoolean(key, false)`: a flag never written reads as off. */
  function Lookup(p: map<string, bool>, key: string): (r: bool)
    ensures key !in p ==> !r
    ensures key in p ==> r == p[key]
  {
    key in p && p[key]
  }

  /** The table after the writes `ts`, in order. */
  function Apply(p: map<string, bool>, ts: seq<Toggle>): map<string, bool>
    decreases |ts|
  {
    if ts == [] then p
    else
      var last := ts[|ts| - 1];
      Apply(p, ts[..|ts| - 1])[last.key := last.on]
  }

  predicate Touches(ts: seq<Toggle>, key: string) {
    exists i :: 0 <= i < |ts| && ts[i].key == key
  }

  /** Writes applied one batch after another are the batches' writes in order. */
  lemma {:induction false} ApplyAppend(p: map<string, bool>, a: seq<Toggle>, b: seq<Toggle>)
    ensures Apply(p, a + b) == Apply(Apply(p, a), b)
    decreases |b|
  {
    if b == [] {
      assert a + b == a;
    } else {
      assert (a + b)[..|a + b| - 1] == a + b[..|b| - 1];
      ApplyAppend(p, a, b[..|b| - 1]);
    }
  }

  /** When every write sets the same value, each key written reads that value
      and every other key reads as before. */
  lemma {:induction false} ApplyUniform(p: map<string, bool>, ts: seq<Toggle>, v: bool, key: string)
    requires forall i :: 0 <= i < |ts| ==> ts[i].on == v
    ensures Lookup(Apply(p, ts), key) == if Touches(ts, key) then v else Lookup(p, key)
    ensures !Touches(ts, key) ==> (key in Apply(p, ts) <==> key in p)
    decreases |ts|
  {
    if ts != [] {
      var init := ts[..|ts| - 1];
      ApplyUniform(p, init, v, key);
      if Touches(ts, key) && ts[|ts| - 1].key != key {
        var i :| 0 <= i < |ts| && ts[i].key == key;
        assert init[i] == ts[i];
      }
      if Touches(init, key) {
        var i :| 0 <= i < |init| && init[i].key == key;
        assert ts[i] == init[i];
      }
    }
  }

  /** The writes `resetAllRestrictions` makes: each key of `keys` that is on
      in `p` is switched off, in order. */
  function ResetToggles(p: map<string, bool>, keys: seq<string>): seq<Toggle>
    decreases |keys|
  {
    if keys == [] then []
    else
      var last := keys[|keys| - 1];
      ResetToggles(p, keys[..|keys| - 1]) + (if Lookup(p, last) then [Toggle(last, false)] else [])
  }

  /** A reset writes only "off", only to listed keys that are on, and to
      every listed key that is on. */
  lemma {:induction false} ResetTogglesFacts(p: map<string, bool>, keys: seq<string>)
    ensures forall i :: 0 <= i < |ResetToggles(p, keys)| ==>
      !ResetToggles(p, keys)[i].on && ResetToggles(p, keys)[i].key in keys && Lookup(p, ResetToggles(p, keys)[i].key)
    ensures forall k :: k in keys && Lookup(p, k) ==> Touches(ResetToggles(p, keys), k)
    decreases |keys|
  {
    if keys != [] {
      var init := keys[..|keys| - 1];
      var last := keys[|keys| - 1];
      ResetTogglesFacts(p, init);
      var before := ResetToggles(p, init);
      var r := ResetToggles(p, keys);
      assert r == before + (if Lookup(p, last) then [Toggle(last, false)] else []);
      assert forall k :: k in init ==> k in keys;
      forall i | 0 <= i < |r| ensures !r[i].on && r[i].key in keys && Lookup(p, r[i].key) {
        if i < |before| {
          assert r[i] == before[i];
        } else {
          assert r[i] == Toggle(last, false);
        }
      }
      forall k | k in keys && Lookup(p, k) ensures Touches(r, k) {
        if k != last {
          assert k in init;
          var i :| 0 <= i < |before| && before[i].key == k;
          assert r[i] == before[i];
        } else {
          assert r[|r| - 1].key == k;
        }
      }
    }
  }

  /** One more key of a reset. */
  lemma ResetStep(p: map<string, bool>, keys: seq<string>, i: nat)
    requires i < |keys|
    ensures Apply(p, ResetToggles(p, keys[..i + 1])) ==
      if Lookup(p, keys[i]) then Apply(p, ResetToggles(p, keys[..i]))[keys[i] := false]
      else Apply(p, ResetToggles(p, keys[..i]))
  {
    assert keys[..i + 1][..i] == keys[..i];
    var before := ResetToggles(p, keys[..i]);
    if Lookup(p, keys[i]) {
      var r := before + [Toggle(keys[i], false)];
      assert r[..|r| - 1] == before;
    } else {
      assert before + [] == before;
    }
  }

  /** After a reset every fixed key reads off; flags outside the fixed keys
      are left as they were. */
  lemma ResetClearsAll(p: map<string, bool>, key: string)
    ensures !Lookup(Apply(p, ResetToggles(p, Keys)), key) <== key in Keys
    ensures key !in Keys ==> Lookup(Apply(p, ResetToggles(p, Keys)), key) == Lookup(p, key)
  {
    var ts := ResetToggles(p, Keys);
    ResetTogglesFacts(p, Keys);
    ApplyUniform(p, ts, false, key);
  }

  /** The table after `applyRestrictionsFromProfile(profile)`. */
  function ProfilePrefs(p: map<string, bool>, profile: string): map<string, bool> {
    if profile == "strict" then
      p[Camera := true][Microphone := true][Bluetooth := true][Location := true][ScreenCapture := true][StatusBar := true]
    else if profile == "moderate" then
      p[Camera := true][ScreenCapture := true][Location := true]
    else if profile == "lenient" then
      p[Camera := false][Microphone := false][Bluetooth := false][Wifi := false][Location := false]
    else p
  }

  /** What each profile does to the table: "strict" turns on camera,
      microphone, bluetooth, location, screen capture and status bar;
      "moderate" camera, screen capture and location; "lenient" turns off
      camera, microphone, bluetooth, wifi and location; any other name
      changes nothing. No other flag changes. */
  lemma ProfileEffect(p: map<string, bool>, profile: string, key: string)
    ensures var q := ProfilePrefs(p, profile);
      (profile == "strict" ==>
        Lookup(q, key) == (key in {Camera, Microphone, Bluetooth, Location, ScreenCapture, StatusBar} || Lookup(p, key))) &&
      (profile == "moderate" ==>
        Lookup(q, key) == (key in {Camera, ScreenCapture, Location} || Lookup(p, key))) &&
      (profile == "lenient" ==>
        Lookup(q, key) == (key !in {Camera, Microphone, Bluetooth, Wifi, Location} && Lookup(p, key))) &&
      (profile != "strict" && profile != "moderate" && profile != "lenient" ==> q == p)
  {
  }

  /** The singleton and its "device_restrictions" table. */
  class RestrictionsManager {
    var prefs: map<string, bool>

    constructor (stored: map<string, bool>)
      ensures prefs == stored
    {
      prefs := stored;
    }

    /** `isRestrictionEnabled`. */
    function IsRestrictionEnabled(key: string): (r: bool)
      reads this
      ensures key !in prefs ==> !r
      ensures key in prefs ==> r == prefs[key]
    {
      Lookup(prefs, key)
    }

    /** `enableRestriction`: the flag is stored as on, whether or not the
        key is one of the fixed twenty. */
    method EnableRestriction(key: string)
      modifies this
      ensures prefs == old(prefs)[key := true]
    {
      prefs := prefs[key := true];
    }

    /** `disableRestriction`. */
    method DisableRestriction(key: string)
      modifies this
      ensures prefs == old(prefs)[key := false]
    {
      prefs := prefs[key := false];
    }

    /** `getAllRestrictions`: exactly the fixed keys, each with its flag. */
    method GetAllRestrictions() returns (m: map<string, bool>)
      ensures forall k :: k in m <==> k in Keys
      ensures forall k :: k in m ==> m[k] == IsRestrictionEnabled(k)
    {
      m := map[];
      var i := 0;
      while i < |Keys|
        invariant 0 <= i <= |Keys|
        invariant forall k :: k in m <==> k in Keys[..i]
        invariant forall k :: k in m ==> m[k] == IsRestrictionEnabled(k)
      {
        assert Keys[..i + 1] == Keys[..i] + [Keys[i]];
        m := m[Keys[i] := IsRestrictionEnabled(Keys[i])];
        i := i + 1;
      }
      assert Keys[..i] == Keys;
    }

    /** `resetAllRestrictions`: every fixed key that is on is switched off,
        in the fixed order. */
    method ResetAllRestrictions()
      modifies this
      ensures prefs == Apply(old(prefs), ResetToggles(old(prefs), Keys))
    {
      var all := GetAllRestrictions();
      var i := 0;
      while i < |Keys|
        invariant 0 <= i <= |Keys|
        invariant forall k :: k in all ==> all[k] == Lookup(old(prefs), k)
        invariant prefs == Apply(old(prefs), ResetToggles(old(prefs), Keys[..i]))
      {
        var key := Keys[i];
        assert key in Keys;
        assert key in all;
        ResetStep(old(prefs), Keys, i);
        if all[key] {
          DisableRestriction(key);
        }
        i := i + 1;
      }
      assert Keys[..i] == Keys;
    }

    /** `applyRestrictionsFromProfile`. */
    method ApplyRestrictionsFromProfile(profile: string)
      modifies this
      ensures prefs == ProfilePrefs(old(prefs), profile)
    {
      if profile == "strict" {
        EnableRestriction(Camera);
        EnableRestriction(Microphone);
        EnableRestriction(Bluetooth);
        EnableRestriction(Location);
        EnableRestriction(ScreenCapture);
        EnableRestriction(StatusBar);
      } else if profile == "moderate" {
        EnableRestriction(Camera);
        EnableRestriction(ScreenCapture);
        EnableRestriction(Location);
      } else if profile == "lenient" {
        DisableRestriction(Camera);
        DisableRestriction(Microphone);
        DisableRestriction(Bluetooth);
        DisableRestriction(Wifi);
        DisableRestriction(Location);
      }
    }
  }
}
