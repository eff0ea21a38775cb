/**
 What a successful run leaves in the running configuration
 (internal/profiles/manager.go), option by option, in the profile's own fields.
 */
module ProfileContents {
  import opened Wrappers
  import opened Uci
  import opened Radios
  import opened Models
  import opened Sorting
  import opened Profiles
  import opened ProfileTheorems
  import B = Batman
  import Strings = Text

  // ----- which radios -----

  // r is the first of the devices of a band, in the order of their names.
  ghost predicate FirstOfBand(w: Package, band: string, r: string) {
    && r in w && w[r].kind == "wifi-device" && Text(w[r], "band") == band
    && forall n :: n in w && w[n].kind == "wifi-device" && Text(w[n], "band") == band && n != r ==> LexLess(r, n)
  }

  lemma LowestIsFirst(w: Package, band: string)
    ensures OfBand(w, band) != {} ==> FirstOfBand(w, band, Lowest(w, band))
    ensures OfBand(w, band) == {} <==> forall n :: n in w && w[n].kind == "wifi-device" ==> Text(w[n], "band") != band
  {
    var names := OfBand(w, band);
    forall n ensures n in names <==> n in w && w[n].kind == "wifi-device" && Text(w[n], "band") == band {
    }
    if names != {} {
      assert IsLowest(Lowest(w, band), names);
    }
  }

  // The AP's radio: the profile's own, or the first of its band, or the node's.
  lemma ApRadioIs(c: Config, profile: Profile, w: Package)
    ensures profile.radio != "" ==> ApRadio(c, profile, w) == Some(profile.radio)
    ensures profile.radio == "" && profile.band == "" ==> ApRadio(c, profile, w) == Some(c.radio)
    ensures profile.radio == "" && profile.band != "" ==>
              match ApRadio(c, profile, w)
              case Some(r) => FirstOfBand(w, profile.band, r)
              case None => forall n :: n in w && w[n].kind == "wifi-device" ==> Text(w[n], "band") != profile.band
  {
    LowestIsFirst(w, profile.band);
  }

  // The mesh's: the node's own, or the first of the mesh band, or the AP's.
  lemma MeshRadioIs(c: Config, w: Package, apRadio: string)
    ensures var r := MeshRadio(c, w, apRadio);
      if c.meshRadio != "" then r == c.meshRadio
      else if c.found.mesh && (exists n :: n in w && w[n].kind == "wifi-device" && Text(w[n], "band") == c.meshBand)
      then FirstOfBand(w, c.meshBand, r)
      else r == apRadio
  {
    LowestIsFirst(w, c.meshBand);
  }

  // The bands asked for: the profile's, or the mesh band.
  function BandsAsked(c: Config, profile: Profile): seq<string> {
    if |profile.apBands| > 0 then profile.apBands else [c.meshBand]
  }

  // Named for a band asked for, on the first radio of that band.
  ghost predicate AskedFor(c: Config, profile: Profile, w: Package, t: Target) {
    exists b :: b in BandsAsked(c, profile) && t.section == "omm_ap_" + c.lower(Strings.TrimSpace(b))
             && FirstOfBand(w, c.lower(Strings.TrimSpace(b)), t.radio)
  }

  lemma ServesIsAsked(c: Config, profile: Profile, w: Package, t: Target)
    requires Serves(c.lower, w, ApBands(c, profile), t) && t.radio != ""
    ensures AskedFor(c, profile, w, t)
  {
    var b :| b in ApBands(c, profile) && Cleaned(c.lower, b) != ""
          && t == Target(SecondaryAP(Cleaned(c.lower, b)), Lowest(w, Cleaned(c.lower, b)));
    LowestIsFirst(w, Cleaned(c.lower, b));
    assert "omm_ap_" == AP + "_";
  }

  // The first AP is omm_ap on the AP's radio, and every other is asked for; it is
  // alone if the radios cannot be read.
  lemma TargetsAre(c: Config, profile: Profile, w: Package, apRadio: string)
    requires ApTargets(c, profile, w, apRadio) != []
    ensures var ts := ApTargets(c, profile, w, apRadio);
      && ts[0] == Target("omm_ap", apRadio)
      && (forall i :: 0 < i < |ts| ==> AskedFor(c, profile, w, ts[i]))
      && (!c.found.aps ==> |ts| == 1)
  {
    var ts := ApTargets(c, profile, w, apRadio);
    TargetsShape(c.lower, w, ApBands(c, profile), apRadio);
    forall i | 0 < i < |ts| ensures AskedFor(c, profile, w, ts[i]) {
      ServesIsAsked(c, profile, w, ts[i]);
    }
  }

  // Each band asked for that has a radio is served, if the radios can be read.
  lemma BandIsServed(c: Config, profile: Profile, w: Package, apRadio: string, b: string)
    requires ApTargets(c, profile, w, apRadio) != [] && c.found.aps && b in BandsAsked(c, profile)
    requires c.lower(Strings.TrimSpace(b)) != "" && "" !in w
    requires exists n :: n in w && w[n].kind == "wifi-device" && Text(w[n], "band") == c.lower(Strings.TrimSpace(b))
    ensures exists t :: t in ApTargets(c, profile, w, apRadio) && FirstOfBand(w, c.lower(Strings.TrimSpace(b)), t.radio)
  {
    var band := Cleaned(c.lower, b);
    LowestIsFirst(w, band);
    TargetsCover(c.lower, w, ApBands(c, profile), apRadio, b);
    var t :| t in ApTargets(c, profile, w, apRadio) && t.radio == Lowest(w, band);
  }

  // ----- the client APs -----

  // The AP carries the network the profile names, with its own key or open.
  predicate Secured(s: Section, cipher: string, key: string) {
    if key == "" then Text(s, "encryption") == "none"
    else Text(s, "encryption") == cipher && Text(s, "key") == key
  }

  lemma ApValuesAre(profile: Profile, radio: string)
    ensures var values := ApValues(profile, radio);
      var key := if profile.apSSID != "" then profile.apKey else profile.meshKey;
      && "ssid" in values && values["ssid"] == (if profile.apSSID != "" then profile.apSSID else profile.meshSSID)
      && "encryption" in values && values["encryption"] == (if key != "" then "psk2" else "none")
      && (key != "" ==> "key" in values && values["key"] == key)
  {
  }

  lemma ApSecured(plan: Plan, profile: Profile, fallback: bool, degrade: bool, w: Package, t: Target)
    requires fallback ==> MESH in Touched(plan.mesh)
    requires t.section != MESH && t.section in WirelessAfter(plan, fallback, degrade, w)
    requires OptionsSet(plan.aps, t.section) == Scalars(ApValues(profile, t.radio))
    ensures var s := WirelessAfter(plan, fallback, degrade, w)[t.section];
      && Text(s, "ssid") == (if profile.apSSID != "" then profile.apSSID else profile.meshSSID)
      && Secured(s, "psk2", if profile.apSSID != "" then profile.apKey else profile.meshKey)
  {
    ApValuesAre(profile, t.radio);
    ApOptionAfter(plan, profile, fallback, degrade, w, t, "ssid");
    ApOptionAfter(plan, profile, fallback, degrade, w, t, "encryption");
    if "key" in ApValues(profile, t.radio) {
      ApOptionAfter(plan, profile, fallback, degrade, w, t, "key");
    }
  }

  // Main result. After a successful run every client AP is running with the SSID
  // and under the key of the profile: its own when it has an AP SSID, the mesh's
  // otherwise; WPA2 when there is a key, open when there is none.
  lemma ApsAreSecured(c: Config, profile: Profile, l: Layers, i: nat)
    requires ApRadio(c, profile, l.staged.wireless).Some?
    requires profile.apSSID != "" || profile.meshSSID != ""
    requires i < |ApTargets(c, profile, Edited(l.staged.wireless, PlanFor(c, profile, l.staged.wireless).mesh),
                            ApRadio(c, profile, l.staged.wireless).value)|
    ensures var w := l.staged.wireless;
      var t := ApTargets(c, profile, Edited(w, PlanFor(c, profile, w).mesh), ApRadio(c, profile, w).value)[i];
      var f := Final(c, profile, l).running.wireless;
      && t.section in f
      && Text(f[t.section], "ssid") == (if profile.apSSID != "" then profile.apSSID else profile.meshSSID)
      && Secured(f[t.section], "psk2", if profile.apSSID != "" then profile.apKey else profile.meshKey)
  {
    var w := l.staged.wireless;
    var apRadio, plan := ApRadio(c, profile, w).value, PlanFor(c, profile, w);
    var q := Edited(w, plan.mesh);
    var ts := ApTargets(c, profile, q, apRadio);
    ApsConverge(c, profile, l);
    assert ts[i] in ts;
    ApTargetNames(c, profile, q, apRadio);
    ApSet(profile, c.lower, q, ApBands(c, profile), apRadio, i);
    PlanShape(c, profile, w);
    ApSecured(plan, profile, c.FallsBack(profile), c.Degrades(profile), w, ts[i]);
  }

  // ----- the mesh -----

  lemma MeshSecurityValues(c: Config, profile: Profile, radio: string)
    ensures var values := MeshValues(c, profile, radio);
      && "device" in values && values["device"] == radio
      && "encryption" in values && values["encryption"] == (if profile.meshKey != "" then "sae" else "none")
      && (profile.meshKey != "" ==> "key" in values && values["key"] == profile.meshKey)
  {
  }

  // Main result. A mesh that stays is running on the mesh's radio, under SAE with
  // the mesh key, or open when there is none.
  lemma MeshIsSecured(c: Config, profile: Profile, l: Layers)
    requires ApRadio(c, profile, l.staged.wireless).Some? && profile.meshSSID != "" && !c.Degrades(profile)
    ensures var f := Final(c, profile, l).running.wireless;
      && "omm_mesh" in f && Secured(f["omm_mesh"], "sae", profile.meshKey)
      && Text(f["omm_mesh"], "device") == MeshRadio(c, l.staged.wireless, ApRadio(c, profile, l.staged.wireless).value)
  {
    var w := l.staged.wireless;
    MeshSecurityValues(c, profile, MeshRadio(c, w, ApRadio(c, profile, w).value));
    MeshOptionAfter(c, profile, w, "device");
    MeshOptionAfter(c, profile, w, "encryption");
    if profile.meshKey != "" {
      MeshOptionAfter(c, profile, w, "key");
    }
  }

  // ----- the radios and the node -----

  lemma PinnedLast(es: seq<Edit>, radio: string, option: string, value: string)
    requires value != ""
    ensures OptionsSet(es + Pins(radio, option, value), radio) == OptionsSet(es, radio)[option := Scalar(value)]
  {
    var all := es + Pins(radio, option, value);
    assert all[..|all| - 1] == es && all[|all| - 1] == Pins(radio, option, value)[0];
    assert OptionsSet(es, radio) + Scalars(map[option := value]) == OptionsSet(es, radio)[option := Scalar(value)];
  }

  lemma PinsSet(c: Config, profile: Profile, radio: string)
    requires profile.meshSSID != ""
    ensures var set_ := OptionsSet(MeshEdits(c, profile, radio), radio);
      && (profile.meshChannel != "" ==> "channel" in set_ && set_["channel"] == Scalar(profile.meshChannel))
      && (profile.meshHTMode != "" ==> "htmode" in set_ && set_["htmode"] == Scalar(profile.meshHTMode))
  {
    var first := [MeshEdit(c, profile, radio)];
    var second := first + Pins(radio, "channel", profile.meshChannel);
    if profile.meshChannel != "" {
      PinnedLast(first, radio, "channel", profile.meshChannel);
    } else {
      assert second == first;
    }
    if profile.meshHTMode != "" {
      PinnedLast(second, radio, "htmode", profile.meshHTMode);
    } else {
      assert second + Pins(radio, "htmode", profile.meshHTMode) == second;
    }
  }

  lemma FinalParts(c: Config, profile: Profile, l: Layers)
    requires ApRadio(c, profile, l.staged.wireless).Some?
    ensures var f, plan := Final(c, profile, l).running, PlanFor(c, profile, l.staged.wireless);
      && f.wireless == WirelessAfter(plan, c.FallsBack(profile), c.Degrades(profile), l.staged.wireless)
      && f.system == Named(profile, l.staged.system)
  {
  }

  lemma ApEditsReserved(c: Config, profile: Profile, w: Package)
    requires ApRadio(c, profile, w).Some?
    ensures forall n :: n in Touched(PlanFor(c, profile, w).aps) ==> Reserved(n)
  {
    var apRadio := ApRadio(c, profile, w).value;
    var q := Edited(w, MeshEdits(c, profile, MeshRadio(c, w, apRadio)));
    ApTargetNames(c, profile, q, apRadio);
    ApsTouch(profile, ApTargets(c, profile, q, apRadio));
  }

  lemma RadioIsOn(plan: Plan, fallback: bool, degrade: bool, w: Package, r: string)
    requires !Reserved(r) && r in plan.radios && r in Pruned(plan, w) && (fallback ==> MESH in Touched(plan.mesh))
    ensures var f := WirelessAfter(plan, fallback, degrade, w); r in f && Text(f[r], "disabled") == "0"
  {
    RadioStays(plan, fallback, degrade, w, r);
    OptionAfter(plan, fallback, degrade, w, r, "disabled");
  }

  lemma MeshRadioIsPinned(c: Config, profile: Profile, w: Package, r: string, option: string, value: string)
    requires ApRadio(c, profile, w).Some? && profile.meshSSID != "" && r == MeshRadio(c, w, ApRadio(c, profile, w).value)
    requires !Reserved(r) && r in Pruned(PlanFor(c, profile, w), w) && value != ""
    requires (option == "channel" && value == profile.meshChannel) || (option == "htmode" && value == profile.meshHTMode)
    ensures var f := WirelessAfter(PlanFor(c, profile, w), c.FallsBack(profile), c.Degrades(profile), w);
      r in f && Text(f[r], option) == value
  {
    var plan := PlanFor(c, profile, w);
    PlanShape(c, profile, w);
    ApEditsReserved(c, profile, w);
    RadioIsNoAp(plan, r);
    PinsSet(c, profile, r);
    PinStays(plan, c.FallsBack(profile), c.Degrades(profile), w, r, option, value);
  }

  lemma PinStays(plan: Plan, fallback: bool, degrade: bool, w: Package, r: string, option: string, value: string)
    requires !Reserved(r) && r in Pruned(plan, w) && (fallback ==> MESH in Touched(plan.mesh)) && option != "disabled"
    requires OptionsSet(plan.aps, r) == map[]
    requires option in OptionsSet(plan.mesh, r) && OptionsSet(plan.mesh, r)[option] == Scalar(value)
    ensures var f := WirelessAfter(plan, fallback, degrade, w); r in f && Text(f[r], option) == value
  {
    RadioStays(plan, fallback, degrade, w, r);
    assert Written(plan, fallback, r, option) == Some(Scalar(value));
    OptionAfter(plan, fallback, degrade, w, r, option);
  }

  // The mesh's radio is pinned to the Home's channel and width, and every radio
  // in use is on.
  lemma RadiosAreSet(c: Config, profile: Profile, l: Layers, r: string)
    requires Tame(c, profile, l.staged.wireless) && CanAuthor(c, profile, l)
    requires r in PlanFor(c, profile, l.staged.wireless).radios
    ensures var f := Final(c, profile, l).running.wireless;
      && r in f && Text(f[r], "disabled") == "0"
      && (profile.meshSSID != "" && r == MeshRadio(c, l.staged.wireless, ApRadio(c, profile, l.staged.wireless).value) ==>
            && (profile.meshChannel != "" ==> Text(f[r], "channel") == profile.meshChannel)
            && (profile.meshHTMode != "" ==> Text(f[r], "htmode") == profile.meshHTMode))
  {
    var w := l.staged.wireless;
    FinalParts(c, profile, l);
    TameRadios(c, profile, w);
    PlanShape(c, profile, w);
    RadioIsOn(PlanFor(c, profile, w), c.FallsBack(profile), c.Degrades(profile), w, r);
    if profile.meshSSID != "" && r == MeshRadio(c, w, ApRadio(c, profile, w).value) {
      if profile.meshChannel != "" {
        MeshRadioIsPinned(c, profile, w, r, "channel", profile.meshChannel);
      }
      if profile.meshHTMode != "" {
        MeshRadioIsPinned(c, profile, w, r, "htmode", profile.meshHTMode);
      }
    }
  }

  lemma RadioStays(plan: Plan, fallback: bool, degrade: bool, w: Package, r: string)
    requires !Reserved(r) && r in Pruned(plan, w) && (fallback ==> MESH in Touched(plan.mesh))
    ensures r in WirelessAfter(plan, fallback, degrade, w)
  {
    EditedTwiceAt(plan, w, r);
    AfterAt(plan, fallback, degrade, w, r);
  }

  lemma RadioIsNoAp(plan: Plan, r: string)
    requires !Reserved(r) && Bandless(plan.aps) && (forall n :: n in Touched(plan.aps) ==> Reserved(n))
    ensures OptionsSet(plan.aps, r) == map[]
  {
    NothingSet(plan.aps, r);
  }

  // The radios in use: the mesh's and the APs'.
  lemma RadiosInUse(c: Config, profile: Profile, w: Package)
    requires ApRadio(c, profile, w).Some?
    ensures var apRadio := ApRadio(c, profile, w).value;
      var plan := PlanFor(c, profile, w);
      && (profile.meshSSID != "" ==> MeshRadio(c, w, apRadio) in plan.radios)
      && (forall t :: t in ApTargets(c, profile, Edited(w, plan.mesh), apRadio) ==> t.radio in plan.radios)
  {
  }

  lemma NamedIs(profile: Profile, p: Package)
    ensures if profile.nodeName == "" then Named(profile, p) == p
            else "@system[0]" in Named(profile, p) && Text(Named(profile, p)["@system[0]"], "hostname") == profile.nodeName
  {
  }

  // The node has the name the profile gives it, and keeps its own otherwise.
  lemma NodeIsNamed(c: Config, profile: Profile, l: Layers)
    requires ApRadio(c, profile, l.staged.wireless).Some?
    ensures var p := Final(c, profile, l).running.system;
      if profile.nodeName == "" then p == l.staged.system
      else "@system[0]" in p && Text(p["@system[0]"], "hostname") == profile.nodeName
  {
    FinalParts(c, profile, l);
    NamedIs(profile, l.staged.system);
  }

  // ----- the recorded state and the mesh's network -----

  // Every attempt finds the interface down.
  ghost predicate NeverUp(probe: Inspector, attempts: int) {
    probe.Some? && forall k: nat :: k <= attempts ==> probe.value(k) == Down
  }

  lemma OutcomeIs(c: Config, profile: Profile)
    ensures Outcome(c, profile) ==
      if profile.meshSSID == "" then BackhaulState(ModeMultiAP, false)
      else if !c.meshStandby && NeverUp(c.meshProbe, c.attempts) then BackhaulState(ModeMultiAP, true)
      else BackhaulState(Mode80211s, false)
  {
  }

  // The mesh is on batman-adv's hard interface exactly when batman-adv is enabled
  // and not found down at every attempt, and on lan otherwise.
  lemma MeshNetworkIs(c: Config, profile: Profile, l: Layers)
    requires ApRadio(c, profile, l.staged.wireless).Some? && profile.meshSSID != "" && !c.Degrades(profile)
    ensures var f := Final(c, profile, l).running.wireless;
      && "omm_mesh" in f
      && Text(f["omm_mesh"], "network")
         == (if c.batmanEnable && !NeverUp(c.batmanProbe, c.attempts) then c.batman.iface + "_mesh" else "lan")
  {
    FinalParts(c, profile, l);
    MeshTexts(c, profile, l.staged.wireless, Final(c, profile, l).running.wireless);
  }

  lemma DefaultsAre(c: Config)
    ensures var d := c.WithDefaults();
      && d.radio == (if c.radio == "" then "radio0" else c.radio)
      && d.meshBand == (if c.meshBand == "" then "2g" else c.meshBand)
      && d.attempts == (if c.attempts == 0 then 8 else c.attempts)
      && d.batman.iface == (if c.batman.iface == "" then "bat0" else c.batman.iface)
      && d.batman.routingAlgo == (if c.batman.routingAlgo == "" then "BATMAN_IV" else c.batman.routingAlgo)
      && d.meshRadio == c.meshRadio && d.batmanEnable == c.batmanEnable && d.meshStandby == c.meshStandby
      && d.batman.wiredPorts == c.batman.wiredPorts && d.batman.lanDevice == c.batman.lanDevice
  {
  }

  // ----- what a run leaves alone -----

  lemma {:induction false} NoneSets(es: seq<Edit>, n: string, option: string)
    requires forall e :: e in es && e.section == n ==> option !in e.values
    ensures option !in OptionsSet(es, n)
  {
    if es != [] {
      var init, e := es[..|es| - 1], es[|es| - 1];
      assert es == init + [e];
      NoneSets(init, n, option);
    }
  }

  lemma UnroutedSetsNoState(c: Config, profile: Profile, radio: string)
    requires !c.Routed(profile)
    ensures "disabled" !in OptionsSet(MeshEdits(c, profile, radio), MESH)
  {
    assert "disabled" !in MeshValues(c, profile, radio);
    NoneSets(MeshEdits(c, profile, radio), MESH, "disabled");
  }

  // Without batman-adv whether the mesh is on is the failover's: a run leaves it
  // as it was.
  lemma MeshStateUntouched(c: Config, profile: Profile, l: Layers)
    requires Tame(c, profile, l.staged.wireless) && ApRadio(c, profile, l.staged.wireless).Some?
    requires profile.meshSSID != "" && !c.Routed(profile) && !c.Degrades(profile)
    ensures var w, f := l.staged.wireless, Final(c, profile, l).running.wireless;
      && "omm_mesh" in f
      && ("disabled" in f["omm_mesh"].opts <==> "disabled" in At(w, "omm_mesh").opts)
      && ("disabled" in f["omm_mesh"].opts ==> f["omm_mesh"].opts["disabled"] == At(w, "omm_mesh").opts["disabled"])
  {
    var w := l.staged.wireless;
    var plan := PlanFor(c, profile, w);
    FinalParts(c, profile, l);
    PlanShape(c, profile, w);
    TameRadios(c, profile, w);
    MeshAfter(c, profile, w);
    AfterAt(plan, c.FallsBack(profile), c.Degrades(profile), w, MESH);
    UnroutedSetsNoState(c, profile, MeshRadio(c, w, ApRadio(c, profile, w).value));
    NothingSet(plan.aps, MESH);
  }

  // Nor does it touch any section but its own and the radios it uses.
  lemma OthersUntouched(c: Config, profile: Profile, l: Layers, n: string)
    requires ApRadio(c, profile, l.staged.wireless).Some?
    requires n != "omm_mesh" && n != "omm_ap" && !("omm_ap_" <= n)
    requires n !in PlanFor(c, profile, l.staged.wireless).radios
    ensures var w, f := l.staged.wireless, Final(c, profile, l).running.wireless;
      (n in f <==> n in w) && (n in w ==> f[n] == w[n])
  {
    var w := l.staged.wireless;
    var plan := PlanFor(c, profile, w);
    assert "omm_ap_" == AP + "_" && !Reserved(n);
    FinalParts(c, profile, l);
    PlanShape(c, profile, w);
    ApEditsReserved(c, profile, w);
    MeshTouched(c, profile, MeshRadio(c, w, ApRadio(c, profile, w).value));
    UntouchedStays(plan, c.FallsBack(profile), c.Degrades(profile), w, n);
  }

  lemma UntouchedStays(plan: Plan, fallback: bool, degrade: bool, w: Package, n: string)
    requires !Reserved(n) && n !in plan.radios && n !in Touched(plan.mesh) && n !in Touched(plan.aps)
    requires fallback ==> MESH in Touched(plan.mesh)
    ensures var f := WirelessAfter(plan, fallback, degrade, w); (n in f <==> n in w) && (n in w ==> f[n] == w[n])
  {
    AfterAt(plan, fallback, degrade, w, n);
    NothingSet(plan.mesh, n);
    NothingSet(plan.aps, n);
    if n in w {
      assert w[n].opts + map[] + map[] + map[] + map[] == w[n].opts;
    }
  }
}
