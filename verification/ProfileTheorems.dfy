/**
 What applying a profile promises: running it again changes nothing in any layer,
 the recorded mode tells what is configured, and the client APs are exactly those
 the profile asks for.
 */
module ProfileTheorems {
  import opened Wrappers
  import opened Uci
  import opened Radios
  import opened Models
  import opened Profiles
  import B = Batman
  import BT = BatmanTheorems
  import PP = PortPlacement

  // ----- a run, section by section -----

  function KindAfter(plan: Plan, n: string, kind: string): string {
    if KindSet(plan.aps, n).Some? then KindSet(plan.aps, n).value
    else if KindSet(plan.mesh, n).Some? then KindSet(plan.mesh, n).value
    else kind
  }

  function EnableOpts(plan: Plan, n: string): map<string, Value> {
    if n in plan.radios then map["disabled" := Scalar("0")] else map[]
  }

  function LanOpts(fallback: bool, n: string): map<string, Value> {
    if fallback && n == MESH then map["network" := Scalar("lan")] else map[]
  }

  function OptsAfter(plan: Plan, fallback: bool, n: string, opts: map<string, Value>): map<string, Value> {
    opts + OptionsSet(plan.mesh, n) + OptionsSet(plan.aps, n) + EnableOpts(plan, n) + LanOpts(fallback, n)
  }

  predicate Dropped(plan: Plan, degrade: bool, n: string, kind: string) {
    (degrade && n == MESH)
    || (plan.keep.Some? && IsSecondary(n) && n !in plan.keep.value && KindAfter(plan, n, kind) == "wifi-iface")
  }

  lemma EditedTwiceAt(plan: Plan, w: Package, n: string)
    ensures var q := Edited(Edited(w, plan.mesh), plan.aps);
      && (n in q <==> n in w || n in Touched(plan.mesh) || n in Touched(plan.aps))
      && (n in q ==> q[n] == Section(KindAfter(plan, n, At(w, n).kind),
                                     At(w, n).opts + OptionsSet(plan.mesh, n) + OptionsSet(plan.aps, n)))
  {
    EditedAt(w, plan.mesh, n);
    EditedAt(Edited(w, plan.mesh), plan.aps, n);
  }

  lemma EnabledAt(p: Package, radios: set<string>, n: string)
    ensures n in Enabled(p, radios) <==> n in p
    ensures n in p ==>
      Enabled(p, radios)[n] == Section(p[n].kind, p[n].opts + if n in radios then map["disabled" := Scalar("0")] else map[])
  {
    if n in p {
      assert p[n].opts + map[] == p[n].opts;
      assert p[n].opts + map["disabled" := Scalar("0")] == p[n].opts["disabled" := Scalar("0")];
    }
  }

  lemma AuthoredAt(plan: Plan, w: Package, n: string)
    ensures var a := Authored(plan, w);
      && (n in a <==> (n in w || n in Touched(plan.mesh) || n in Touched(plan.aps)) && !Dropped(plan, false, n, At(w, n).kind))
      && (n in a ==> a[n] == Section(KindAfter(plan, n, At(w, n).kind), OptsAfter(plan, false, n, At(w, n).opts)))
  {
    EditedTwiceAt(plan, w, n);
    EnabledAt(Pruned(plan, w), plan.radios, n);
    var opts := At(w, n).opts + OptionsSet(plan.mesh, n) + OptionsSet(plan.aps, n) + EnableOpts(plan, n);
    assert opts + map[] == opts;
  }

  lemma AfterAt(plan: Plan, fallback: bool, degrade: bool, w: Package, n: string)
    requires fallback ==> MESH in Touched(plan.mesh)
    ensures var a := WirelessAfter(plan, fallback, degrade, w);
      && (n in a <==> (n in w || n in Touched(plan.mesh) || n in Touched(plan.aps)) && !Dropped(plan, degrade, n, At(w, n).kind))
      && (n in a ==> a[n] == Section(KindAfter(plan, n, At(w, n).kind), OptsAfter(plan, fallback, n, At(w, n).opts)))
  {
    AuthoredAt(plan, w, n);
    MeshIsNotSecondary();
    var a := Authored(plan, w);
    if fallback {
      assert MESH in a by { AuthoredAt(plan, w, MESH); }
      OnLanAt(a, n);
    }
    var opts := OptsAfter(plan, false, n, At(w, n).opts);
    assert opts + LanOpts(fallback, n) == OptsAfter(plan, fallback, n, At(w, n).opts) by { DropNothing(plan, n, At(w, n).opts); }
    assert opts + map[] == opts;
  }

  lemma DropNothing(plan: Plan, n: string, opts: map<string, Value>)
    ensures OptsAfter(plan, false, n, opts)
         == opts + OptionsSet(plan.mesh, n) + OptionsSet(plan.aps, n) + EnableOpts(plan, n)
  {
    var all := opts + OptionsSet(plan.mesh, n) + OptionsSet(plan.aps, n) + EnableOpts(plan, n);
    assert all + map[] == all;
  }

  lemma OnLanAt(a: Package, n: string)
    requires MESH in a
    ensures n in OnLan(a) <==> n in a
    ensures n in a ==> OnLan(a)[n] == Section(a[n].kind, a[n].opts + LanOpts(true, n))
  {
    if n in a {
      assert a[n].opts + map[] == a[n].opts;
      assert Scalars(map["network" := "lan"]) == map["network" := Scalar("lan")];
    }
  }

  // The last write of an option, if the run writes it.
  function Written(plan: Plan, fallback: bool, n: string, option: string): Option<Value> {
    if option in LanOpts(fallback, n) then Some(LanOpts(fallback, n)[option])
    else if option in EnableOpts(plan, n) then Some(EnableOpts(plan, n)[option])
    else if option in OptionsSet(plan.aps, n) then Some(OptionsSet(plan.aps, n)[option])
    else if option in OptionsSet(plan.mesh, n) then Some(OptionsSet(plan.mesh, n)[option])
    else None
  }

  lemma OptionAfter(plan: Plan, fallback: bool, degrade: bool, w: Package, n: string, option: string)
    requires fallback ==> MESH in Touched(plan.mesh)
    requires n in WirelessAfter(plan, fallback, degrade, w)
    requires Written(plan, fallback, n, option).Some? && Written(plan, fallback, n, option).value.Scalar?
    ensures Text(WirelessAfter(plan, fallback, degrade, w)[n], option) == Written(plan, fallback, n, option).value.s
  {
    AfterAt(plan, fallback, degrade, w, n);
  }

  // ----- a fixed plan carried out twice -----

  lemma OptsTwice(plan: Plan, fallback: bool, n: string, opts: map<string, Value>)
    ensures var once := OptsAfter(plan, fallback, n, opts); OptsAfter(plan, fallback, n, once) == once
  {
  }

  // The sections a plan edits are not among those it prunes.
  ghost predicate Consistent(plan: Plan) {
    forall n :: n in Touched(plan.mesh) + Touched(plan.aps) && IsSecondary(n) && plan.keep.Some? ==> n in plan.keep.value
  }

  lemma PlanTwice(plan: Plan, fallback: bool, degrade: bool, w: Package)
    requires Consistent(plan) && (fallback ==> MESH in Touched(plan.mesh))
    ensures var once := WirelessAfter(plan, fallback, degrade, w);
      WirelessAfter(plan, fallback, degrade, once) == once
  {
    var once := WirelessAfter(plan, fallback, degrade, w);
    var twice := WirelessAfter(plan, fallback, degrade, once);
    forall n ensures (n in twice <==> n in once) && (n in once ==> twice[n] == once[n]) {
      AfterAt(plan, fallback, degrade, w, n);
      AfterAt(plan, fallback, degrade, once, n);
      OptsTwice(plan, fallback, n, At(w, n).opts);
    }
  }

  // ----- the plan is the same the second time -----

  // The names a run authors.
  predicate Reserved(n: string) {
    n == MESH || n == AP || IsSecondary(n)
  }

  // No radio has one of those names.
  ghost predicate Tame(c: Config, profile: Profile, w: Package) {
    && (forall n :: n in w && w[n].kind == "wifi-device" ==> !Reserved(n))
    && !Reserved(profile.radio) && !Reserved(c.radio) && !Reserved(c.meshRadio)
  }

  // Edits that make no radio and move none to another band.
  ghost predicate Bandless(es: seq<Edit>) {
    forall e :: e in es ==>
      "band" !in e.values && (e.kind.Some? ==> e.kind.value == "wifi-iface" && Reserved(e.section))
  }

  lemma {:induction false} BandlessSets(es: seq<Edit>, n: string)
    requires Bandless(es)
    ensures "band" !in OptionsSet(es, n)
    ensures KindSet(es, n).Some? ==> KindSet(es, n).value == "wifi-iface" && Reserved(n)
  {
    if es != [] {
      var init, e := es[..|es| - 1], es[|es| - 1];
      assert es == init + [e];
      BandlessSets(init, n);
    }
  }

  lemma BandlessMesh(c: Config, profile: Profile, radio: string)
    ensures Bandless(MeshEdits(c, profile, radio))
  {
  }

  lemma BandlessAp(profile: Profile, t: Target)
    ensures "band" !in ApEdit(profile, t).values && ApEdit(profile, t).kind == Some("wifi-iface")
  {
  }

  lemma {:induction false} BandlessAps(profile: Profile, ts: seq<Target>)
    requires forall t :: t in ts ==> Reserved(t.section)
    ensures Bandless(ApEdits(profile, ts))
  {
    if ts != [] {
      var init, t := ts[..|ts| - 1], ts[|ts| - 1];
      assert ts == init + [t];
      BandlessAps(profile, init);
      BandlessAp(profile, t);
      forall e | e in ApEdits(profile, ts) ensures e in ApEdits(profile, init) || e == ApEdit(profile, t) {
      }
    }
  }

  lemma {:induction false} ApsTouch(profile: Profile, ts: seq<Target>)
    ensures Touched(ApEdits(profile, ts)) == SectionsOf(ts)
  {
    if ts != [] {
      var init, t := ts[..|ts| - 1], ts[|ts| - 1];
      assert ts == init + [t];
      ApsTouch(profile, init);
      TouchedSnoc(ApEdits(profile, init), ApEdit(profile, t));
      RadiosSnoc(init, t);
    }
  }

  lemma TargetNames(lower: string -> string, w: Package, bands: seq<string>, apRadio: string)
    ensures forall t :: t in Targets(lower, w, bands, apRadio) ==> Reserved(t.section) && t.section != MESH
  {
    var ts := Targets(lower, w, bands, apRadio);
    TargetsShape(lower, w, bands, apRadio);
    MeshIsNotSecondary();
    forall i | 0 <= i < |ts| ensures Reserved(ts[i].section) && ts[i].section != MESH {
      if i > 0 {
        TargetsDistinct(lower, w, bands, apRadio, 0, i);
      }
    }
  }

  lemma ApTargetNames(c: Config, profile: Profile, w: Package, apRadio: string)
    ensures forall t :: t in ApTargets(c, profile, w, apRadio) ==> Reserved(t.section) && t.section != MESH
  {
    TargetNames(c.lower, w, ApBands(c, profile), apRadio);
  }

  // v has the radios of w, on the bands they have in w.
  ghost predicate RadioAlike(w: Package, v: Package, n: string) {
    && (n in w && w[n].kind == "wifi-device" <==> n in v && v[n].kind == "wifi-device")
    && (n in w && w[n].kind == "wifi-device" ==> Text(w[n], "band") == Text(v[n], "band"))
  }

  lemma AlikeBands(w: Package, v: Package)
    requires forall n :: RadioAlike(w, v, n)
    ensures SameBands(w, v)
  {
    forall band ensures OfBand(w, band) == OfBand(v, band) {
      forall n ensures n in OfBand(w, band) <==> n in OfBand(v, band) {
        assert RadioAlike(w, v, n);
      }
    }
  }

  lemma EditsKeepBands(w: Package, es: seq<Edit>)
    requires Bandless(es) && forall n :: n in w && w[n].kind == "wifi-device" ==> !Reserved(n)
    ensures SameBands(w, Edited(w, es))
  {
    forall n ensures RadioAlike(w, Edited(w, es), n) {
      EditedAt(w, es, n);
      BandlessSets(es, n);
    }
    AlikeBands(w, Edited(w, es));
  }

  lemma RunKeepsRadio(plan: Plan, fallback: bool, degrade: bool, w: Package, n: string)
    requires Bandless(plan.mesh) && Bandless(plan.aps) && (fallback ==> MESH in Touched(plan.mesh))
    requires n in w && w[n].kind == "wifi-device" ==> !Reserved(n)
    ensures var v := WirelessAfter(plan, fallback, degrade, w);
      RadioAlike(w, v, n) && (n in v && v[n].kind == "wifi-device" ==> !Reserved(n))
  {
    AfterAt(plan, fallback, degrade, w, n);
    BandlessSets(plan.mesh, n);
    BandlessSets(plan.aps, n);
  }

  lemma RunKeepsBands(plan: Plan, fallback: bool, degrade: bool, w: Package)
    requires Bandless(plan.mesh) && Bandless(plan.aps)
    requires forall n :: n in w && w[n].kind == "wifi-device" ==> !Reserved(n)
    requires fallback ==> MESH in Touched(plan.mesh)
    ensures SameBands(w, WirelessAfter(plan, fallback, degrade, w))
    ensures forall n :: (n in WirelessAfter(plan, fallback, degrade, w)
                         && WirelessAfter(plan, fallback, degrade, w)[n].kind == "wifi-device") ==> !Reserved(n)
  {
    var v := WirelessAfter(plan, fallback, degrade, w);
    forall n ensures RadioAlike(w, v, n) && (n in v && v[n].kind == "wifi-device" ==> !Reserved(n)) {
      RunKeepsRadio(plan, fallback, degrade, w, n);
    }
    AlikeBands(w, v);
  }

  lemma SameRadios(c: Config, profile: Profile, w: Package, v: Package)
    requires SameBands(w, v)
    ensures ApRadio(c, profile, w) == ApRadio(c, profile, v)
    ensures forall r :: MeshRadio(c, w, r) == MeshRadio(c, v, r)
  {
    SameLowest(w, v, profile.band);
    SameLowest(w, v, c.meshBand);
    assert OfBand(w, profile.band) == OfBand(v, profile.band) && OfBand(w, c.meshBand) == OfBand(v, c.meshBand);
  }

  lemma SamePlan(c: Config, profile: Profile, w: Package, v: Package)
    requires Tame(c, profile, w) && Tame(c, profile, v) && SameBands(w, v) && ApRadio(c, profile, w).Some?
    ensures ApRadio(c, profile, v).Some? && PlanFor(c, profile, v) == PlanFor(c, profile, w)
  {
    SameRadios(c, profile, w, v);
    var apRadio := ApRadio(c, profile, w).value;
    var mesh := MeshEdits(c, profile, MeshRadio(c, w, apRadio));
    BandlessMesh(c, profile, MeshRadio(c, w, apRadio));
    EditsKeepBands(w, mesh);
    EditsKeepBands(v, mesh);
    var a, b := Edited(w, mesh), Edited(v, mesh);
    forall band ensures OfBand(a, band) == OfBand(b, band) {
      assert OfBand(w, band) == OfBand(a, band) && OfBand(v, band) == OfBand(b, band) && OfBand(w, band) == OfBand(v, band);
    }
    SameTargets(c.lower, a, b, ApBands(c, profile), apRadio);
  }

  // What every plan has: it can be carried out, and a tame one never picks a
  // reserved name for a radio.
  lemma PlanShape(c: Config, profile: Profile, w: Package)
    requires ApRadio(c, profile, w).Some?
    ensures var plan := PlanFor(c, profile, w);
      && Bandless(plan.mesh) && Bandless(plan.aps) && MESH !in Touched(plan.aps)
      && (MESH in Touched(plan.mesh) <==> profile.meshSSID != "")
      && (plan.keep.Some? ==> Touched(plan.aps) == plan.keep.value)
      && (plan.keep.None? ==> plan.aps == [])
  {
    var apRadio := ApRadio(c, profile, w).value;
    var meshRadio := MeshRadio(c, w, apRadio);
    var q := Edited(w, MeshEdits(c, profile, meshRadio));
    BandlessMesh(c, profile, meshRadio);
    MeshTouched(c, profile, meshRadio);
    ApTargetNames(c, profile, q, apRadio);
    BandlessAps(profile, ApTargets(c, profile, q, apRadio));
    ApsTouch(profile, ApTargets(c, profile, q, apRadio));
  }

  lemma LowestUnreserved(w: Package, band: string)
    requires forall n :: n in w && w[n].kind == "wifi-device" ==> !Reserved(n)
    ensures !Reserved(Lowest(w, band))
  {
    if OfBand(w, band) != {} {
      assert Lowest(w, band) in OfBand(w, band);
    }
  }

  lemma TameRadios(c: Config, profile: Profile, w: Package)
    requires Tame(c, profile, w) && ApRadio(c, profile, w).Some?
    ensures !Reserved(MeshRadio(c, w, ApRadio(c, profile, w).value))
    ensures forall r :: r in PlanFor(c, profile, w).radios ==> !Reserved(r)
  {
    var apRadio := ApRadio(c, profile, w).value;
    var meshRadio := MeshRadio(c, w, apRadio);
    LowestUnreserved(w, profile.band);
    LowestUnreserved(w, c.meshBand);
    var mesh := MeshEdits(c, profile, meshRadio);
    var q := Edited(w, mesh);
    var ts := ApTargets(c, profile, q, apRadio);
    BandlessMesh(c, profile, meshRadio);
    EditsKeepBands(w, mesh);
    TargetsShape(c.lower, q, ApBands(c, profile), apRadio);
    forall i | 0 <= i < |ts| ensures !Reserved(ts[i].radio) {
      if i > 0 {
        assert Serves(c.lower, q, ApBands(c, profile), ts[i]);
        var b :| b in ApBands(c, profile) && ts[i].radio == Lowest(q, Cleaned(c.lower, b));
        SameLowest(w, q, Cleaned(c.lower, b));
        LowestUnreserved(w, Cleaned(c.lower, b));
      }
    }
  }

  lemma TamePlan(c: Config, profile: Profile, w: Package)
    requires Tame(c, profile, w) && ApRadio(c, profile, w).Some?
    ensures Consistent(PlanFor(c, profile, w))
  {
    PlanShape(c, profile, w);
    TameRadios(c, profile, w);
    MeshIsNotSecondary();
    MeshTouched(c, profile, MeshRadio(c, w, ApRadio(c, profile, w).value));
  }

  // The wireless package, twice.
  lemma WirelessTwice(c: Config, profile: Profile, w: Package)
    requires Tame(c, profile, w) && ApRadio(c, profile, w).Some?
    ensures var plan := PlanFor(c, profile, w);
      var once := WirelessAfter(plan, c.FallsBack(profile), c.Degrades(profile), w);
      && Tame(c, profile, once) && ApRadio(c, profile, once).Some? && PlanFor(c, profile, once) == plan
      && WirelessAfter(plan, c.FallsBack(profile), c.Degrades(profile), once) == once
  {
    var plan := PlanFor(c, profile, w);
    PlanShape(c, profile, w);
    TamePlan(c, profile, w);
    RunKeepsBands(plan, c.FallsBack(profile), c.Degrades(profile), w);
    SamePlan(c, profile, w, WirelessAfter(plan, c.FallsBack(profile), c.Degrades(profile), w));
    PlanTwice(plan, c.FallsBack(profile), c.Degrades(profile), w);
  }

  // ----- a whole run, twice -----

  ghost predicate NetworkTame(c: Config, profile: Profile, p: Package) {
    c.Routed(profile) ==> B.LanThere(c.batman, p) && BT.LanApart(c.batman)
  }

  lemma NetworkTwice(c: Config, profile: Profile, p: Package)
    requires NetworkTame(c, profile, p)
    ensures var once := NetworkAfter(c, c.Routed(profile), c.FallsBack(profile), p);
      && NetworkTame(c, profile, once)
      && NetworkAfter(c, c.Routed(profile), c.FallsBack(profile), once) == once
  {
    if c.FallsBack(profile) {
      BT.FallbackTwice(c.batman, p);
      BT.FallbackShape(c.batman, p);
      BT.FellBackTwice(c.batman, p);
    } else if c.Routed(profile) {
      BT.ApplyTwice(c.batman, p);
      BT.ApplyShape(c.batman, p);
      BT.AppliedTwice(c.batman, p);
    }
  }

  lemma NamedTwice(profile: Profile, p: Package)
    ensures Named(profile, Named(profile, p)) == Named(profile, p)
  {
    var e := Edit(SYSTEM, None, map["hostname" := profile.nodeName]);
    EditedFew(p, e, e);
    assert At(EditOne(p, e), SYSTEM).opts + Scalars(e.values) == At(EditOne(p, e), SYSTEM).opts;
  }

  // Main result. For fixed probe answers a second successful run leaves the
  // staged, committed and running configuration as they are, on every path: with
  // batman-adv up, after a fallback to lan, degraded, or standing by.
  lemma ApplyProfileTwice(c: Config, profile: Profile, l: Layers)
    requires Tame(c, profile, l.staged.wireless) && ApRadio(c, profile, l.staged.wireless).Some?
    requires NetworkTame(c, profile, l.staged.network)
    ensures var once := Final(c, profile, l);
      ApRadio(c, profile, once.staged.wireless).Some? && Final(c, profile, once) == once
  {
    WirelessTwice(c, profile, l.staged.wireless);
    NetworkTwice(c, profile, l.staged.network);
    NamedTwice(profile, l.staged.system);
  }

  // A section with an ordinary name stays.
  lemma OrdinaryStays(plan: Plan, fallback: bool, degrade: bool, w: Package, n: string)
    requires !Reserved(n) && (fallback ==> MESH in Touched(plan.mesh))
    ensures n in Pruned(plan, w) ==> n in Pruned(plan, WirelessAfter(plan, fallback, degrade, w))
    ensures n in w ==> n in WirelessAfter(plan, fallback, degrade, w)
  {
    var once := WirelessAfter(plan, fallback, degrade, w);
    AfterAt(plan, fallback, degrade, w, n);
    EditedTwiceAt(plan, w, n);
    EditedTwiceAt(plan, once, n);
  }

  // Every write that found its section the first time finds it again.
  lemma WirelessAgain(c: Config, profile: Profile, w: Package)
    requires Tame(c, profile, w) && CanAuthorWireless(c, profile, w)
    ensures CanAuthorWireless(c, profile, WirelessAfter(PlanFor(c, profile, w), c.FallsBack(profile), c.Degrades(profile), w))
  {
    var plan := PlanFor(c, profile, w);
    var meshRadio := MeshRadio(c, w, ApRadio(c, profile, w).value);
    var once := WirelessAfter(plan, c.FallsBack(profile), c.Degrades(profile), w);
    WirelessTwice(c, profile, w);
    PlanShape(c, profile, w);
    TameRadios(c, profile, w);
    RunKeepsBands(plan, c.FallsBack(profile), c.Degrades(profile), w);
    SameRadios(c, profile, w, once);
    OrdinaryStays(plan, c.FallsBack(profile), c.Degrades(profile), w, meshRadio);
    forall r | r in plan.radios ensures r in Pruned(plan, once) {
      OrdinaryStays(plan, c.FallsBack(profile), c.Degrades(profile), w, r);
    }
  }

  lemma CanAuthorAgain(c: Config, profile: Profile, l: Layers)
    requires Tame(c, profile, l.staged.wireless) && CanAuthor(c, profile, l)
    ensures CanAuthor(c, profile, Final(c, profile, l))
  {
    WirelessAgain(c, profile, l.staged.wireless);
  }

  // A run that fell back can be repeated exactly when every wired port's address
  // can be read: the first teardown deleted the device sections.
  lemma FallBackAgainIff(c: Config, profile: Profile, l: Layers)
    requires ApRadio(c, profile, l.staged.wireless).Some? && c.FallsBack(profile)
    requires NetworkTame(c, profile, l.staged.network) && PP.NamesApart(c.batman)
    ensures CanFallBack(c, profile, Final(c, profile, l))
       <==> forall w :: w in c.batman.wiredPorts && c.batman.overrides.Some? ==> c.batman.overrides.value(w).Some?
  {
    var b, p := c.batman, l.staged.network;
    BT.FallbackShape(b, p);
    BT.FellBackTwice(b, p);
    var after := BT.FellBack(b, p);
    PP.TeardownAfterApplyIff(b, after);
    forall w | w in b.wiredPorts && b.overrides.Some? ensures b.DeviceSection(w) !in after {
      PP.LanIsNoPortSectionIn(b, b.wiredPorts, w);
    }
    assert forall w :: w in b.wiredPorts ==> (PP.Readable(b, after, w) <==> (b.overrides.Some? ==> b.overrides.value(w).Some?));
  }

  // ----- what the recorded mode means -----

  // The mesh's hard interface is there, and so is the bat0 it belongs to.
  predicate MeshRouted(b: B.Config, p: Package) {
    && b.MeshHardif() in p && Text(p[b.MeshHardif()], "proto") == "batadv_hardif"
    && Text(p[b.MeshHardif()], "master") == b.iface
    && b.iface in p && Text(p[b.iface], "proto") == "batadv"
  }

  lemma EditKeepsRouted(b: B.Config, p: Package, e: Edit)
    requires MeshRouted(b, p)
    requires "proto" in e.values && e.section == b.MeshHardif() ==> e.values["proto"] == "batadv_hardif"
    requires "master" in e.values && e.section == b.MeshHardif() ==> e.values["master"] == b.iface
    requires "proto" in e.values ==> e.section != b.iface
    ensures MeshRouted(b, EditOne(p, e))
  {
  }

  lemma BridgingKeepsRouted(b: B.Config, p: Package, dev: string)
    requires MeshRouted(b, p)
    ensures MeshRouted(b, B.Unbridge(b, p, dev)) && MeshRouted(b, B.Bridge(b, p, dev))
  {
  }

  lemma EnslaveKeepsRouted(b: B.Config, p: Package, port: string)
    requires MeshRouted(b, p)
    ensures MeshRouted(b, B.EnslaveNet(b, p, port))
  {
    B.NotIface(b);
    var e := B.HardifEdit(b, port);
    EditKeepsRouted(b, p, e);
    BridgingKeepsRouted(b, EditOne(p, e), port);
    var q := B.Unbridge(b, EditOne(p, e), port);
    if B.DeviceEdits(b, port) != [] {
      EditedFew(q, B.DeviceEdits(b, port)[0], e);
      EditKeepsRouted(b, q, B.DeviceEdits(b, port)[0]);
    }
  }

  lemma {:induction false} EnslaveAllKeepsRouted(b: B.Config, p: Package, ports: seq<string>)
    requires MeshRouted(b, p)
    ensures MeshRouted(b, B.EnslaveAll(b, p, ports))
  {
    if ports != [] {
      EnslaveAllKeepsRouted(b, p, ports[..|ports| - 1]);
      EnslaveKeepsRouted(b, B.EnslaveAll(b, p, ports[..|ports| - 1]), ports[|ports| - 1]);
    }
  }

  lemma SoftRoutes(b: B.Config, p: Package)
    ensures MeshRouted(b, Edited(p, B.SoftEdits(b)))
  {
    B.NotIface(b);
    EditedFew(p, B.SoftEdits(b)[0], B.SoftEdits(b)[1]);
    var q := EditOne(p, B.SoftEdits(b)[0]);
    var r := EditOne(q, B.SoftEdits(b)[1]);
    SoftIface(b, p);
    MeshHardifAuthored(b, q);
    assert r[b.iface] == q[b.iface];
  }

  lemma SoftIface(b: B.Config, p: Package)
    ensures Text(EditOne(p, B.SoftEdits(b)[0])[b.iface], "proto") == "batadv"
  {
  }

  lemma MeshHardifAuthored(b: B.Config, q: Package)
    ensures var s := EditOne(q, B.SoftEdits(b)[1])[b.MeshHardif()];
      Text(s, "proto") == "batadv_hardif" && Text(s, "master") == b.iface
  {
  }

  lemma ApplyRoutes(b: B.Config, p: Package)
    ensures MeshRouted(b, B.ApplyNet(b, p))
  {
    var soft := Edited(p, B.SoftEdits(b));
    SoftRoutes(b, p);
    EnslaveAllKeepsRouted(b, soft, b.wiredPorts);
    var q := B.EnslaveAll(b, soft, b.wiredPorts);
    BridgingKeepsRouted(b, q, b.iface);
    BridgingKeepsRouted(b, B.Unbridge(b, q, b.iface), b.iface);
  }

  lemma MeshOptions(c: Config, profile: Profile, radio: string, option: string)
    requires profile.meshSSID != "" && option !in {"channel", "htmode"} && option in MeshValues(c, profile, radio)
    ensures option in OptionsSet(MeshEdits(c, profile, radio), MESH)
    ensures OptionsSet(MeshEdits(c, profile, radio), MESH)[option] == Scalar(MeshValues(c, profile, radio)[option])
    ensures KindSet(MeshEdits(c, profile, radio), MESH) == Some("wifi-iface")
  {
    var first := [MeshEdit(c, profile, radio)];
    assert OptionsSet([], MESH) == map[] && first[..0] == [];
    assert OptionsSet(first, MESH) == Scalars(MeshValues(c, profile, radio));
    PinsKeep(first, radio, "channel", profile.meshChannel, option);
    PinsKeep(first + Pins(radio, "channel", profile.meshChannel), radio, "htmode", profile.meshHTMode, option);
  }

  lemma PinsKeep(es: seq<Edit>, radio: string, pin: string, value: string, option: string)
    requires option != pin
    ensures var more := es + Pins(radio, pin, value);
      && KindSet(more, MESH) == KindSet(es, MESH)
      && (option in OptionsSet(es, MESH) ==>
            option in OptionsSet(more, MESH) && OptionsSet(more, MESH)[option] == OptionsSet(es, MESH)[option])
  {
    if value == "" {
      assert es + [] == es;
    } else {
      assert (es + Pins(radio, pin, value))[..|es|] == es;
    }
  }

  // The mesh section a run leaves.
  lemma MeshAfter(c: Config, profile: Profile, w: Package)
    requires ApRadio(c, profile, w).Some? && profile.meshSSID != ""
    ensures var f := WirelessAfter(PlanFor(c, profile, w), c.FallsBack(profile), c.Degrades(profile), w);
      && (MESH in f <==> !c.Degrades(profile))
      && (MESH in f ==> f[MESH].kind == "wifi-iface")
  {
    var plan := PlanFor(c, profile, w);
    PlanShape(c, profile, w);
    MeshIsNotSecondary();
    AfterAt(plan, c.FallsBack(profile), c.Degrades(profile), w, MESH);
    NothingSet(plan.aps, MESH);
    MeshOptions(c, profile, MeshRadio(c, w, ApRadio(c, profile, w).value), "mode");
  }

  lemma MeshOptionAfter(c: Config, profile: Profile, w: Package, option: string)
    requires ApRadio(c, profile, w).Some? && profile.meshSSID != "" && !c.Degrades(profile)
    requires var radio := MeshRadio(c, w, ApRadio(c, profile, w).value);
      option !in {"channel", "htmode"} && option in MeshValues(c, profile, radio)
    requires option == "disabled" ==> MESH !in PlanFor(c, profile, w).radios
    ensures var plan := PlanFor(c, profile, w);
      var f := WirelessAfter(plan, c.FallsBack(profile), c.Degrades(profile), w);
      && MESH in f
      && Text(f[MESH], option) == (if c.FallsBack(profile) && option == "network" then "lan"
                                   else MeshValues(c, profile, MeshRadio(c, w, ApRadio(c, profile, w).value))[option])
  {
    MeshAfter(c, profile, w);
    PlanShape(c, profile, w);
    MeshWritten(c, profile, w, option);
    OptionAfter(PlanFor(c, profile, w), c.FallsBack(profile), c.Degrades(profile), w, MESH, option);
  }

  lemma MeshWritten(c: Config, profile: Profile, w: Package, option: string)
    requires ApRadio(c, profile, w).Some? && profile.meshSSID != ""
    requires var radio := MeshRadio(c, w, ApRadio(c, profile, w).value);
      option !in {"channel", "htmode"} && option in MeshValues(c, profile, radio)
    requires option == "disabled" ==> MESH !in PlanFor(c, profile, w).radios
    ensures Written(PlanFor(c, profile, w), c.FallsBack(profile), MESH, option)
         == Some(Scalar(if c.FallsBack(profile) && option == "network" then "lan"
                        else MeshValues(c, profile, MeshRadio(c, w, ApRadio(c, profile, w).value))[option]))
  {
    PlanShape(c, profile, w);
    NothingSet(PlanFor(c, profile, w).aps, MESH);
    MeshOptions(c, profile, MeshRadio(c, w, ApRadio(c, profile, w).value), option);
  }

  // The mesh is configured, on lan or on the hard interface of a bat0 that is
  // configured too.
  predicate MeshConfigured(c: Config, profile: Profile, f: Files) {
    && MESH in f.wireless && f.wireless[MESH].kind == "wifi-iface"
    && Text(f.wireless[MESH], "mode") == "mesh" && Text(f.wireless[MESH], "mesh_id") == profile.meshSSID
    && (Text(f.wireless[MESH], "network") == "lan"
        || (Text(f.wireless[MESH], "network") == c.batman.MeshHardif() && MeshRouted(c.batman, f.network)))
  }

  lemma MeshValuesAre(c: Config, profile: Profile, radio: string)
    ensures var values := MeshValues(c, profile, radio);
      && "mode" in values && values["mode"] == "mesh"
      && "mesh_id" in values && values["mesh_id"] == profile.meshSSID
      && "network" in values && values["network"] == if c.Routed(profile) then c.batman.MeshHardif() else "lan"
  {
  }

  lemma MeshTexts(c: Config, profile: Profile, w: Package, f: Package)
    requires ApRadio(c, profile, w).Some? && profile.meshSSID != "" && !c.Degrades(profile)
    requires f == WirelessAfter(PlanFor(c, profile, w), c.FallsBack(profile), c.Degrades(profile), w)
    ensures MESH in f && Text(f[MESH], "mode") == "mesh" && Text(f[MESH], "mesh_id") == profile.meshSSID
    ensures Text(f[MESH], "network") == if c.Routed(profile) && !c.FallsBack(profile) then c.batman.MeshHardif() else "lan"
  {
    MeshAfter(c, profile, w);
    MeshValuesAre(c, profile, MeshRadio(c, w, ApRadio(c, profile, w).value));
    assert Text(f[MESH], "mode") == "mesh" by { MeshOptionAfter(c, profile, w, "mode"); }
    assert Text(f[MESH], "mesh_id") == profile.meshSSID by { MeshOptionAfter(c, profile, w, "mesh_id"); }
    assert Text(f[MESH], "network") == if c.Routed(profile) && !c.FallsBack(profile) then c.batman.MeshHardif() else "lan" by {
      MeshOptionAfter(c, profile, w, "network");
    }
  }

  lemma MeshStays(c: Config, profile: Profile, l: Layers)
    requires ApRadio(c, profile, l.staged.wireless).Some? && profile.meshSSID != "" && !c.Degrades(profile)
    ensures MeshConfigured(c, profile, Final(c, profile, l).running)
  {
    var f := Final(c, profile, l).running;
    MeshAfter(c, profile, l.staged.wireless);
    MeshTexts(c, profile, l.staged.wireless, f.wireless);
    if c.Routed(profile) && !c.FallsBack(profile) {
      ApplyRoutes(c.batman, l.staged.network);
    }
  }

  // Main result. Recorded as 802.11s, the mesh is configured and running;
  // recorded as multi-AP although the profile has a mesh, the mesh is gone.
  lemma ModeMeaning(c: Config, profile: Profile, l: Layers)
    requires ApRadio(c, profile, l.staged.wireless).Some?
    ensures Outcome(c, profile).mode == Mode80211s ==> MeshConfigured(c, profile, Final(c, profile, l).running)
    ensures Outcome(c, profile).mode == ModeMultiAP && profile.meshSSID != "" ==> MESH !in Final(c, profile, l).running.wireless
  {
    if profile.meshSSID != "" {
      if c.Degrades(profile) {
        MeshAfter(c, profile, l.staged.wireless);
      } else {
        MeshStays(c, profile, l);
      }
    }
  }

  // ----- the client APs -----

  lemma LastApSet(profile: Profile, init: seq<Target>, t: Target)
    requires t.section !in SectionsOf(init)
    ensures OptionsSet(ApEdits(profile, init + [t]), t.section) == Scalars(ApValues(profile, t.radio))
    ensures KindSet(ApEdits(profile, init + [t]), t.section) == Some("wifi-iface")
  {
    assert (init + [t])[..|init|] == init;
    ApsTouch(profile, init);
    var before, e := ApEdits(profile, init), ApEdit(profile, t);
    NothingSet(before, t.section);
    assert (before + [e])[..|before|] == before;
    assert map[] + Scalars(e.values) == Scalars(e.values);
  }

  lemma EarlierApSet(profile: Profile, init: seq<Target>, t: Target, n: string)
    requires t.section != n
    ensures OptionsSet(ApEdits(profile, init + [t]), n) == OptionsSet(ApEdits(profile, init), n)
    ensures KindSet(ApEdits(profile, init + [t]), n) == KindSet(ApEdits(profile, init), n)
  {
    assert (init + [t])[..|init|] == init;
    var before, e := ApEdits(profile, init), ApEdit(profile, t);
    assert (before + [e])[..|before|] == before;
  }

  lemma {:induction false} ApOptionsSet(profile: Profile, ts: seq<Target>, i: nat)
    requires i < |ts| && forall j, k :: 0 <= j < k < |ts| ==> ts[j].section != ts[k].section
    ensures OptionsSet(ApEdits(profile, ts), ts[i].section) == Scalars(ApValues(profile, ts[i].radio))
    ensures KindSet(ApEdits(profile, ts), ts[i].section) == Some("wifi-iface")
  {
    var init, t := ts[..|ts| - 1], ts[|ts| - 1];
    assert ts == init + [t];
    if i < |init| {
      ApOptionsSet(profile, init, i);
      EarlierApSet(profile, init, t, ts[i].section);
    } else {
      LastApSet(profile, init, t);
    }
  }

  // Main result. The secondary AP sections are exactly those of the targets,
  // whatever was there before, and every target's section says what was asked.
  lemma ApsConverge(c: Config, profile: Profile, l: Layers)
    requires ApRadio(c, profile, l.staged.wireless).Some? && ApSSID(profile) != ""
    ensures var w := l.staged.wireless;
      var apRadio := ApRadio(c, profile, w).value;
      var ts := ApTargets(c, profile, Edited(w, PlanFor(c, profile, w).mesh), apRadio);
      var f := Final(c, profile, l).running.wireless;
      && (forall n :: IsSecondary(n) ==> (n in f && f[n].kind == "wifi-iface" <==> n in SectionsOf(ts)))
      && (forall t :: t in ts ==> t.section in f && ServesOn(profile, f[t.section], t.radio))
  {
    var w := l.staged.wireless;
    var apRadio := ApRadio(c, profile, w).value;
    var plan := PlanFor(c, profile, w);
    var q := Edited(w, plan.mesh);
    var ts := ApTargets(c, profile, q, apRadio);
    var f := Final(c, profile, l).running.wireless;
    PlanShape(c, profile, w);
    forall i | 0 <= i < |ts| ensures ts[i].section in f && ServesOn(profile, f[ts[i].section], ts[i].radio) {
      ApSet(profile, c.lower, q, ApBands(c, profile), apRadio, i);
      ApTargetNames(c, profile, q, apRadio);
      ApAfter(plan, profile, c.FallsBack(profile), c.Degrades(profile), w, ts[i]);
    }
    forall n | IsSecondary(n) && n !in SectionsOf(ts) ensures !(n in f && f[n].kind == "wifi-iface") {
      MeshIsNotSecondary();
      AfterAt(plan, c.FallsBack(profile), c.Degrades(profile), w, n);
    }
  }

  lemma ApAfter(plan: Plan, profile: Profile, fallback: bool, degrade: bool, w: Package, t: Target)
    requires fallback ==> MESH in Touched(plan.mesh)
    requires t.section != MESH && t.section in Touched(plan.aps) && (plan.keep.Some? ==> t.section in plan.keep.value)
    requires OptionsSet(plan.aps, t.section) == Scalars(ApValues(profile, t.radio))
    requires KindSet(plan.aps, t.section) == Some("wifi-iface")
    ensures var f := WirelessAfter(plan, fallback, degrade, w);
      t.section in f && ServesOn(profile, f[t.section], t.radio)
  {
    AfterAt(plan, fallback, degrade, w, t.section);
    var s := WirelessAfter(plan, fallback, degrade, w)[t.section];
    assert Text(s, "mode") == "ap" by { ApOptionAfter(plan, profile, fallback, degrade, w, t, "mode"); }
    assert Text(s, "device") == t.radio by { ApOptionAfter(plan, profile, fallback, degrade, w, t, "device"); }
    assert Text(s, "ssid") == ApSSID(profile) by { ApOptionAfter(plan, profile, fallback, degrade, w, t, "ssid"); }
    assert Text(s, "network") == "lan" by { ApOptionAfter(plan, profile, fallback, degrade, w, t, "network"); }
  }

  lemma ApOptionAfter(plan: Plan, profile: Profile, fallback: bool, degrade: bool, w: Package, t: Target, option: string)
    requires fallback ==> MESH in Touched(plan.mesh)
    requires t.section != MESH && t.section in WirelessAfter(plan, fallback, degrade, w)
    requires OptionsSet(plan.aps, t.section) == Scalars(ApValues(profile, t.radio))
    requires option != "disabled" && option in ApValues(profile, t.radio)
    ensures Text(WirelessAfter(plan, fallback, degrade, w)[t.section], option) == ApValues(profile, t.radio)[option]
  {
    OptionAfter(plan, fallback, degrade, w, t.section, option);
  }

  predicate ServesOn(profile: Profile, s: Section, radio: string) {
    && s.kind == "wifi-iface" && Text(s, "mode") == "ap" && Text(s, "device") == radio
    && Text(s, "ssid") == ApSSID(profile) && Text(s, "network") == "lan"
  }

  lemma ApSet(profile: Profile, lower: string -> string, w: Package, bands: seq<string>, apRadio: string, i: nat)
    requires i < |Targets(lower, w, bands, apRadio)|
    ensures var ts := Targets(lower, w, bands, apRadio);
      && OptionsSet(ApEdits(profile, ts), ts[i].section) == Scalars(ApValues(profile, ts[i].radio))
      && KindSet(ApEdits(profile, ts), ts[i].section) == Some("wifi-iface")
  {
    var ts := Targets(lower, w, bands, apRadio);
    forall j, k | 0 <= j < k < |ts| ensures ts[j].section != ts[k].section {
      TargetsDistinct(lower, w, bands, apRadio, j, k);
    }
    ApOptionsSet(profile, ts, i);
  }

  // A standby mesh is authored disabled, any other mesh on batman-adv enabled.
  lemma StandbyIsDisabled(c: Config, profile: Profile, l: Layers)
    requires Tame(c, profile, l.staged.wireless) && ApRadio(c, profile, l.staged.wireless).Some?
    requires c.Routed(profile) && !c.Degrades(profile)
    ensures var f := Final(c, profile, l).running.wireless;
      MESH in f && Text(f[MESH], "disabled") == if c.meshStandby then "1" else "0"
  {
    var w := l.staged.wireless;
    TameRadios(c, profile, w);
    StandbyValue(c, profile, MeshRadio(c, w, ApRadio(c, profile, w).value));
    MeshOptionAfter(c, profile, w, "disabled");
  }

  lemma StandbyValue(c: Config, profile: Profile, radio: string)
    requires c.Routed(profile)
    ensures var values := MeshValues(c, profile, radio);
      "disabled" in values && values["disabled"] == if c.meshStandby then "1" else "0"
  {
  }
}
