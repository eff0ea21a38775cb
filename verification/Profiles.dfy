/**
 Applying a Home's profile (internal/profiles/manager.go): the batman-adv layer,
 the mesh and the client APs are authored, committed and reloaded, and then
 checked, falling back to a plain mesh on lan or degrading to wired multi-AP.
 */
module Profiles {
  import opened Wrappers
  import opened Uci
  import opened Radios
  import opened Models
  import opened Sorting
  import B = Batman

  const MESH := "omm_mesh"
  const SYSTEM := "@system[0]"

  datatype Answer = Up | Down | Failed

  // What an interface probe answers at each attempt; None when there is no probe.
  type Inspector = Option<nat -> Answer>

  // The two reads of the wireless package that a run can do without: the mesh
  // radio then falls back to the AP's, and only the main AP is authored.
  datatype Found = Found(mesh: bool, aps: bool)

  const ALL_READ := Found(true, true)

  // lower is strings.ToLower. found is what a run finds it could read; the
  // methods below report it.
  datatype Config = Config(radio: string, meshRadio: string, meshBand: string, attempts: int,
                           batmanEnable: bool, batman: B.Config, meshStandby: bool,
                           meshProbe: Inspector, batmanProbe: Inspector,
                           lower: string -> string, found: Found)
  {
    function Finding(found: Found): Config {
      this.(found := found)
    }

    function WithDefaults(): Config {
      this.(radio := if radio == "" then "radio0" else radio,
            meshBand := if meshBand == "" then "2g" else meshBand,
            attempts := if attempts == 0 then 8 else attempts,
            batman := batman.WithDefaults())
    }

    predicate Routed(profile: Profile) {
      batmanEnable && profile.meshSSID != ""
    }

    // batman-adv is authored but does not come up.
    ghost predicate FallsBack(profile: Profile) {
      Routed(profile) && !AssumedUp(batmanProbe, attempts)
    }

    // The mesh is authored but does not come up, and is no standby.
    ghost predicate Degrades(profile: Profile) {
      profile.meshSSID != "" && !meshStandby && !AssumedUp(meshProbe, attempts)
    }
  }

  // An interface counts as up unless every attempt finds it down.
  ghost predicate AssumedUp(probe: Inspector, attempts: int) {
    probe.Some? ==> exists k: nat :: k <= attempts && probe.value(k) != Down
  }

  // The second to fourth say how far a run got: its first reload, the fallback,
  // the degrade.
  datatype ProfileError =
    | NoRadio(band: string)
    | NotLaunched(error: UciError)
    | NotFallenBack(error: UciError)
    | NotDegraded(error: UciError)
  {
    predicate CallLost() {
      !NoRadio? && error == CallFailed
    }
  }

  // ----- what is authored in the wireless package -----

  function ApSSID(profile: Profile): string {
    if profile.apSSID == "" then profile.meshSSID else profile.apSSID
  }

  function ApKey(profile: Profile): string {
    if profile.apSSID == "" then profile.meshKey else profile.apKey
  }

  function Locked(cipher: string, key: string): map<string, string> {
    if key != "" then map["encryption" := cipher, "key" := key] else map["encryption" := "none"]
  }

  function MeshValues(c: Config, profile: Profile, radio: string): map<string, string> {
    map["device" := radio, "mode" := "mesh", "mesh_id" := profile.meshSSID,
        "network" := if c.Routed(profile) then c.batman.MeshHardif() else "lan"]
    + (if c.Routed(profile) then map["disabled" := if c.meshStandby then "1" else "0"] else map[])
    + Locked("sae", profile.meshKey)
  }

  function MeshEdit(c: Config, profile: Profile, radio: string): Edit {
    Edit(MESH, Some("wifi-iface"), MeshValues(c, profile, radio))
  }

  function Pins(radio: string, option: string, value: string): seq<Edit> {
    if value == "" then [] else [Edit(radio, None, map[option := value])]
  }

  function MeshEdits(c: Config, profile: Profile, radio: string): seq<Edit> {
    if profile.meshSSID == "" then []
    else [MeshEdit(c, profile, radio)] + Pins(radio, "channel", profile.meshChannel)
                                       + Pins(radio, "htmode", profile.meshHTMode)
  }

  function ApValues(profile: Profile, radio: string): map<string, string> {
    map["device" := radio, "mode" := "ap", "ssid" := ApSSID(profile), "network" := "lan"]
    + Locked("psk2", ApKey(profile))
  }

  function ApEdit(profile: Profile, t: Target): Edit {
    Edit(t.section, Some("wifi-iface"), ApValues(profile, t.radio))
  }

  function ApEdits(profile: Profile, ts: seq<Target>): seq<Edit> {
    if ts == [] then [] else ApEdits(profile, ts[..|ts| - 1]) + [ApEdit(profile, ts[|ts| - 1])]
  }

  // Secondary APs a wider profile left behind.
  function Stale(w: Package, keep: set<string>): set<string> {
    set n | n in w && w[n].kind == "wifi-iface" && IsSecondary(n) && n !in keep
  }

  function Enabled(w: Package, radios: set<string>): Package {
    map n | n in w :: if n in radios then w[n].(opts := w[n].opts["disabled" := Scalar("0")]) else w[n]
  }

  // ----- the radios -----

  ghost function ApRadio(c: Config, profile: Profile, w: Package): Option<string> {
    if profile.radio != "" then Some(profile.radio)
    else if profile.band == "" then Some(c.radio)
    else if OfBand(w, profile.band) == {} then None
    else Some(Lowest(w, profile.band))
  }

  ghost function MeshRadio(c: Config, w: Package, apRadio: string): string {
    if c.meshRadio != "" then c.meshRadio
    else if c.found.mesh && OfBand(w, c.meshBand) != {} then Lowest(w, c.meshBand)
    else apRadio
  }

  // The bands of the secondary APs; none if the radios cannot be read.
  function ApBands(c: Config, profile: Profile): seq<string> {
    if !c.found.aps then [] else if profile.apBands == [] then [c.meshBand] else profile.apBands
  }

  ghost function ApTargets(c: Config, profile: Profile, w: Package, apRadio: string): seq<Target> {
    if ApSSID(profile) == "" then [] else Targets(c.lower, w, ApBands(c, profile), apRadio)
  }

  // Everything a run decides before it writes: the edits, the AP sections to keep
  // (when it prunes the others), the radios to enable.
  datatype Plan = Plan(mesh: seq<Edit>, aps: seq<Edit>, keep: Option<set<string>>, radios: set<string>)

  ghost function PlanFor(c: Config, profile: Profile, w: Package): Plan
    requires ApRadio(c, profile, w).Some?
  {
    var apRadio := ApRadio(c, profile, w).value;
    var meshRadio := MeshRadio(c, w, apRadio);
    var mesh := MeshEdits(c, profile, meshRadio);
    var ts := ApTargets(c, profile, Edited(w, mesh), apRadio);
    Plan(mesh, ApEdits(profile, ts),
         if ApSSID(profile) == "" then None else Some(SectionsOf(ts)),
         RadiosOf(ts) + if profile.meshSSID == "" then {} else {meshRadio})
  }

  // The wireless package once its sections are authored and pruned, and then with
  // the radios enabled.
  function Pruned(plan: Plan, w: Package): Package {
    var q := Edited(Edited(w, plan.mesh), plan.aps);
    if plan.keep.None? then q else q - Stale(q, plan.keep.value)
  }

  function Authored(plan: Plan, w: Package): Package {
    Enabled(Pruned(plan, w), plan.radios)
  }

  function OnLan(w: Package): Package {
    EditOne(w, Edit(MESH, None, map["network" := "lan"]))
  }

  // The wireless package a run leaves.
  function WirelessAfter(plan: Plan, fallback: bool, degrade: bool, w: Package): Package {
    var q := if fallback then OnLan(Authored(plan, w)) else Authored(plan, w);
    if degrade then q - {MESH} else q
  }

  // The client APs written into a package and stale ones pruned.
  function WithClients(profile: Profile, ts: seq<Target>, w: Package): Package {
    var q := Edited(w, ApEdits(profile, ts));
    if ApSSID(profile) == "" then w else q - Stale(q, SectionsOf(ts))
  }

  lemma PrunedIs(plan: Plan, profile: Profile, ts: seq<Target>, w: Package)
    requires plan.aps == ApEdits(profile, ts)
    requires plan.keep == if ApSSID(profile) == "" then None else Some(SectionsOf(ts))
    requires ApSSID(profile) == "" ==> ts == []
    ensures Pruned(plan, w) == WithClients(profile, ts, Edited(w, plan.mesh))
  {
  }

  lemma PlanIs(c: Config, profile: Profile, w: Package, apRadio: string, meshRadio: string)
    requires ApRadio(c, profile, w) == Some(apRadio) && meshRadio == MeshRadio(c, w, apRadio)
    ensures var mesh := MeshEdits(c, profile, meshRadio);
      var ts := ApTargets(c, profile, Edited(w, mesh), apRadio);
      var plan := PlanFor(c, profile, w);
      && Pruned(plan, w) == WithClients(profile, ts, Edited(w, mesh))
      && plan.radios == RadiosOf(ts) + (if profile.meshSSID == "" then {} else {meshRadio})
  {
    var mesh := MeshEdits(c, profile, meshRadio);
    PrunedIs(PlanFor(c, profile, w), profile, ApTargets(c, profile, Edited(w, mesh), apRadio), w);
  }

  lemma CanAuthorIs(c: Config, profile: Profile, w: Package, apRadio: string, meshRadio: string)
    requires ApRadio(c, profile, w) == Some(apRadio) && meshRadio == MeshRadio(c, w, apRadio)
    ensures CanAuthorWireless(c, profile, w)
       <==> (profile.meshSSID != "" ==> CanPin(profile, meshRadio, w))
            && PlanFor(c, profile, w).radios <= Pruned(PlanFor(c, profile, w), w).Keys
  {
  }

  // What was read plays no part in the mesh's own options, nor in the network.
  lemma MeshEditsAnyway(c: Config, found: Found, profile: Profile, radio: string)
    ensures MeshEdits(c.Finding(found), profile, radio) == MeshEdits(c, profile, radio)
  {
  }

  lemma NetworkAnyway(c: Config, found: Found, profile: Profile, l: Layers)
    ensures c.Finding(found).Routed(profile) == c.Routed(profile)
    ensures forall routed :: NetworkAfter(c.Finding(found), routed, false, l.staged.network)
                          == NetworkAfter(c, routed, false, l.staged.network)
    ensures BridgeThere(c.Finding(found), profile, l) == BridgeThere(c, profile, l)
  {
  }

  function Named(profile: Profile, p: Package): Package {
    if profile.nodeName == "" then p else EditOne(p, Edit(SYSTEM, None, map["hostname" := profile.nodeName]))
  }

  // ----- a whole run -----

  // The network package a run leaves.
  function NetworkAfter(c: Config, routed: bool, fallback: bool, p: Package): Package {
    if !routed then p
    else if fallback then B.TeardownNet(c.batman, B.ApplyNet(c.batman, p))
    else B.ApplyNet(c.batman, p)
  }

  // Every package written is committed, and everything committed is running.
  function Settled(l: Layers, routed: bool, network: Package, wireless: Package, system: Package): Layers {
    var staged := l.staged.(network := network, wireless := wireless, system := system);
    var committed := l.committed.(network := if routed then network else l.committed.network,
                                  wireless := wireless, system := system);
    Layers(staged, committed, committed)
  }

  // The layers after the first reload, before anything is verified.
  ghost function Launched(c: Config, profile: Profile, l: Layers): Layers
    requires ApRadio(c, profile, l.staged.wireless).Some?
  {
    Settled(l, c.Routed(profile),
            NetworkAfter(c, c.Routed(profile), false, l.staged.network),
            Authored(PlanFor(c, profile, l.staged.wireless), l.staged.wireless),
            Named(profile, l.staged.system))
  }

  // A run staged up to its first commit, and the packages it then commits.
  ghost function Prepared(c: Config, profile: Profile, l: Layers): Layers
    requires ApRadio(c, profile, l.staged.wireless).Some?
  {
    l.(staged := l.staged.(network := NetworkAfter(c, c.Routed(profile), false, l.staged.network),
                           wireless := Authored(PlanFor(c, profile, l.staged.wireless), l.staged.wireless),
                           system := Named(profile, l.staged.system)))
  }

  lemma PreparedIs(c: Config, profile: Profile, l: Layers)
    requires ApRadio(c, profile, l.staged.wireless).Some?
    ensures var networked := Staging(l, Network, NetworkAfter(c, c.Routed(profile), false, l.staged.network));
      var authored := Staging(networked, Wireless, Authored(PlanFor(c, profile, l.staged.wireless), l.staged.wireless));
      Prepared(c, profile, l) == Staging(authored, System, Named(profile, l.staged.system))
  {
  }

  function Order(routed: bool): seq<Pkg> {
    if routed then [Network, Wireless, System] else [Wireless, System]
  }

  lemma LaunchedIs(c: Config, profile: Profile, l: Layers)
    requires ApRadio(c, profile, l.staged.wireless).Some?
    ensures Launched(c, profile, l) == Reloading(CommitEach(Prepared(c, profile, l), Order(c.Routed(profile))))
  {
    CommitEachFew(Prepared(c, profile, l), Network, Wireless, System);
    CommitEachFew(Prepared(c, profile, l), Wireless, System, System);
  }

  // The fallback and the degrade, staged.
  function LanStaged(c: Config, l: Layers): Layers {
    l.(staged := l.staged.(network := B.TeardownNet(c.batman, l.staged.network), wireless := OnLan(l.staged.wireless)))
  }

  function FallenBack(c: Config, l: Layers): Layers {
    Reloading(CommitEach(LanStaged(c, l), [Network, Wireless]))
  }

  function MeshDropped(l: Layers): Layers {
    Staging(l, Wireless, l.staged.wireless - {MESH})
  }

  function Degraded(l: Layers): Layers {
    Reloading(CommitEach(MeshDropped(l), [Wireless]))
  }

  ghost function Final(c: Config, profile: Profile, l: Layers): Layers
    requires ApRadio(c, profile, l.staged.wireless).Some?
  {
    Settled(l, c.Routed(profile),
            NetworkAfter(c, c.Routed(profile), c.FallsBack(profile), l.staged.network),
            WirelessAfter(PlanFor(c, profile, l.staged.wireless), c.FallsBack(profile), c.Degrades(profile), l.staged.wireless),
            Named(profile, l.staged.system))
  }

  // The layers after the fallback, if there is one.
  ghost function Checked(c: Config, profile: Profile, l: Layers): Layers
    requires ApRadio(c, profile, l.staged.wireless).Some?
  {
    if c.FallsBack(profile) then FallenBack(c, Launched(c, profile, l)) else Launched(c, profile, l)
  }

  lemma FinalIs(c: Config, profile: Profile, l: Layers)
    requires ApRadio(c, profile, l.staged.wireless).Some?
    ensures Final(c, profile, l)
         == if c.Degrades(profile) then Degraded(Checked(c, profile, l)) else Checked(c, profile, l)
  {
    var launched, checked := Launched(c, profile, l), Checked(c, profile, l);
    CommitEachFew(LanStaged(c, launched), Network, Wireless, Wireless);
    CommitEachFew(MeshDropped(checked), Wireless, Wireless, Wireless);
  }

  // Nothing committed and nothing reloaded since.
  predicate Untouched(l: Layers, now: Layers) {
    now.committed == l.committed && now.running == l.running
  }

  // Where a failed run leaves the layers: before the first commit of its launch,
  // of the fallback or of the degrade, or between that and the end of the reload.
  ghost predicate StoppedAt(c: Config, profile: Profile, l: Layers, e: ProfileError, now: Layers) {
    match e
    case NoRadio(_) => now == l
    case NotLaunched(_) => LaunchStopped(c, profile, l, now)
    case NotFallenBack(_) =>
      && ApRadio(c, profile, l.staged.wireless).Some?
      && FallbackStopped(c, Launched(c, profile, l), now)
      && (e.error != CallFailed ==> Untouched(Launched(c, profile, l), now))
    case NotDegraded(_) =>
      ApRadio(c, profile, l.staged.wireless).Some? && DegradeStopped(Checked(c, profile, l), now)
  }

  ghost predicate LaunchStopped(c: Config, profile: Profile, l: Layers, now: Layers) {
    Untouched(l, now)
    || (ApRadio(c, profile, l.staged.wireless).Some? && Interrupted(Prepared(c, profile, l), Order(c.Routed(profile)), now))
  }

  ghost predicate FallbackStopped(c: Config, l: Layers, now: Layers) {
    Untouched(l, now) || Interrupted(LanStaged(c, l), [Network, Wireless], now)
  }

  ghost predicate DegradeStopped(l: Layers, now: Layers) {
    Untouched(l, now) || Interrupted(MeshDropped(l), [Wireless], now)
  }

  // Every package a run writes is the same staged, committed and running.
  ghost predicate NothingPending(routed: bool, l: Layers) {
    && l.running == l.committed && l.staged.wireless == l.committed.wireless && l.staged.system == l.committed.system
    && (routed ==> l.staged.network == l.committed.network)
  }

  ghost function Outcome(c: Config, profile: Profile): BackhaulState {
    if profile.meshSSID == "" then BackhaulState(ModeMultiAP, false)
    else if c.Degrades(profile) then BackhaulState(ModeMultiAP, true)
    else BackhaulState(Mode80211s, false)
  }

  // The mesh radio's channel and width can be pinned.
  predicate CanPin(profile: Profile, radio: string, w: Package) {
    (profile.meshChannel == "" && profile.meshHTMode == "") || radio in w || radio == MESH
  }

  // Every write of a run before its first commit finds its section.
  ghost predicate CanAuthorWireless(c: Config, profile: Profile, w: Package) {
    && ApRadio(c, profile, w).Some?
    && (profile.meshSSID != "" ==> CanPin(profile, MeshRadio(c, w, ApRadio(c, profile, w).value), w))
    && PlanFor(c, profile, w).radios <= Pruned(PlanFor(c, profile, w), w).Keys
  }

  ghost predicate CanAuthor(c: Config, profile: Profile, l: Layers) {
    CanAuthorWireless(c, profile, l.staged.wireless) && (profile.nodeName != "" ==> SYSTEM in l.staged.system)
  }

  ghost predicate CanFallBack(c: Config, profile: Profile, l: Layers) {
    c.FallsBack(profile) ==> B.CanTeardown(c.batman, B.ApplyNet(c.batman, l.staged.network))
  }

  ghost predicate BridgeThere(c: Config, profile: Profile, l: Layers) {
    c.Routed(profile) ==> B.LanThere(c.batman, l.staged.network)
  }

  class Manager {
    const uci: Client
    const cfg: Config

    constructor (uci: Client, cfg: Config)
      ensures Valid() && this.uci == uci && this.cfg == cfg.WithDefaults()
    {
      this.uci, this.cfg := uci, cfg.WithDefaults();
    }

    ghost predicate Valid() {
      cfg == cfg.WithDefaults()
    }

    ghost function Wifi(): Package
      reads uci
    {
      uci.staged.wireless
    }

    ghost function Over(w: Package): Layers
      reads uci
    {
      Staging(uci.Now(), Wireless, w)
    }

    method ResolveRadio(profile: Profile) returns (r: Result<string, ProfileError>)
      requires "" !in Wifi()
      ensures r.Ok? ==> ApRadio(cfg, profile, Wifi()) == Some(r.value)
      ensures r.Err? ==> (r == Err(NotLaunched(CallFailed))
                          || (r == Err(NoRadio(profile.band)) && ApRadio(cfg, profile, Wifi()).None?))
    {
      if profile.radio != "" {
        return Ok(profile.radio);
      }
      if profile.band != "" {
        var sections := uci.Sections(Wireless);
        if sections.Err? {
          return Err(NotLaunched(sections.error));
        }
        var found := LowestRadioForBand(sections.value, profile.band);
        if found == "" {
          return Err(NoRadio(profile.band));
        }
        return Ok(found);
      }
      r := Ok(cfg.radio);
    }

    method ResolveMeshRadio(apRadio: string) returns (radio: string, ghost read: bool)
      requires "" !in Wifi()
      ensures radio == MeshRadio(cfg.Finding(ALL_READ), Wifi(), apRadio) || (cfg.meshRadio == "" && radio == apRadio)
      ensures radio == MeshRadio(cfg.Finding(Found(read, true)), Wifi(), apRadio)
    {
      read := true;
      if cfg.meshRadio != "" {
        return cfg.meshRadio, read;
      }
      var sections := uci.Sections(Wireless);
      if sections.Err? {
        return apRadio, false;
      }
      var found := LowestRadioForBand(sections.value, cfg.meshBand);
      radio := if found != "" then found else apRadio;
    }

    // An unreadable wireless package leaves the main AP alone.
    method ResolveAPTargets(profile: Profile, apRadio: string) returns (ts: seq<Target>, ghost read: bool)
      requires "" !in Wifi() && ApSSID(profile) != ""
      ensures ts == ApTargets(cfg.Finding(ALL_READ), profile, Wifi(), apRadio) || ts == [Target(AP, apRadio)]
      ensures forall mesh :: ts == ApTargets(cfg.Finding(Found(mesh, read)), profile, Wifi(), apRadio)
    {
      var sections := uci.Sections(Wireless);
      read := sections.Ok?;
      if sections.Err? {
        return [Target(AP, apRadio)], read;
      }
      var bands := if profile.apBands == [] then [cfg.meshBand] else profile.apBands;
      ts := ResolveTargets(cfg.lower, sections.value, bands, apRadio);
    }

    method MeshSettings(profile: Profile, radio: string) returns (values: map<string, string>)
      ensures values == MeshValues(cfg, profile, radio)
    {
      var network, standby := "lan", map[];
      if cfg.Routed(profile) {
        network := cfg.batman.MeshHardif();
        standby := map["disabled" := if cfg.meshStandby then "1" else "0"];
      }
      var lock := map["encryption" := "none"];
      if profile.meshKey != "" {
        lock := map["encryption" := "sae", "key" := profile.meshKey];
      }
      values := map["device" := radio, "mode" := "mesh", "mesh_id" := profile.meshSSID, "network" := network] + standby + lock;
    }

    method AuthorMesh(profile: Profile, radio: string) returns (r: Result<(), UciError>)
      requires profile.meshSSID != ""
      modifies uci
      ensures uci.Now() == old(uci.Now()).(staged := uci.staged)
      ensures Decides(r, CanPin(profile, radio, old(Wifi())))
      ensures r.Ok? ==> uci.Now() == old(Over(Edited(Wifi(), MeshEdits(cfg, profile, radio))))
    {
      var values := MeshSettings(profile, radio);
      ghost var w := Wifi();
      var first := MeshEdit(cfg, profile, radio);
      EditedFew(w, first, first);
      r := uci.SetSection(Wireless, MESH, "wifi-iface", values);
      if r.Err? {
        return r;
      }
      r := Pin(radio, "channel", profile.meshChannel);
      if r.Err? {
        return r;
      }
      EditedConcat(w, [first], Pins(radio, "channel", profile.meshChannel));
      r := Pin(radio, "htmode", profile.meshHTMode);
      EditedConcat(w, [first] + Pins(radio, "channel", profile.meshChannel), Pins(radio, "htmode", profile.meshHTMode));
    }

    method Pin(radio: string, option: string, value: string) returns (r: Result<(), UciError>)
      modifies uci
      ensures Decides(r, value == "" || radio in old(Wifi()))
      ensures uci.Now() == if r.Ok? then old(Over(Edited(Wifi(), Pins(radio, option, value)))) else old(uci.Now())
    {
      if value == "" {
        return Ok(());
      }
      r := uci.Set(Wireless, radio, option, value);
      EditedFew(old(Wifi()), Pins(radio, option, value)[0], Pins(radio, option, value)[0]);
    }

    method ApOptions(profile: Profile, radio: string) returns (ap: map<string, string>)
      ensures ap == ApValues(profile, radio)
    {
      ap := map["device" := radio, "mode" := "ap", "ssid" := ApSSID(profile), "network" := "lan"];
      if ApKey(profile) != "" {
        ap := ap["encryption" := "psk2"]["key" := ApKey(profile)];
      } else {
        ap := ap["encryption" := "none"];
      }
    }

    method AuthorAPs(profile: Profile, ts: seq<Target>) returns (r: Result<(), UciError>)
      modifies uci
      ensures uci.Now() == old(uci.Now()).(staged := uci.staged)
      ensures Decides(r, true)
      ensures r.Ok? ==> uci.Now() == old(Over(Edited(Wifi(), ApEdits(profile, ts))))
    {
      for i := 0 to |ts|
        invariant uci.Now() == old(Over(Edited(Wifi(), ApEdits(profile, ts[..i]))))
      {
        assert ts[..i + 1][..i] == ts[..i];
        EditedSnoc(old(Wifi()), ApEdits(profile, ts[..i]), ApEdit(profile, ts[i]));
        var ap := ApOptions(profile, ts[i].radio);
        r := uci.SetSection(Wireless, ts[i].section, "wifi-iface", ap);
        if r.Err? {
          return r;
        }
      }
      assert ts[..|ts|] == ts;
      r := Ok(());
    }

    // The sections come in any order.
    method PruneStale(keep: set<string>) returns (r: Result<(), UciError>)
      modifies uci
      ensures uci.Now() == old(uci.Now()).(staged := uci.staged)
      ensures Decides(r, true)
      ensures r.Ok? ==> uci.Now() == old(Over(Wifi() - Stale(Wifi(), keep)))
    {
      var got := uci.Sections(Wireless);
      if got.Err? {
        return Err(got.error);
      }
      var sections := got.value;
      var left := sections.Keys;
      while left != {}
        invariant left <= sections.Keys
        invariant uci.Now() == old(Over(Wifi() - (Stale(Wifi(), keep) - left)))
        decreases left
      {
        var name :| name in left;
        left := left - {name};
        if sections[name].kind == "wifi-iface" && IsSecondary(name) && name !in keep {
          assert old(Wifi()) - (Stale(old(Wifi()), keep) - (left + {name})) - {name}
              == old(Wifi()) - (Stale(old(Wifi()), keep) - left);
          r := uci.Delete(Wireless, name);
          if r.Err? {
            return r;
          }
        } else {
          assert Stale(old(Wifi()), keep) - (left + {name}) == Stale(old(Wifi()), keep) - left;
        }
      }
      assert Stale(old(Wifi()), keep) - {} == Stale(old(Wifi()), keep);
      r := Ok(());
    }

    method EnableRadios(radios: set<string>) returns (r: Result<(), UciError>)
      modifies uci
      ensures uci.Now() == old(uci.Now()).(staged := uci.staged)
      ensures Decides(r, radios <= old(Wifi()).Keys)
      ensures r.Ok? ==> uci.Now() == old(Over(Enabled(Wifi(), radios)))
    {
      var left := radios;
      assert Enabled(old(Wifi()), {}) == old(Wifi());
      assert radios - left == {};
      while left != {}
        invariant left <= radios && radios - left <= old(Wifi()).Keys
        invariant uci.Now() == old(Over(Enabled(Wifi(), radios - left)))
        decreases left
      {
        var radio :| radio in left;
        EnableOneMore(old(Wifi()), radios - left, radio);
        assert radios - (left - {radio}) == radios - left + {radio};
        left := left - {radio};
        r := uci.Set(Wireless, radio, "disabled", "0");
        if r.Err? {
          return r;
        }
      }
      assert radios - {} == radios;
      r := Ok(());
    }

    // The mesh and the client APs; enable is every radio they are on.
    method AuthorSections(profile: Profile, apRadio: string, meshRadio: string, ghost mesh: bool)
      returns (enable: set<string>, r: Result<(), UciError>, ghost found: Found)
      requires "" !in Wifi() && ApRadio(cfg, profile, Wifi()) == Some(apRadio)
      requires meshRadio == MeshRadio(cfg.Finding(Found(mesh, true)), Wifi(), apRadio)
      modifies uci
      ensures uci.Now() == old(uci.Now()).(staged := uci.staged)
      ensures found.mesh == mesh && ApRadio(cfg.Finding(found), profile, old(Wifi())) == Some(apRadio)
      ensures meshRadio == MeshRadio(cfg.Finding(found), old(Wifi()), apRadio)
      ensures Decides(r, profile.meshSSID != "" ==> CanPin(profile, meshRadio, old(Wifi())))
      ensures r.Ok? ==> uci.Now() == old(Over(Pruned(PlanFor(cfg.Finding(found), profile, Wifi()), Wifi())))
      ensures r.Ok? ==> enable == PlanFor(cfg.Finding(found), profile, old(Wifi())).radios
    {
      found := Found(mesh, true);
      ghost var w := Wifi();
      enable := {};
      if profile.meshSSID != "" {
        r := AuthorMesh(profile, meshRadio);
        if r.Err? {
          return;
        }
        enable := {meshRadio};
      }
      assert Wifi() == Edited(w, MeshEdits(cfg, profile, meshRadio));
      MeshIsNamed(cfg, profile, meshRadio, w);
      enable, found, r := AuthorClients(profile, apRadio, enable, mesh);
      MeshEditsAnyway(cfg, found, profile, meshRadio);
      PlanIs(cfg.Finding(found), profile, w, apRadio, meshRadio);
    }

    method AuthorWireless(profile: Profile, apRadio: string, meshRadio: string, ghost mesh: bool)
      returns (r: Result<(), UciError>, ghost found: Found)
      requires "" !in Wifi() && ApRadio(cfg, profile, Wifi()) == Some(apRadio)
      requires meshRadio == MeshRadio(cfg.Finding(Found(mesh, true)), Wifi(), apRadio)
      modifies uci
      ensures uci.Now() == old(uci.Now()).(staged := uci.staged)
      ensures found.mesh == mesh && ApRadio(cfg.Finding(found), profile, old(Wifi())).Some?
      ensures Decides(r, CanAuthorWireless(cfg.Finding(found), profile, old(Wifi())))
      ensures r.Ok? ==> uci.Now() == old(Over(Authored(PlanFor(cfg.Finding(found), profile, Wifi()), Wifi())))
    {
      var enable;
      enable, r, found := AuthorSections(profile, apRadio, meshRadio, mesh);
      CanAuthorIs(cfg.Finding(found), profile, old(Wifi()), apRadio, meshRadio);
      if r.Ok? {
        r := EnableRadios(enable);
      }
    }

    // The client APs, resolved after the mesh is authored, and the radios to
    // enable for them too.
    method AuthorClients(profile: Profile, apRadio: string, others: set<string>, ghost mesh: bool)
      returns (enable: set<string>, ghost found: Found, r: Result<(), UciError>)
      requires "" !in Wifi()
      modifies uci
      ensures uci.Now() == old(uci.Now()).(staged := uci.staged)
      ensures Decides(r, true) && found.mesh == mesh
      ensures r.Ok? ==>
                var ts := ApTargets(cfg.Finding(found), profile, old(Wifi()), apRadio);
                enable == RadiosOf(ts) + others && uci.Now() == old(Over(WithClients(profile, ts, Wifi())))
    {
      enable, found, r := others, Found(mesh, true), Ok(());
      if ApSSID(profile) != "" {
        var ts;
        ghost var aps;
        ts, aps := ResolveAPTargets(profile, apRadio);
        found := Found(mesh, aps);
        assert ts == ApTargets(cfg.Finding(found), profile, old(Wifi()), apRadio);
        r := AuthorAPs(profile, ts);
        if r.Err? {
          return;
        }
        ghost var q := old(Edited(Wifi(), ApEdits(profile, ts)));
        assert Wifi() == q;
        r := PruneStale(SectionsOf(ts));
        assert r.Ok? ==> uci.Now() == old(Over(q - Stale(q, SectionsOf(ts))));
        enable := RadiosOf(ts) + others;
      } else {
        assert ApTargets(cfg.Finding(found), profile, old(Wifi()), apRadio) == [];
        assert RadiosOf([]) + others == others;
        assert uci.Now() == old(Over(Wifi()));
      }
    }

    method AuthorBatman(profile: Profile) returns (bm: B.Manager?, r: Result<(), UciError>)
      requires Valid()
      modifies uci
      ensures bm != null <==> cfg.Routed(profile)
      ensures bm != null ==> bm.uci == uci && bm.cfg == cfg.batman
      ensures uci.Now() == Staging(old(uci.Now()), Network, uci.staged.network)
      ensures r.Ok? ==> uci.staged.network == NetworkAfter(cfg, bm != null, false, old(uci.staged.network))
      ensures BridgeThere(cfg, profile, old(uci.Now())) ==> Decides(r, true)
    {
      bm, r := null, Ok(());
      if cfg.Routed(profile) {
        bm := new B.Manager(uci, cfg.batman);
        r := bm.Apply();
      }
    }

    method NameNode(profile: Profile) returns (r: Result<(), UciError>)
      modifies uci
      ensures Decides(r, profile.nodeName != "" ==> SYSTEM in old(uci.staged.system))
      ensures uci.Now() == if r.Ok? then Staging(old(uci.Now()), System, Named(profile, old(uci.staged.system))) else old(uci.Now())
    {
      r := Ok(());
      if profile.nodeName != "" {
        r := uci.Set(System, SYSTEM, "hostname", profile.nodeName);
      }
    }

    // Every section of a run, with its radios resolved.
    method Author(profile: Profile, apRadio: string, meshRadio: string, ghost mesh: bool)
      returns (bm: B.Manager?, r: Result<(), UciError>, ghost found: Found)
      requires Valid() && "" !in Wifi() && ApRadio(cfg, profile, Wifi()) == Some(apRadio)
      requires meshRadio == MeshRadio(cfg.Finding(Found(mesh, true)), Wifi(), apRadio)
      modifies uci
      ensures bm != null ==> bm.uci == uci && bm.cfg == cfg.batman
      ensures bm != null <==> cfg.Routed(profile)
      ensures Untouched(old(uci.Now()), uci.Now())
      ensures ApRadio(cfg.Finding(found), profile, old(Wifi())).Some?
      ensures r.Ok? ==> CanAuthor(cfg.Finding(found), profile, old(uci.Now()))
                        && uci.Now() == Prepared(cfg.Finding(found), profile, old(uci.Now()))
      ensures BridgeThere(cfg, profile, old(uci.Now())) ==> Decides(r, CanAuthor(cfg.Finding(found), profile, old(uci.Now())))
    {
      found := ALL_READ;
      bm, r := AuthorBatman(profile);
      if r.Err? {
        return;
      }
      r, found := AuthorWireless(profile, apRadio, meshRadio, mesh);
      if r.Err? {
        return;
      }
      NetworkAnyway(cfg, found, profile, old(uci.Now()));
      PreparedIs(cfg.Finding(found), profile, old(uci.Now()));
      r := NameNode(profile);
    }

    // Everything up to the first commit.
    method Prepare(profile: Profile) returns (bm: B.Manager?, r: Result<(), ProfileError>, ghost found: Found)
      requires Valid() && "" !in Wifi()
      modifies uci
      ensures bm != null ==> bm.uci == uci && bm.cfg == cfg.batman
      ensures Untouched(old(uci.Now()), uci.Now())
      ensures r.Ok? ==> (bm != null <==> cfg.Routed(profile)) && CanAuthor(cfg.Finding(found), profile, old(uci.Now()))
                        && uci.Now() == Prepared(cfg.Finding(found), profile, old(uci.Now()))
      ensures r.Err? ==> r.error.NoRadio? || r.error.NotLaunched?
      ensures r.Err? && r.error.NoRadio? ==>
                ApRadio(cfg.Finding(found), profile, old(Wifi())).None? && uci.Now() == old(uci.Now())
      ensures r.Err? && !r.error.CallLost() ==>
                !(CanAuthor(cfg.Finding(found), profile, old(uci.Now())) && BridgeThere(cfg, profile, old(uci.Now())))
    {
      bm, found := null, ALL_READ;
      var apRadio := ResolveRadio(profile);
      if apRadio.Err? {
        r := Err(apRadio.error);
        return;
      }
      ghost var mesh;
      var meshRadio, ok;
      meshRadio, mesh := ResolveMeshRadio(apRadio.value);
      bm, ok, found := Author(profile, apRadio.value, meshRadio, mesh);
      r := if ok.Ok? then Ok(()) else Err(NotLaunched(ok.error));
    }

    // The commits of a launch, and its reload.
    method CommitLaunch(routed: bool) returns (r: Result<(), UciError>)
      modifies uci
      ensures Decides(r, true)
      ensures r.Ok? ==> uci.Now() == Reloading(CommitEach(old(uci.Now()), Order(routed)))
      ensures r.Err? ==> Interrupted(old(uci.Now()), Order(routed), uci.Now())
    {
      ghost var l, order, k := uci.Now(), Order(routed), 0;
      assert order[..0] == [];
      if routed {
        r := uci.Commit(Network);
        if r.Err? {
          assert uci.Now() == CommitEach(l, order[..0]);
          return;
        }
        k := 1;
      }
      CommitEachStep(l, order, k);
      r := uci.Commit(Wireless);
      if r.Err? {
        assert uci.Now() == CommitEach(l, order[..k]);
        return;
      }
      CommitEachStep(l, order, k + 1);
      r := uci.Commit(System);
      if r.Err? {
        assert uci.Now() == CommitEach(l, order[..k + 1]);
        return;
      }
      assert order[..|order|] == order && uci.Now() == CommitEach(l, order);
      r := uci.Reload();
      if r.Err? && uci.Now() == CommitEach(l, order) {
        assert uci.Now() == CommitEach(l, order[..|order|]);
      }
    }

    // Everything up to the first reload.
    method Launch(profile: Profile) returns (bm: B.Manager?, r: Result<(), ProfileError>, ghost found: Found)
      requires Valid() && "" !in Wifi()
      modifies uci
      ensures bm != null ==> bm.uci == uci && bm.cfg == cfg.batman
      ensures var c := cfg.Finding(found);
        && (r.Ok? ==> (bm != null <==> c.Routed(profile)) && CanAuthor(c, profile, old(uci.Now())))
        && (r.Ok? ==> uci.Now() == Launched(c, profile, old(uci.Now())))
        && (r.Err? ==> (r.error.NoRadio? || r.error.NotLaunched?) && StoppedAt(c, profile, old(uci.Now()), r.error, uci.Now()))
        && (r.Err? && r.error.NoRadio? ==> ApRadio(c, profile, old(Wifi())).None?)
        && (r.Err? && !r.error.CallLost() ==>
              !(CanAuthor(c, profile, old(uci.Now())) && BridgeThere(c, profile, old(uci.Now()))))
    {
      bm, r, found := Prepare(profile);
      NetworkAnyway(cfg, found, profile, old(uci.Now()));
      if r.Err? {
        return;
      }
      LaunchedIs(cfg.Finding(found), profile, old(uci.Now()));
      var ok := CommitLaunch(bm != null);
      r := if ok.Ok? then Ok(()) else Err(NotLaunched(ok.error));
    }

    method BatmanFallback(bm: B.Manager) returns (r: Result<(), UciError>)
      requires bm.uci == uci && bm.cfg == cfg.batman && MESH in Wifi()
      modifies uci
      ensures AssumedUp(cfg.batmanProbe, cfg.attempts) ==> r.Ok? && uci.Now() == old(uci.Now())
      ensures !AssumedUp(cfg.batmanProbe, cfg.attempts) ==>
                && Decides(r, B.CanTeardown(cfg.batman, old(uci.staged.network)))
                && (r.Ok? ==> uci.Now() == FallenBack(cfg, old(uci.Now())))
      ensures r.Err? ==> FallbackStopped(cfg, old(uci.Now()), uci.Now())
      ensures r.Err? && r.error != CallFailed ==> Untouched(old(uci.Now()), uci.Now())
    {
      var up := Poll(cfg.batmanProbe);
      if up {
        return Ok(());
      }
      r := uci.Set(Wireless, MESH, "network", "lan");
      if r.Err? {
        return r;
      }
      r := bm.Teardown();
      if r.Err? {
        return r;
      }
      ghost var l, pkgs := uci.Now(), [Network, Wireless];
      assert l == LanStaged(cfg, old(uci.Now()));
      CommitEachFew(l, Network, Wireless, Wireless);
      assert pkgs[..0] == [] && pkgs[..1] == [Network] && pkgs[..2] == pkgs;
      r := uci.Commit(Network);
      if r.Err? {
        assert uci.Now() == CommitEach(l, pkgs[..0]);
        return r;
      }
      r := uci.Commit(Wireless);
      if r.Err? {
        assert uci.Now() == CommitEach(l, pkgs[..1]);
        return r;
      }
      assert uci.Now() == CommitEach(l, pkgs[..2]);
      r := uci.Reload();
    }

    method VerifyBackhaul(profile: Profile) returns (r: Result<BackhaulState, UciError>)
      modifies uci
      ensures Decides(r, cfg.Degrades(profile) ==> MESH in old(Wifi()))
      ensures r.Ok? ==> r.value == Outcome(cfg, profile)
      ensures r.Ok? ==> uci.Now() == if cfg.Degrades(profile) then Degraded(old(uci.Now())) else old(uci.Now())
      ensures r.Err? ==> DegradeStopped(old(uci.Now()), uci.Now())
    {
      if profile.meshSSID == "" {
        return Ok(BackhaulState(ModeMultiAP, false));
      }
      if cfg.meshStandby {
        return Ok(BackhaulState(Mode80211s, false));
      }
      var up := Poll(cfg.meshProbe);
      if up {
        return Ok(BackhaulState(Mode80211s, false));
      }
      var ok := uci.Delete(Wireless, MESH);
      if ok.Err? {
        return Err(ok.error);
      }
      ghost var l, pkgs := uci.Now(), [Wireless];
      CommitEachFew(l, Wireless, Wireless, Wireless);
      assert pkgs[..0] == [] && pkgs[..1] == pkgs;
      ok := uci.Commit(Wireless);
      if ok.Err? {
        assert uci.Now() == CommitEach(l, pkgs[..0]);
        return Err(ok.error);
      }
      assert uci.Now() == CommitEach(l, pkgs[..1]);
      ok := uci.Reload();
      if ok.Err? {
        return Err(ok.error);
      }
      r := Ok(BackhaulState(ModeMultiAP, true));
    }

    // What a run leaves when it succeeds; when it does, provided every call gets
    // its answer; and where a failed one stops. Only the fallback and the degrade
    // come after a reload: when the teardown cannot be done the system runs on with
    // the mesh on a bat0 that is not up.
    method ApplyProfile(profile: Profile) returns (r: Result<BackhaulState, ProfileError>, ghost found: Found)
      requires Valid() && "" !in Wifi()
      modifies uci
      ensures var c, l := cfg.Finding(found), old(uci.Now());
        && (r.Ok? ==> r.value == Outcome(c, profile) && CanAuthor(c, profile, l) && CanFallBack(c, profile, l))
        && (r.Ok? ==> uci.Now() == Final(c, profile, l) && NothingPending(c.Routed(profile), uci.Now()))
        && (r.Err? ==> StoppedAt(c, profile, l, r.error, uci.Now()))
        && (r.Err? && r.error.NoRadio? ==> ApRadio(c, profile, l.staged.wireless).None?)
        && (r.Err? && !r.error.CallLost() ==>
              !(CanAuthor(c, profile, l) && BridgeThere(c, profile, l) && CanFallBack(c, profile, l)))
    {
      var bm, ok;
      bm, ok, found := Launch(profile);
      if ok.Err? {
        r := Err(ok.error);
        return;
      }
      ghost var c, l := cfg.Finding(found), old(uci.Now());
      MeshIsAuthored(c, profile, l.staged.wireless);
      if bm != null {
        var fell := BatmanFallback(bm);
        if fell.Err? {
          r := Err(NotFallenBack(fell.error));
          return;
        }
      }
      assert uci.Now() == Checked(c, profile, l);
      CheckedHasMesh(c, profile, l);
      FinalIs(c, profile, l);
      var state := VerifyBackhaul(profile);
      r := if state.Ok? then Ok(state.value) else Err(NotDegraded(state.error));
    }

    method Poll(probe: Inspector) returns (up: bool)
      ensures up <==> AssumedUp(probe, cfg.attempts)
    {
      if probe.None? {
        return true;
      }
      var attempt := 0;
      while attempt <= cfg.attempts
        invariant 0 <= attempt
        invariant forall k: nat :: k < attempt ==> probe.value(k) == Down
        decreases cfg.attempts - attempt
      {
        if probe.value(attempt) != Down {
          return true;
        }
        attempt := attempt + 1;
      }
      up := false;
    }
  }

  lemma MeshTouched(c: Config, profile: Profile, radio: string)
    ensures Touched(MeshEdits(c, profile, radio))
         == if profile.meshSSID == "" then {}
            else {MESH} + if profile.meshChannel == "" && profile.meshHTMode == "" then {} else {radio}
  {
    if profile.meshSSID != "" {
      var es := MeshEdits(c, profile, radio);
      assert es[0] == MeshEdit(c, profile, radio);
      assert profile.meshChannel != "" ==> es[1].section == radio;
      assert profile.meshHTMode != "" ==> es[|es| - 1].section == radio;
    }
  }

  lemma MeshIsNamed(c: Config, profile: Profile, radio: string, w: Package)
    requires "" !in w && (profile.meshSSID != "" ==> CanPin(profile, radio, w))
    ensures "" !in Edited(w, MeshEdits(c, profile, radio))
  {
    MeshTouched(c, profile, radio);
    EditedAt(w, MeshEdits(c, profile, radio), "");
  }

  lemma MeshIsNotSecondary()
    ensures !IsSecondary(MESH) && MESH != AP
  {
    assert MESH[4] == 'm' && (AP + "_")[4] == 'a';
  }

  // What a plan leaves of the mesh section's name: pruning spares it.
  lemma AuthoredNames(plan: Plan, w: Package, n: string)
    requires !IsSecondary(n)
    ensures n in Authored(plan, w) <==> n in w || n in Touched(plan.mesh) || n in Touched(plan.aps)
  {
    EditedAt(w, plan.mesh, n);
    EditedAt(Edited(w, plan.mesh), plan.aps, n);
  }

  lemma MeshIsAuthored(c: Config, profile: Profile, w: Package)
    requires ApRadio(c, profile, w).Some?
    ensures profile.meshSSID != "" ==> MESH in Authored(PlanFor(c, profile, w), w)
  {
    MeshTouched(c, profile, MeshRadio(c, w, ApRadio(c, profile, w).value));
    MeshIsNotSecondary();
    AuthoredNames(PlanFor(c, profile, w), w, MESH);
  }

  lemma CheckedHasMesh(c: Config, profile: Profile, l: Layers)
    requires ApRadio(c, profile, l.staged.wireless).Some?
    ensures profile.meshSSID != "" ==> MESH in Checked(c, profile, l).staged.wireless
  {
    MeshIsAuthored(c, profile, l.staged.wireless);
    CommitEachFew(LanStaged(c, Launched(c, profile, l)), Network, Wireless, Wireless);
  }

  lemma EnableOneMore(w: Package, on: set<string>, radio: string)
    ensures radio in w ==> Enabled(w, on + {radio}) == EditOne(Enabled(w, on), Edit(radio, None, map["disabled" := "0"]))
  {
    if radio in w {
      var s := Enabled(w, on)[radio];
      assert s.opts + Scalars(map["disabled" := "0"]) == s.opts["disabled" := Scalar("0")] == w[radio].opts["disabled" := Scalar("0")];
    }
  }
}
