/**
 The network posture of a node (internal/netposture/apply.go), the other writer
 of the LAN bridge's ports.
 */
module Netposture {
  import opened Wrappers
  import opened Lists
  import opened Uci
  import Batman
  import P = PortPartition

  datatype Role = Guest | Controller | MeshNode | Other(name: string)

  datatype Config = Config(uplinkPort: string, lanDevice: string)

  datatype PostureError = UnknownRole(name: string) | UciFailed(error: UciError)

  // One scalar write.
  datatype Assign = Assign(pkg: Pkg, section: string, option: string, value: string)

  function Assigns(role: Role): seq<Assign> {
    match role
    case Controller =>
      [Assign(Network, "wan", "disabled", "0"), Assign(Network, "wan6", "disabled", "0"),
       Assign(Dhcp, "lan", "ignore", "0")]
    case _ =>
      [Assign(Network, "lan", "proto", "dhcp"), Assign(Network, "wan", "disabled", "1"),
       Assign(Network, "wan6", "disabled", "1"), Assign(Dhcp, "lan", "ignore", "1")]
  }

  // The edits a list of assignments makes to one package.
  function EditsFor(assigns: seq<Assign>, pkg: Pkg): seq<Edit> {
    if assigns == [] then []
    else
      var a := assigns[|assigns| - 1];
      EditsFor(assigns[..|assigns| - 1], pkg)
      + if a.pkg == pkg then [Edit(a.section, None, map[a.option := a.value])] else []
  }

  function Assigned(l: Layers, assigns: seq<Assign>): Layers {
    l.(staged := Files(Edited(l.staged.network, EditsFor(assigns, Network)),
                       Edited(l.staged.wireless, EditsFor(assigns, Wireless)),
                       Edited(l.staged.system, EditsFor(assigns, System)),
                       Edited(l.staged.dhcp, EditsFor(assigns, Dhcp))))
  }

  // The wired uplink: the configured port, or the device of wan if that can be
  // read, or none.
  function Uplink(cfg: Config, p: Package, read: bool): string {
    var dev := GetFrom(p, "wan", "device");
    if cfg.uplinkPort != "" then cfg.uplinkPort
    else if read && dev.Ok? then dev.value else ""
  }

  function Bridging(cfg: Config, role: Role, p: Package, read: bool): Package {
    var uplink := Uplink(cfg, p, read);
    if uplink == "" || cfg.lanDevice == "" then p
    else if role.Controller? then p[cfg.lanDevice := DelItem(At(p, cfg.lanDevice), Batman.PORTS, uplink)]
    else p[cfg.lanDevice := AddItem(At(p, cfg.lanDevice), Batman.PORTS, uplink)]
  }

  // A posture staged: the bridge edited and the options assigned.
  function Posed(cfg: Config, role: Role, l: Layers, read: bool): Layers {
    Assigned(Staging(l, Network, Bridging(cfg, role, l.staged.network, read)), Assigns(role))
  }

  // What a successful posture leaves: both packages committed too, and the system
  // reloaded.
  function Postured(cfg: Config, role: Role, l: Layers, read: bool): Layers {
    Reloading(CommitEach(Posed(cfg, role, l, read), [Network, Dhcp]))
  }

  // Every option assigned has its section.
  ghost predicate AllThere(assigns: seq<Assign>, f: Files) {
    forall a :: a in assigns ==> a.section in f.Of(a.pkg)
  }

  // Every write of a posture finds its section.
  ghost predicate CanPose(cfg: Config, role: Role, l: Layers, read: bool) {
    && (Uplink(cfg, l.staged.network, read) != "" && cfg.lanDevice != "" ==> cfg.lanDevice in l.staged.network)
    && AllThere(Assigns(role), l.staged)
  }

  // The same sections in every package.
  ghost predicate SameSections(f: Files, g: Files) {
    && f.network.Keys == g.network.Keys && f.wireless.Keys == g.wireless.Keys
    && f.system.Keys == g.system.Keys && f.dhcp.Keys == g.dhcp.Keys
  }

  class Manager {
    const uci: Client
    const cfg: Config

    constructor (uci: Client, cfg: Config)
      ensures this.uci == uci && this.cfg == cfg
    {
      this.uci, this.cfg := uci, cfg;
    }

    // read says whether the device of wan could be read, if it was. A posture
    // fails only for want of a section or of an answered call; it has then
    // committed nothing, or stopped between its commits and the end of its reload.
    method Apply(role: Role) returns (r: Result<(), PostureError>, ghost read: bool)
      modifies uci
      ensures role.Other? <==> r.Err? && r.error.UnknownRole?
      ensures role.Other? ==> uci.Now() == old(uci.Now())
      ensures r.Ok? ==> CanPose(cfg, role, old(uci.Now()), read)
      ensures r.Err? && r.error.UciFailed? && r.error.error != CallFailed ==> !CanPose(cfg, role, old(uci.Now()), read)
      ensures r.Ok? ==> uci.Now() == Postured(cfg, role, old(uci.Now()), read)
      ensures r.Err? ==> ((uci.committed == old(uci.committed) && uci.running == old(uci.running))
                          || Interrupted(Posed(cfg, role, old(uci.Now()), read), [Network, Dhcp], uci.Now()))
    {
      match role
      case Other(name) => r, read := Err(UnknownRole(name)), true;
      case _ =>
        var ok;
        ok, read := ApplyRole(role);
        r := if ok.Ok? then Ok(()) else Err(UciFailed(ok.error));
    }

    // The bridged dumb-AP posture of guests and mesh nodes adds the uplink; the
    // controller posture takes it out.
    method ApplyRole(role: Role) returns (r: Result<(), UciError>, ghost read: bool)
      modifies uci
      ensures Decides(r, CanPose(cfg, role, old(uci.Now()), read))
      ensures r.Ok? ==> uci.Now() == Postured(cfg, role, old(uci.Now()), read)
      ensures r.Err? ==> ((uci.committed == old(uci.committed) && uci.running == old(uci.running))
                          || Interrupted(Posed(cfg, role, old(uci.Now()), read), [Network, Dhcp], uci.Now()))
    {
      r, read := Pose(role);
      if r.Err? {
        return;
      }
      r := CommitAndReload();
    }

    method Pose(role: Role) returns (r: Result<(), UciError>, ghost read: bool)
      modifies uci
      ensures uci.committed == old(uci.committed) && uci.running == old(uci.running)
      ensures Decides(r, CanPose(cfg, role, old(uci.Now()), read))
      ensures r.Ok? ==> uci.Now() == Posed(cfg, role, old(uci.Now()), read)
    {
      r, read := BridgeUplink(role);
      if r.Err? {
        return;
      }
      SameAllThere(Assigns(role), old(uci.staged), uci.staged);
      r := AssignEach(Assigns(role));
    }

    method BridgeUplink(role: Role) returns (r: Result<(), UciError>, ghost read: bool)
      modifies uci
      ensures Decides(r, Uplink(cfg, old(uci.staged.network), read) != "" && cfg.lanDevice != "" ==> cfg.lanDevice in old(uci.staged.network))
      ensures uci.Now() == if r.Ok? then Staging(old(uci.Now()), Network, Bridging(cfg, role, old(uci.staged.network), read))
                           else old(uci.Now())
      ensures SameSections(old(uci.staged), uci.staged)
    {
      var uplink;
      uplink, read := UplinkPort();
      r := Ok(());
      if uplink != "" && cfg.lanDevice != "" {
        if role.Controller? {
          r := uci.DelListItem(Network, cfg.lanDevice, Batman.PORTS, uplink);
        } else {
          r := uci.AddListItem(Network, cfg.lanDevice, Batman.PORTS, uplink);
        }
      }
    }

    method CommitAndReload() returns (r: Result<(), UciError>)
      modifies uci
      ensures Decides(r, true)
      ensures r.Ok? ==> uci.Now() == Reloading(CommitEach(old(uci.Now()), [Network, Dhcp]))
      ensures r.Err? ==> Interrupted(old(uci.Now()), [Network, Dhcp], uci.Now())
    {
      ghost var l, pkgs := uci.Now(), [Network, Dhcp];
      CommitEachFew(l, Network, Dhcp, Dhcp);
      assert pkgs[..0] == [] && pkgs[..1] == [Network] && pkgs[..2] == pkgs;
      r := uci.Commit(Network);
      if r.Err? {
        assert uci.Now() == CommitEach(l, pkgs[..0]);
        return;
      }
      r := uci.Commit(Dhcp);
      if r.Err? {
        assert uci.Now() == CommitEach(l, pkgs[..1]);
        return;
      }
      assert uci.Now() == CommitEach(l, pkgs[..2]);
      r := uci.Reload();
    }

    method AssignEach(assigns: seq<Assign>) returns (r: Result<(), UciError>)
      modifies uci
      ensures Decides(r, AllThere(assigns, old(uci.staged)))
      ensures r.Ok? ==> uci.Now() == Assigned(old(uci.Now()), assigns)
      ensures uci.committed == old(uci.committed) && uci.running == old(uci.running)
    {
      ghost var l := uci.Now();
      for i := 0 to |assigns|
        invariant uci.Now() == InTurn(l, assigns[..i])
        invariant SameSections(l.staged, uci.staged) && uci.committed == l.committed && uci.running == l.running
        invariant forall j :: 0 <= j < i ==> assigns[j].section in l.staged.Of(assigns[j].pkg)
      {
        assert assigns[..i + 1][..i] == assigns[..i];
        SameSectionsAt(l.staged, uci.staged, assigns[i].pkg);
        r := AssignOne(assigns[i]);
        if r.Err? {
          assert assigns[i] in assigns;
          return r;
        }
      }
      assert assigns[..|assigns|] == assigns;
      InTurnIs(l, assigns);
      r := Ok(());
    }

    // One assignment, in a section that stays.
    method AssignOne(a: Assign) returns (r: Result<(), UciError>)
      modifies uci
      ensures Decides(r, a.section in old(uci.staged).Of(a.pkg))
      ensures uci.Now() == if r.Ok? then AssignedOne(old(uci.Now()), a) else old(uci.Now())
      ensures SameSections(old(uci.staged), uci.staged) && uci.committed == old(uci.committed) && uci.running == old(uci.running)
    {
      ghost var f := uci.staged;
      r := uci.Set(a.pkg, a.section, a.option, a.value);
      if r.Ok? {
        SectionsStay(f, a);
      }
    }

    method UplinkPort() returns (port: string, ghost read: bool)
      ensures port == Uplink(cfg, uci.staged.network, true) || (cfg.uplinkPort == "" && port == "")
      ensures port == Uplink(cfg, uci.staged.network, read)
    {
      read := true;
      if cfg.uplinkPort != "" {
        return cfg.uplinkPort, read;
      }
      var dev := uci.Get(Network, "wan", "device");
      if dev.Err? {
        read := dev.error != CallFailed;
        return "", read;
      }
      port := dev.value;
    }
  }

  function AssignedOne(l: Layers, a: Assign): Layers {
    Staging(l, a.pkg, EditOne(l.staged.Of(a.pkg), Edit(a.section, None, map[a.option := a.value])))
  }

  lemma SameAllThere(assigns: seq<Assign>, f: Files, g: Files)
    requires SameSections(f, g)
    ensures AllThere(assigns, f) <==> AllThere(assigns, g)
  {
    forall a | a in assigns ensures a.section in f.Of(a.pkg) <==> a.section in g.Of(a.pkg) {
      SameSectionsAt(f, g, a.pkg);
    }
  }

  // One assignment after the other.
  function InTurn(l: Layers, assigns: seq<Assign>): Layers {
    if assigns == [] then l else AssignedOne(InTurn(l, assigns[..|assigns| - 1]), assigns[|assigns| - 1])
  }

  lemma {:induction false} InTurnIs(l: Layers, assigns: seq<Assign>)
    ensures InTurn(l, assigns) == Assigned(l, assigns)
  {
    if assigns != [] {
      var init, a := assigns[..|assigns| - 1], assigns[|assigns| - 1];
      assert assigns == init + [a];
      InTurnIs(l, init);
      AssignedSnoc(l, init, a);
    }
  }

  lemma SameSectionsAt(f: Files, g: Files, pkg: Pkg)
    requires SameSections(f, g)
    ensures f.Of(pkg).Keys == g.Of(pkg).Keys
  {
  }

  lemma SectionsStay(f: Files, a: Assign)
    requires a.section in f.Of(a.pkg)
    ensures SameSections(f, f.With(a.pkg, EditOne(f.Of(a.pkg), Edit(a.section, None, map[a.option := a.value]))))
  {
    var p := f.Of(a.pkg);
    assert EditOne(p, Edit(a.section, None, map[a.option := a.value])).Keys == p.Keys;
  }

  lemma EditsForSnoc(assigns: seq<Assign>, a: Assign, pkg: Pkg)
    ensures EditsFor(assigns + [a], pkg)
         == EditsFor(assigns, pkg) + if a.pkg == pkg then [Edit(a.section, None, map[a.option := a.value])] else []
  {
    assert (assigns + [a])[..|assigns|] == assigns;
  }

  lemma EditedMaybe(p: Package, es: seq<Edit>, e: Edit)
    ensures Edited(p, es + [e]) == EditOne(Edited(p, es), e) && Edited(p, es + []) == Edited(p, es)
  {
    EditedSnoc(p, es, e);
    assert es + [] == es;
  }

  lemma AssignedSnoc(l: Layers, assigns: seq<Assign>, a: Assign)
    ensures Assigned(l, assigns + [a]) == AssignedOne(Assigned(l, assigns), a)
  {
    var e := Edit(a.section, None, map[a.option := a.value]);
    EditsForSnoc(assigns, a, Network);
    EditsForSnoc(assigns, a, Wireless);
    EditsForSnoc(assigns, a, System);
    EditsForSnoc(assigns, a, Dhcp);
    EditedMaybe(l.staged.network, EditsFor(assigns, Network), e);
    EditedMaybe(l.staged.wireless, EditsFor(assigns, Wireless), e);
    EditedMaybe(l.staged.system, EditsFor(assigns, System), e);
    EditedMaybe(l.staged.dhcp, EditsFor(assigns, Dhcp), e);
  }

  // ----- idempotence -----

  // Assignments that set neither ports nor device.
  ghost predicate LeavesBridge(es: seq<Edit>) {
    forall e :: e in es ==> Batman.PORTS !in e.values && "device" !in e.values
  }

  lemma {:induction false} EditedLeaves(p: Package, es: seq<Edit>, n: string, option: string)
    requires forall e :: e in es ==> option !in e.values
    ensures option in At(Edited(p, es), n).opts <==> option in At(p, n).opts
    ensures option in At(p, n).opts ==> At(Edited(p, es), n).opts[option] == At(p, n).opts[option]
  {
    if es != [] {
      var init, e := es[..|es| - 1], es[|es| - 1];
      assert es == init + [e];
      EditedLeaves(p, init, n, option);
    }
  }

  lemma {:induction false} EditsForLeave(assigns: seq<Assign>, pkg: Pkg)
    requires forall a :: a in assigns ==> a.option != Batman.PORTS && a.option != "device"
    ensures LeavesBridge(EditsFor(assigns, pkg))
  {
    if assigns != [] {
      var init, a := assigns[..|assigns| - 1], assigns[|assigns| - 1];
      assert assigns == init + [a];
      EditsForLeave(init, pkg);
    }
  }

  lemma UplinkStays(cfg: Config, p: Package, q: Package, read: bool)
    requires "device" in At(q, "wan").opts <==> "device" in At(p, "wan").opts
    requires "device" in At(p, "wan").opts ==>
               "device" in At(q, "wan").opts && At(q, "wan").opts["device"] == At(p, "wan").opts["device"]
    ensures Uplink(cfg, q, read) == Uplink(cfg, p, read)
  {
  }

  lemma BridgingKeepsUplink(cfg: Config, role: Role, p: Package, read: bool)
    ensures Uplink(cfg, Bridging(cfg, role, p, read), read) == Uplink(cfg, p, read)
  {
    UplinkStays(cfg, p, Bridging(cfg, role, p, read), read);
  }

  // The bridge is as the posture wants it, once it has been set and its ports
  // left alone since.
  lemma BridgingTwice(cfg: Config, role: Role, p: Package, q: Package, read: bool)
    requires cfg.lanDevice == "" || (cfg.lanDevice in p && cfg.lanDevice in q)
    requires Uplink(cfg, q, read) == Uplink(cfg, p, read)
    requires ListOf(At(q, cfg.lanDevice), Batman.PORTS) == ListOf(At(Bridging(cfg, role, p, read), cfg.lanDevice), Batman.PORTS)
    ensures Bridging(cfg, role, q, read) == q
  {
    var uplink := Uplink(cfg, p, read);
    if uplink != "" && cfg.lanDevice != "" {
      ItemOps(p[cfg.lanDevice], Batman.PORTS, uplink);
      WithoutNothing(ListOf(p[cfg.lanDevice], Batman.PORTS), uplink);
      assert Bridging(cfg, role, q, read) == q[cfg.lanDevice := q[cfg.lanDevice]] == q;
    }
  }

  lemma EditedBridge(cfg: Config, role: Role, p: Package, es: seq<Edit>, read: bool)
    requires cfg.lanDevice == "" || cfg.lanDevice in p
    requires LeavesBridge(es)
    ensures var once := Edited(Bridging(cfg, role, p, read), es); Bridging(cfg, role, once, read) == once
  {
    var b := Bridging(cfg, role, p, read);
    EditedLeaves(b, es, "wan", "device");
    EditedLeaves(b, es, cfg.lanDevice, Batman.PORTS);
    BridgingKeepsUplink(cfg, role, p, read);
    UplinkStays(cfg, b, Edited(b, es), read);
    EditedAt(b, es, cfg.lanDevice);
    BridgingTwice(cfg, role, p, Edited(b, es), read);
  }

  lemma NetworkTwice(cfg: Config, role: Role, p: Package, read: bool)
    requires cfg.lanDevice == "" || cfg.lanDevice in p
    ensures NetworkPosed(cfg, role, NetworkPosed(cfg, role, p, read), read) == NetworkPosed(cfg, role, p, read)
  {
    var es := EditsFor(Assigns(role), Network);
    EditsForLeave(Assigns(role), Network);
    EditedBridge(cfg, role, p, es, read);
    EditedTwice(Bridging(cfg, role, p, read), es);
  }

  lemma {:induction false} NothingFor(assigns: seq<Assign>, pkg: Pkg)
    requires forall a :: a in assigns ==> a.pkg != pkg
    ensures EditsFor(assigns, pkg) == []
  {
    if assigns != [] {
      var init, a := assigns[..|assigns| - 1], assigns[|assigns| - 1];
      assert assigns == init + [a];
      NothingFor(init, pkg);
    }
  }

  lemma PosturedIs(cfg: Config, role: Role, l: Layers, read: bool)
    ensures Postured(cfg, role, l, read) == Reloading(Committing(Committing(Posed(cfg, role, l, read), Network), Dhcp))
  {
    CommitEachFew(Posed(cfg, role, l, read), Network, Dhcp, Dhcp);
  }

  lemma AssignedIs(l: Layers, assigns: seq<Assign>)
    requires forall a :: a in assigns ==> a.pkg != Wireless && a.pkg != System
    ensures Assigned(l, assigns)
         == l.(staged := l.staged.(network := Edited(l.staged.network, EditsFor(assigns, Network)),
                                   dhcp := Edited(l.staged.dhcp, EditsFor(assigns, Dhcp))))
  {
    NothingFor(assigns, Wireless);
    NothingFor(assigns, System);
  }

  function NetworkPosed(cfg: Config, role: Role, p: Package, read: bool): Package {
    Edited(Bridging(cfg, role, p, read), EditsFor(Assigns(role), Network))
  }

  function DhcpPosed(role: Role, p: Package): Package {
    Edited(p, EditsFor(Assigns(role), Dhcp))
  }

  lemma PosedIs(cfg: Config, role: Role, l: Layers, read: bool)
    ensures Posed(cfg, role, l, read)
         == l.(staged := l.staged.(network := NetworkPosed(cfg, role, l.staged.network, read),
                                   dhcp := DhcpPosed(role, l.staged.dhcp)))
  {
    AssignedIs(Staging(l, Network, Bridging(cfg, role, l.staged.network, read)), Assigns(role));
  }

  // Assigning again what is assigned stages nothing new.
  lemma PosedTwice(cfg: Config, role: Role, l: Layers, m: Layers, read: bool)
    requires cfg.lanDevice == "" || cfg.lanDevice in l.staged.network
    requires m.staged == Posed(cfg, role, l, read).staged
    ensures Posed(cfg, role, m, read) == m
  {
    PosedIs(cfg, role, l, read);
    PosedIs(cfg, role, m, read);
    assert NetworkPosed(cfg, role, m.staged.network, read) == m.staged.network by {
      NetworkTwice(cfg, role, l.staged.network, read);
    }
    assert DhcpPosed(role, m.staged.dhcp) == m.staged.dhcp by {
      EditedTwice(l.staged.dhcp, EditsFor(Assigns(role), Dhcp));
    }
  }

  // For the same answer to the read, taking a posture twice is taking it once, in
  // all three layers.
  lemma PostureTwice(cfg: Config, role: Role, l: Layers, read: bool)
    requires cfg.lanDevice == "" || cfg.lanDevice in l.staged.network
    ensures Postured(cfg, role, Postured(cfg, role, l, read), read) == Postured(cfg, role, l, read)
  {
    var once := Postured(cfg, role, l, read);
    PosturedIs(cfg, role, l, read);
    PosturedIs(cfg, role, once, read);
    PosedTwice(cfg, role, l, once, read);
  }

  // ----- the bridge -----

  // A posture keeps bridge ports and hard interfaces apart when no hard
  // interface has the uplink as its device.
  lemma PostureKeepsExclusive(c: Batman.Config, cfg: Config, role: Role, l: Layers, read: bool)
    requires c.lanDevice == cfg.lanDevice != "" && P.Exclusive(c, l.staged.network)
    requires P.Spared(c, l.staged.network, {Uplink(cfg, l.staged.network, read)})
    requires c.MeshHardif() != "lan"
    ensures P.Exclusive(c, Postured(cfg, role, l, read).staged.network)
  {
    PosturedIs(cfg, role, l, read);
    PosedIs(cfg, role, l, read);
    BridgingKeepsExclusive(c, cfg, role, l.staged.network, read);
    NoNewHardif(role);
    ExclusiveEdits(c, Bridging(cfg, role, l.staged.network, read), EditsFor(Assigns(role), Network));
  }

  lemma BridgingKeepsExclusive(c: Batman.Config, cfg: Config, role: Role, p: Package, read: bool)
    requires c.lanDevice == cfg.lanDevice != "" && P.Exclusive(c, p)
    requires P.Spared(c, p, {Uplink(cfg, p, read)})
    ensures P.Exclusive(c, Bridging(cfg, role, p, read))
  {
    var uplink := Uplink(cfg, p, read);
    if uplink != "" {
      if role.Controller? {
        P.ExclusiveUnbridge(c, p, uplink);
      } else {
        P.ExclusiveBridgeIff(c, p, uplink);
      }
    }
  }

  // Assignments make no section a hard interface.
  ghost predicate Harmless(e: Edit) {
    Batman.PORTS !in e.values && "device" !in e.values
    && ("proto" in e.values ==> e.section == "lan" && e.values["proto"] == "dhcp")
  }

  lemma {:induction false} EditsForHarmless(assigns: seq<Assign>)
    requires forall a :: a in assigns ==>
               a.option in {"disabled", "ignore"} || (a.option == "proto" && a.section == "lan" && a.value == "dhcp")
    ensures forall e :: e in EditsFor(assigns, Network) ==> Harmless(e)
  {
    if assigns != [] {
      var init, a := assigns[..|assigns| - 1], assigns[|assigns| - 1];
      assert assigns == init + [a];
      EditsForHarmless(init);
    }
  }

  lemma NoNewHardif(role: Role)
    ensures forall e :: e in EditsFor(Assigns(role), Network) ==> Harmless(e)
  {
    EditsForHarmless(Assigns(role));
  }

  lemma {:induction false} ExclusiveEdits(c: Batman.Config, p: Package, es: seq<Edit>)
    requires P.Exclusive(c, p) && c.MeshHardif() != "lan" && forall e :: e in es ==> Harmless(e)
    ensures P.Exclusive(c, Edited(p, es))
  {
    if es != [] {
      var init, e := es[..|es| - 1], es[|es| - 1];
      assert es == init + [e];
      ExclusiveEdits(c, p, init);
      ExclusiveHarmless(c, Edited(p, init), e);
    }
  }

  lemma ExclusiveHarmless(c: Batman.Config, p: Package, e: Edit)
    requires P.Exclusive(c, p) && c.MeshHardif() != "lan" && Harmless(e)
    ensures P.Exclusive(c, EditOne(p, e))
  {
    var q := EditOne(p, e);
    forall n | n in q && P.Hardif(c, q, n)
      ensures n in p && P.Hardif(c, p, n) && Text(q[n], "device") == Text(p[n], "device")
    {
      P.EditTexts(p, e, n, "proto");
      P.EditTexts(p, e, n, "device");
    }
    P.EditTexts(p, e, c.lanDevice, Batman.PORTS);
  }
}
