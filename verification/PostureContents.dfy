/**
 What each posture leaves in the configuration (internal/netposture/apply.go),
 option by option.
 */
module PostureContents {
  import opened Wrappers
  import opened Lists
  import opened Uci
  import opened Netposture
  import Batman

  function Opt(p: Package, section: string, option: string): Option<Value> {
    if section in p && option in p[section].opts then Some(p[section].opts[option]) else None
  }

  function Said(value: string): Option<Value> {
    Some(Scalar(value))
  }

  lemma OptEdit(p: Package, e: Edit, section: string, option: string)
    ensures Opt(EditOne(p, e), section, option)
         == if section == e.section && option in e.values then Said(e.values[option]) else Opt(p, section, option)
  {
  }

  // ----- the assignments, package by package -----

  function Mine(a: Assign, pkg: Pkg): seq<Edit> {
    if a.pkg == pkg then [Edit(a.section, None, map[a.option := a.value])] else []
  }

  lemma EditsForTwo(a: Assign, b: Assign, pkg: Pkg)
    ensures EditsFor([a, b], pkg) == Mine(a, pkg) + Mine(b, pkg)
  {
    assert [] + [a] == [a] && [a] + [b] == [a, b];
    EditsForSnoc([], a, pkg);
    EditsForSnoc([a], b, pkg);
  }

  lemma EditsForThree(a: Assign, b: Assign, c: Assign, pkg: Pkg)
    ensures EditsFor([a, b, c], pkg) == Mine(a, pkg) + Mine(b, pkg) + Mine(c, pkg)
  {
    assert [a, b] + [c] == [a, b, c];
    EditsForTwo(a, b, pkg);
    EditsForSnoc([a, b], c, pkg);
  }

  lemma EditsForFour(a: Assign, b: Assign, c: Assign, d: Assign, pkg: Pkg)
    ensures EditsFor([a, b, c, d], pkg) == Mine(a, pkg) + Mine(b, pkg) + Mine(c, pkg) + Mine(d, pkg)
  {
    EditsForThree(a, b, c, pkg);
    EditsForSnoc([a, b, c], d, pkg);
    assert [a, b, c] + [d] == [a, b, c, d];
  }

  function Put(section: string, option: string, value: string): Edit {
    Edit(section, None, map[option := value])
  }

  lemma ControllerEdits()
    ensures EditsFor(Assigns(Controller), Network) == [Put("wan", "disabled", "0"), Put("wan6", "disabled", "0")]
    ensures EditsFor(Assigns(Controller), Dhcp) == [Put("lan", "ignore", "0")]
  {
    var a := Assigns(Controller);
    EditsForThree(a[0], a[1], a[2], Network);
    EditsForThree(a[0], a[1], a[2], Dhcp);
  }

  lemma BridgedEdits(role: Role)
    requires role in {Guest, MeshNode}
    ensures EditsFor(Assigns(role), Network)
         == [Put("lan", "proto", "dhcp"), Put("wan", "disabled", "1"), Put("wan6", "disabled", "1")]
    ensures EditsFor(Assigns(role), Dhcp) == [Put("lan", "ignore", "1")]
  {
    var a := Assigns(role);
    EditsForFour(a[0], a[1], a[2], a[3], Network);
    EditsForFour(a[0], a[1], a[2], a[3], Dhcp);
  }

  lemma OptTwo(p: Package, a: Edit, b: Edit, section: string, option: string)
    ensures Opt(Edited(p, [a, b]), section, option)
         == if section == b.section && option in b.values then Said(b.values[option])
            else if section == a.section && option in a.values then Said(a.values[option])
            else Opt(p, section, option)
  {
    EditedFew(p, a, b);
    OptEdit(p, a, section, option);
    OptEdit(EditOne(p, a), b, section, option);
  }

  lemma OptThree(p: Package, a: Edit, b: Edit, c: Edit, section: string, option: string)
    ensures Opt(Edited(p, [a, b, c]), section, option)
         == if section == c.section && option in c.values then Said(c.values[option])
            else if section == b.section && option in b.values then Said(b.values[option])
            else if section == a.section && option in a.values then Said(a.values[option])
            else Opt(p, section, option)
  {
    EditedSnoc(p, [a, b], c);
    assert [a, b] + [c] == [a, b, c];
    OptTwo(p, a, b, section, option);
    OptEdit(Edited(p, [a, b]), c, section, option);
  }

  // ----- the bridge -----

  // The uplink is the configured port, or the device of wan if that can be read.
  lemma UplinkIs(cfg: Config, p: Package, read: bool)
    ensures cfg.uplinkPort != "" ==> Uplink(cfg, p, read) == cfg.uplinkPort
    ensures cfg.uplinkPort == "" ==>
              Uplink(cfg, p, read) == (match Opt(p, "wan", "device")
                                       case Some(Scalar(dev)) => if read then dev else ""
                                       case _ => "")
  {
  }

  lemma BridgingOpts(cfg: Config, role: Role, p: Package, read: bool, section: string, option: string)
    requires cfg.lanDevice in p || Uplink(cfg, p, read) == "" || cfg.lanDevice == ""
    requires !(section == cfg.lanDevice && option == "ports")
    ensures Opt(Bridging(cfg, role, p, read), section, option) == Opt(p, section, option)
  {
    var uplink := Uplink(cfg, p, read);
    if uplink != "" && cfg.lanDevice != "" && section == cfg.lanDevice {
      var s, t := p[section], Bridging(cfg, role, p, read)[section];
      ItemOps(s, Batman.PORTS, uplink);
      assert Rest(t, "ports") == Rest(s, "ports");
      assert option in s.opts <==> option in Rest(s, "ports").opts;
      assert option in t.opts <==> option in Rest(t, "ports").opts;
    }
  }

  function Ports(cfg: Config, p: Package): seq<string> {
    ListOf(At(p, cfg.lanDevice), "ports")
  }

  lemma BridgingPorts(cfg: Config, role: Role, p: Package, read: bool)
    requires Uplink(cfg, p, read) != "" && cfg.lanDevice != "" && cfg.lanDevice in p
    ensures var uplink, after := Uplink(cfg, p, read), Ports(cfg, Bridging(cfg, role, p, read));
      if role.Controller? then KeptInOrder(Ports(cfg, p), uplink, after) && uplink !in after
      else after == if uplink in Ports(cfg, p) then Ports(cfg, p) else Ports(cfg, p) + [uplink]
  {
    var uplink, s := Uplink(cfg, p, read), p[cfg.lanDevice];
    ItemOps(s, Batman.PORTS, uplink);
    WithoutNothing(ListOf(s, "ports"), uplink);
    WithoutKeepsOrder(ListOf(s, "ports"), uplink);
  }

  // ----- what a posture leaves -----

  lemma PosturedFiles(cfg: Config, role: Role, l: Layers, read: bool)
    ensures var f := Postured(cfg, role, l, read);
      && f.staged == l.staged.(network := NetworkPosed(cfg, role, l.staged.network, read), dhcp := DhcpPosed(role, l.staged.dhcp))
      && f.committed == l.committed.(network := f.staged.network, dhcp := f.staged.dhcp)
      && f.running == f.committed
  {
    PosturedIs(cfg, role, l, read);
    PosedIs(cfg, role, l, read);
  }

  lemma ControllerNetwork(cfg: Config, p: Package, read: bool, section: string, option: string)
    requires cfg.lanDevice in p || Uplink(cfg, p, read) == "" || cfg.lanDevice == ""
    ensures var q := NetworkPosed(cfg, Controller, p, read);
      && Opt(q, "wan", "disabled") == Said("0") && Opt(q, "wan6", "disabled") == Said("0")
      && ((section, option) !in {("wan", "disabled"), ("wan6", "disabled"), (cfg.lanDevice, "ports")} ==>
            Opt(q, section, option) == Opt(p, section, option))
  {
    var b, wan, wan6 := Bridging(cfg, Controller, p, read), Put("wan", "disabled", "0"), Put("wan6", "disabled", "0");
    assert NetworkPosed(cfg, Controller, p, read) == Edited(b, [wan, wan6]) by { ControllerEdits(); }
    OptTwo(b, wan, wan6, "wan", "disabled");
    OptTwo(b, wan, wan6, "wan6", "disabled");
    OptTwo(b, wan, wan6, section, option);
    if !(section == cfg.lanDevice && option == "ports") {
      BridgingOpts(cfg, Controller, p, read, section, option);
    }
  }

  lemma BridgedNetwork(cfg: Config, role: Role, p: Package, read: bool, section: string, option: string)
    requires role in {Guest, MeshNode} && (cfg.lanDevice in p || Uplink(cfg, p, read) == "" || cfg.lanDevice == "")
    ensures var q := NetworkPosed(cfg, role, p, read);
      && Opt(q, "lan", "proto") == Said("dhcp")
      && Opt(q, "wan", "disabled") == Said("1") && Opt(q, "wan6", "disabled") == Said("1")
      && ((section, option) !in {("lan", "proto"), ("wan", "disabled"), ("wan6", "disabled"), (cfg.lanDevice, "ports")} ==>
            Opt(q, section, option) == Opt(p, section, option))
  {
    var b, lan := Bridging(cfg, role, p, read), Put("lan", "proto", "dhcp");
    var wan, wan6 := Put("wan", "disabled", "1"), Put("wan6", "disabled", "1");
    assert NetworkPosed(cfg, role, p, read) == Edited(b, [lan, wan, wan6]) by { BridgedEdits(role); }
    OptThree(b, lan, wan, wan6, "lan", "proto");
    OptThree(b, lan, wan, wan6, "wan", "disabled");
    OptThree(b, lan, wan, wan6, "wan6", "disabled");
    OptThree(b, lan, wan, wan6, section, option);
    if !(section == cfg.lanDevice && option == "ports") {
      BridgingOpts(cfg, role, p, read, section, option);
    }
  }

  lemma DhcpIs(role: Role, p: Package, section: string, option: string)
    requires !role.Other?
    ensures var q := DhcpPosed(role, p);
      && Opt(q, "lan", "ignore") == Said(if role.Controller? then "0" else "1")
      && ((section, option) != ("lan", "ignore") ==> Opt(q, section, option) == Opt(p, section, option))
  {
    var e := Put("lan", "ignore", if role.Controller? then "0" else "1");
    assert EditsFor(Assigns(role), Dhcp) == [e] by {
      if role.Controller? { ControllerEdits(); } else { BridgedEdits(role); }
    }
    EditedFew(p, e, e);
    OptEdit(p, e, "lan", "ignore");
    OptEdit(p, e, section, option);
  }

  // Main result. The controller routes and serves addresses: running and
  // committed, wan and wan6 are on and the LAN's DHCP server is not ignored; no
  // other option of the two packages but the bridge's ports has changed, the LAN's
  // protocol among them.
  lemma ControllerPosture(cfg: Config, l: Layers, read: bool, section: string, option: string)
    requires CanPose(cfg, Controller, l, read)
    ensures var f := Postured(cfg, Controller, l, read);
      && f.running == f.committed
      && Opt(f.running.network, "wan", "disabled") == Said("0")
      && Opt(f.running.network, "wan6", "disabled") == Said("0")
      && Opt(f.running.dhcp, "lan", "ignore") == Said("0")
      && ((section, option) !in {("wan", "disabled"), ("wan6", "disabled"), (cfg.lanDevice, "ports")} ==>
            Opt(f.running.network, section, option) == Opt(l.staged.network, section, option))
      && ((section, option) != ("lan", "ignore") ==> Opt(f.running.dhcp, section, option) == Opt(l.staged.dhcp, section, option))
  {
    PosturedFiles(cfg, Controller, l, read);
    ControllerNetwork(cfg, l.staged.network, read, section, option);
    DhcpIs(Controller, l.staged.dhcp, section, option);
  }

  // A guest or mesh node is a bridge: the LAN is a DHCP client, wan and wan6 are
  // off, and the LAN's DHCP server is ignored.
  lemma BridgedPosture(cfg: Config, role: Role, l: Layers, read: bool, section: string, option: string)
    requires role in {Guest, MeshNode} && CanPose(cfg, role, l, read)
    ensures var f := Postured(cfg, role, l, read);
      && f.running == f.committed
      && Opt(f.running.network, "lan", "proto") == Said("dhcp")
      && Opt(f.running.network, "wan", "disabled") == Said("1")
      && Opt(f.running.network, "wan6", "disabled") == Said("1")
      && Opt(f.running.dhcp, "lan", "ignore") == Said("1")
      && ((section, option) !in {("lan", "proto"), ("wan", "disabled"), ("wan6", "disabled"), (cfg.lanDevice, "ports")} ==>
            Opt(f.running.network, section, option) == Opt(l.staged.network, section, option))
      && ((section, option) != ("lan", "ignore") ==> Opt(f.running.dhcp, section, option) == Opt(l.staged.dhcp, section, option))
  {
    PosturedFiles(cfg, role, l, read);
    BridgedNetwork(cfg, role, l.staged.network, read, section, option);
    DhcpIs(role, l.staged.dhcp, section, option);
  }

  lemma PosedPorts(cfg: Config, role: Role, p: Package, read: bool)
    ensures Ports(cfg, NetworkPosed(cfg, role, p, read)) == Ports(cfg, Bridging(cfg, role, p, read))
  {
    EditsForLeave(Assigns(role), Network);
    EditedLeaves(Bridging(cfg, role, p, read), EditsFor(Assigns(role), Network), cfg.lanDevice, Batman.PORTS);
  }

  // The uplink, where there is one and a bridge: out of the controller's bridge,
  // in everyone else's, and the other ports as they were.
  lemma PosturePorts(cfg: Config, role: Role, l: Layers, read: bool)
    requires !role.Other? && CanPose(cfg, role, l, read) && cfg.lanDevice != "" && Uplink(cfg, l.staged.network, read) != ""
    ensures var uplink, before := Uplink(cfg, l.staged.network, read), Ports(cfg, l.staged.network);
      var after := Ports(cfg, Postured(cfg, role, l, read).running.network);
      if role.Controller? then KeptInOrder(before, uplink, after) && uplink !in after
      else after == if uplink in before then before else before + [uplink]
  {
    PosturedFiles(cfg, role, l, read);
    PosedPorts(cfg, role, l.staged.network, read);
    BridgingPorts(cfg, role, l.staged.network, read);
  }
}
