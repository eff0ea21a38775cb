/**
 The batman-adv layer in the network package (internal/batman/batman.go): the
 bat0 soft interface, a hard interface for the mesh and for each wired port, and
 the LAN bridge's ports.
 */
module Batman {
  import opened Wrappers
  import opened Lists
  import opened Uci

  const PORTS := "ports"

  // overrides, when the manager reads MACs, gives a port its unique address, or
  // None when the read or the derivation fails.
  datatype Config = Config(iface: string, routingAlgo: string, wiredPorts: seq<string>, lanDevice: string,
                           overrides: Option<string -> Option<string>>)
  {
    function WithDefaults(): Config {
      this.(iface := if iface == "" then "bat0" else iface,
            routingAlgo := if routingAlgo == "" then "BATMAN_IV" else routingAlgo)
    }

    function MeshHardif(): string {
      iface + "_mesh"
    }

    function WiredHardif(port: string): string {
      iface + "_" + Sanitize(port)
    }

    function DeviceSection(port: string): string {
      "dev_" + Sanitize(port)
    }
  }

  function Sanitize(s: string): (r: string)
    ensures |r| == |s|
  {
    if s == "" then ""
    else
      var c := s[|s| - 1];
      Sanitize(s[..|s| - 1])
      + [if c == '_' || 'a' <= c <= 'z' || 'A' <= c <= 'Z' || '0' <= c <= '9' then c else '_']
  }

  // ----- each operation on the network package, when it succeeds -----

  function HardifEdit(c: Config, port: string): Edit {
    Edit(c.WiredHardif(port), Some("interface"),
         map["proto" := "batadv_hardif", "master" := c.iface, "device" := port])
  }

  function DeviceEdits(c: Config, port: string): seq<Edit> {
    if c.overrides.Some? && c.overrides.value(port).Some?
    then [Edit(c.DeviceSection(port), Some("device"), map["name" := port, "macaddr" := c.overrides.value(port).value])]
    else []
  }

  function SoftEdits(c: Config): seq<Edit> {
    [Edit(c.iface, Some("interface"),
          map["proto" := "batadv", "routing_algo" := c.routingAlgo, "bridge_loop_avoidance" := "1"]),
     Edit(c.MeshHardif(), Some("interface"), map["proto" := "batadv_hardif", "master" := c.iface])]
  }

  function Unbridge(c: Config, p: Package, dev: string): Package {
    if c.lanDevice == "" then p else p[c.lanDevice := DelItem(At(p, c.lanDevice), PORTS, dev)]
  }

  function Bridge(c: Config, p: Package, dev: string): Package {
    if c.lanDevice == "" then p else p[c.lanDevice := AddItem(At(p, c.lanDevice), PORTS, dev)]
  }

  function EnslaveNet(c: Config, p: Package, port: string): Package {
    Edited(Unbridge(c, EditOne(p, HardifEdit(c, port)), port), DeviceEdits(c, port))
  }

  function EnslaveAll(c: Config, p: Package, ports: seq<string>): Package {
    if ports == [] then p
    else EnslaveNet(c, EnslaveAll(c, p, ports[..|ports| - 1]), ports[|ports| - 1])
  }

  function ApplyNet(c: Config, p: Package): Package {
    Bridge(c, Unbridge(c, EnslaveAll(c, Edited(p, SoftEdits(c)), c.wiredPorts), c.iface), c.iface)
  }

  // The sections a release deletes.
  function PortSections(c: Config, port: string): set<string> {
    {c.WiredHardif(port)} + if c.overrides.Some? then {c.DeviceSection(port)} else {}
  }

  function ReleaseNet(c: Config, p: Package, port: string): Package {
    Bridge(c, Unbridge(c, p, port), port) - PortSections(c, port)
  }

  function ReleaseAll(c: Config, p: Package, ports: seq<string>): Package {
    if ports == [] then p
    else ReleaseNet(c, ReleaseAll(c, p, ports[..|ports| - 1]), ports[|ports| - 1])
  }

  function TeardownNet(c: Config, p: Package): Package {
    ReleaseAll(c, Unbridge(c, p, c.iface), c.wiredPorts) - {c.MeshHardif(), c.iface}
  }

  // ----- when the deletions find their sections -----

  predicate LanThere(c: Config, p: Package) {
    c.lanDevice == "" || c.lanDevice in p
  }

  predicate HasPortSections(c: Config, p: Package, port: string) {
    && c.WiredHardif(port) in p
    && (c.overrides.Some? ==> c.DeviceSection(port) in p && c.DeviceSection(port) != c.WiredHardif(port))
  }

  predicate CanRelease(c: Config, p: Package, port: string) {
    LanThere(c, p) && HasPortSections(c, p, port)
  }

  predicate CanReleaseAll(c: Config, p: Package, ports: seq<string>) {
    ports == []
    || (CanReleaseAll(c, p, ports[..|ports| - 1])
        && CanRelease(c, ReleaseAll(c, p, ports[..|ports| - 1]), ports[|ports| - 1]))
  }

  predicate CanTeardown(c: Config, p: Package) {
    && LanThere(c, p)
    && var q := Unbridge(c, p, c.iface);
       && CanReleaseAll(c, q, c.wiredPorts)
       && c.MeshHardif() in ReleaseAll(c, q, c.wiredPorts)
       && c.iface in ReleaseAll(c, q, c.wiredPorts)
  }

  // ----- the manager -----

  class Manager {
    const uci: Client
    const cfg: Config

    constructor (uci: Client, cfg: Config)
      ensures this.uci == uci && this.cfg == cfg.WithDefaults()
    {
      this.uci, this.cfg := uci, cfg.WithDefaults();
    }

    // The network package, and the layers with another one staged.
    ghost function Net(): Package
      reads uci
    {
      uci.staged.network
    }

    ghost function Over(p: Package): Layers
      reads uci
    {
      Staging(uci.Now(), Network, p)
    }

    method BridgeOut(dev: string) returns (r: Result<(), UciError>)
      modifies uci
      ensures Decides(r, LanThere(cfg, old(Net())))
      ensures uci.Now() == if r.Ok? then old(Over(Unbridge(cfg, Net(), dev))) else old(uci.Now())
    {
      r := Ok(());
      if cfg.lanDevice != "" {
        r := uci.DelListItem(Network, cfg.lanDevice, PORTS, dev);
      }
    }

    method BridgeIn(dev: string) returns (r: Result<(), UciError>)
      modifies uci
      ensures Decides(r, LanThere(cfg, old(Net())))
      ensures uci.Now() == if r.Ok? then old(Over(Bridge(cfg, Net(), dev))) else old(uci.Now())
    {
      r := Ok(());
      if cfg.lanDevice != "" {
        r := uci.AddListItem(Network, cfg.lanDevice, PORTS, dev);
      }
    }

    method EnslavePort(port: string) returns (r: Result<(), UciError>)
      modifies uci
      ensures uci.Now() == Staging(old(uci.Now()), Network, Net())
      ensures Decides(r, LanThere(cfg, EditOne(old(Net()), HardifEdit(cfg, port))))
      ensures r.Ok? ==> uci.Now() == old(Over(EnslaveNet(cfg, Net(), port)))
    {
      r := uci.SetSection(Network, cfg.WiredHardif(port), "interface",
                          map["proto" := "batadv_hardif", "master" := cfg.iface, "device" := port]);
      if r.Err? {
        return r;
      }
      r := BridgeOut(port);
      if r.Err? {
        return r;
      }
      if cfg.overrides.Some? {
        var uniq := cfg.overrides.value(port);
        if uniq.Some? {
          EditedFew(Net(), DeviceEdits(cfg, port)[0], DeviceEdits(cfg, port)[0]);
          r := uci.SetSection(Network, cfg.DeviceSection(port), "device", map["name" := port, "macaddr" := uniq.value]);
        }
      }
    }

    method Apply() returns (r: Result<(), UciError>)
      modifies uci
      ensures uci.Now() == Staging(old(uci.Now()), Network, Net())
      ensures r.Ok? ==> uci.Now() == old(Over(ApplyNet(cfg, Net()))) && LanThere(cfg, Net())
      ensures LanThere(cfg, old(Net())) ==> Decides(r, true)
    {
      r := AuthorSoft();
      if r.Err? {
        return r;
      }
      r := EnslaveEach();
      if r.Err? {
        return r;
      }
      r := BridgeOut(cfg.iface);
      if r.Err? {
        return r;
      }
      r := BridgeIn(cfg.iface);
    }

    // bat0 and the hard interface of the mesh.
    method AuthorSoft() returns (r: Result<(), UciError>)
      modifies uci
      ensures uci.Now() == Staging(old(uci.Now()), Network, Net())
      ensures Decides(r, true) && (r.Ok? ==> uci.Now() == old(Over(Edited(Net(), SoftEdits(cfg)))))
      ensures LanThere(cfg, old(Net())) && r.Ok? ==> LanThere(cfg, Net())
    {
      r := uci.SetSection(Network, cfg.iface, "interface",
                          map["proto" := "batadv", "routing_algo" := cfg.routingAlgo, "bridge_loop_avoidance" := "1"]);
      if r.Err? {
        return r;
      }
      EditedFew(old(Net()), SoftEdits(cfg)[0], SoftEdits(cfg)[1]);
      r := uci.SetSection(Network, cfg.MeshHardif(), "interface",
                          map["proto" := "batadv_hardif", "master" := cfg.iface]);
    }

    method EnslaveEach() returns (r: Result<(), UciError>)
      modifies uci
      ensures uci.Now() == Staging(old(uci.Now()), Network, Net())
      ensures r.Ok? ==> uci.Now() == old(Over(EnslaveAll(cfg, Net(), cfg.wiredPorts)))
      ensures LanThere(cfg, old(Net())) ==> Decides(r, true) && (r.Ok? ==> LanThere(cfg, Net()))
    {
      var ports := cfg.wiredPorts;
      for i := 0 to |ports|
        invariant LanThere(cfg, old(Net())) ==> LanThere(cfg, Net())
        invariant uci.Now() == old(Over(EnslaveAll(cfg, Net(), ports[..i])))
      {
        assert ports[..i + 1][..i] == ports[..i];
        EnslavingKeepsLan(cfg, Net(), ports[i]);
        r := EnslavePort(ports[i]);
        if r.Err? {
          return r;
        }
      }
      assert ports[..|ports|] == ports;
      r := Ok(());
    }

    method ReleasePort(port: string) returns (r: Result<(), UciError>)
      modifies uci
      ensures uci.Now() == Staging(old(uci.Now()), Network, Net())
      ensures Decides(r, CanRelease(cfg, old(Net()), port))
      ensures r.Ok? ==> uci.Now() == old(Over(ReleaseNet(cfg, Net(), port)))
    {
      r := BridgeOut(port);
      if r.Err? {
        return r;
      }
      r := BridgeIn(port);
      if r.Err? {
        return r;
      }
      BridgingKeepsSections(cfg, old(Net()), port);
      r := uci.Delete(Network, cfg.WiredHardif(port));
      if r.Err? {
        return r;
      }
      if cfg.overrides.Some? {
        r := uci.Delete(Network, cfg.DeviceSection(port));
      }
      DropPortSections(cfg, Bridge(cfg, Unbridge(cfg, old(Net()), port), port), port);
    }

    method ReleaseEach() returns (r: Result<(), UciError>)
      modifies uci
      ensures uci.Now() == Staging(old(uci.Now()), Network, Net())
      ensures Decides(r, CanReleaseAll(cfg, old(Net()), cfg.wiredPorts))
      ensures r.Ok? ==> uci.Now() == old(Over(ReleaseAll(cfg, Net(), cfg.wiredPorts)))
    {
      var ports := cfg.wiredPorts;
      for i := 0 to |ports|
        invariant CanReleaseAll(cfg, old(Net()), ports[..i])
        invariant uci.Now() == old(Over(ReleaseAll(cfg, Net(), ports[..i])))
      {
        assert ports[..i + 1][..i] == ports[..i];
        r := ReleasePort(ports[i]);
        if r.Err? {
          if r.error != CallFailed {
            CannotReleaseLater(cfg, old(Net()), ports, i + 1);
          }
          return r;
        }
      }
      assert ports[..|ports|] == ports;
      r := Ok(());
    }

    method Teardown() returns (r: Result<(), UciError>)
      modifies uci
      ensures uci.Now() == Staging(old(uci.Now()), Network, Net())
      ensures Decides(r, CanTeardown(cfg, old(Net())))
      ensures r.Ok? ==> uci.Now() == old(Over(TeardownNet(cfg, Net())))
    {
      r := BridgeOut(cfg.iface);
      if r.Err? {
        return r;
      }
      r := ReleaseEach();
      if r.Err? {
        return r;
      }
      r := uci.Delete(Network, cfg.MeshHardif());
      if r.Err? {
        return r;
      }
      NotIface(cfg);
      r := uci.Delete(Network, cfg.iface);
      assert r.Ok? ==> Net() == TeardownNet(cfg, old(Net()));
    }
  }

  lemma DropPortSections(c: Config, p: Package, port: string)
    ensures p - PortSections(c, port)
         == if c.overrides.Some? then p - {c.WiredHardif(port)} - {c.DeviceSection(port)} else p - {c.WiredHardif(port)}
  {
  }

  lemma BridgingKeepsSections(c: Config, p: Package, dev: string)
    requires LanThere(c, p)
    ensures Unbridge(c, p, dev).Keys == p.Keys && Bridge(c, p, dev).Keys == p.Keys
  {
  }

  lemma EnslavingKeepsLan(c: Config, p: Package, port: string)
    ensures LanThere(c, p) ==> LanThere(c, EditOne(p, HardifEdit(c, port))) && LanThere(c, EnslaveNet(c, p, port))
  {
    var q := Unbridge(c, EditOne(p, HardifEdit(c, port)), port);
    EditedAt(q, DeviceEdits(c, port), c.lanDevice);
  }

  lemma NotIface(c: Config)
    ensures c.MeshHardif() != c.iface
    ensures forall port :: c.WiredHardif(port) != c.iface
  {
    assert |c.MeshHardif()| == |c.iface| + 5;
    assert forall port :: |c.WiredHardif(port)| > |c.iface|;
  }

  lemma {:induction false} CannotReleaseLater(c: Config, p: Package, ports: seq<string>, k: nat)
    requires k <= |ports| && !CanReleaseAll(c, p, ports[..k])
    ensures !CanReleaseAll(c, p, ports)
  {
    if k < |ports| {
      assert ports[..|ports| - 1][..k] == ports[..k];
      CannotReleaseLater(c, p, ports[..|ports| - 1], k);
    } else {
      assert ports[..k] == ports;
    }
  }
}
