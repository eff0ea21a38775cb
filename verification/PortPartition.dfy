/**
 No device is both a LAN bridge port and a batman-adv hard interface, over any
 sequence of batman-adv operations and posture changes.
 */
module PortPartition {
  import opened Wrappers
  import opened Lists
  import opened Uci
  import opened Batman

  predicate Bridged(c: Config, p: Package, dev: string) {
    dev in ListOf(At(p, c.lanDevice), PORTS)
  }

  predicate IsHardif(p: Package, name: string, dev: string) {
    name in p && Text(p[name], "proto") == "batadv_hardif" && Text(p[name], "device") == dev
  }

  // A section that is, or that Apply will make, a hard interface.
  predicate Hardif(c: Config, p: Package, name: string)
    requires name in p
  {
    Text(p[name], "device") != "" && (Text(p[name], "proto") == "batadv_hardif" || name == c.MeshHardif())
  }

  ghost predicate Enslaved(p: Package, dev: string) {
    exists name :: IsHardif(p, name, dev)
  }

  // Hard interfaces are named for their device, which is not in the bridge and
  // not bat0.
  ghost predicate Exclusive(c: Config, p: Package) {
    forall n :: n in p && Hardif(c, p, n) ==>
      var dev := Text(p[n], "device");
      n == c.WiredHardif(dev) && !Bridged(c, p, dev) && dev != c.iface
  }

  lemma ExclusiveMeansDisjoint(c: Config, p: Package, dev: string)
    requires Exclusive(c, p) && dev != ""
    ensures !(Bridged(c, p, dev) && Enslaved(p, dev))
  {
  }

  predicate Ordinary(c: Config, port: string) {
    port != "" && port != c.iface
  }

  // ----- one operation at a time -----

  lemma EditTexts(p: Package, e: Edit, n: string, option: string)
    ensures Text(At(EditOne(p, e), n), option)
         == if n == e.section && option in e.values then e.values[option] else Text(At(p, n), option)
    ensures n != e.section ==> ListOf(At(EditOne(p, e), n), option) == ListOf(At(p, n), option)
    ensures option !in e.values ==> ListOf(At(EditOne(p, e), n), option) == ListOf(At(p, n), option)
  {
  }

  // An edit that leaves proto, device and ports alone changes nothing here.
  lemma ExclusiveEdit(c: Config, p: Package, e: Edit)
    requires Exclusive(c, p) && e.values.Keys !! {"proto", "device", PORTS}
    ensures Exclusive(c, EditOne(p, e))
  {
    var q := EditOne(p, e);
    forall n | n in q && Hardif(c, q, n)
      ensures n in p && Hardif(c, p, n) && Text(q[n], "device") == Text(p[n], "device")
    {
      EditTexts(p, e, n, "proto");
      EditTexts(p, e, n, "device");
    }
    EditTexts(p, e, c.lanDevice, PORTS);
  }

  lemma BridgeTexts(c: Config, p: Package, dev: string, n: string, option: string)
    requires option != PORTS
    ensures Text(At(Unbridge(c, p, dev), n), option) == Text(At(p, n), option)
    ensures Text(At(Bridge(c, p, dev), n), option) == Text(At(p, n), option)
  {
  }

  lemma BridgePorts(c: Config, p: Package, dev: string, x: string)
    requires c.lanDevice != ""
    ensures Bridged(c, Unbridge(c, p, dev), x) <==> Bridged(c, p, x) && x != dev
    ensures Bridged(c, Bridge(c, p, dev), x) <==> Bridged(c, p, x) || x == dev
  {
    ItemOps(At(p, c.lanDevice), PORTS, dev);
    MinusElements(ListOf(At(p, c.lanDevice), PORTS), {dev});
  }

  // Taking any device out of the bridge is always safe; the device of a new hard
  // interface may still be in the bridge just before.
  lemma ExclusiveUnbridge(c: Config, p: Package, dev: string)
    requires c.lanDevice != ""
    requires forall n :: n in p && Hardif(c, p, n) ==>
               var d := Text(p[n], "device");
               n == c.WiredHardif(d) && (d != dev ==> !Bridged(c, p, d)) && d != c.iface
    ensures Exclusive(c, Unbridge(c, p, dev))
  {
    var q := Unbridge(c, p, dev);
    forall n | n in q && Hardif(c, q, n)
      ensures n == c.WiredHardif(Text(q[n], "device")) && !Bridged(c, q, Text(q[n], "device")) && Text(q[n], "device") != c.iface
    {
      BridgeTexts(c, p, dev, n, "proto");
      BridgeTexts(c, p, dev, n, "device");
      assert At(q, n) == q[n];
      BridgePorts(c, p, dev, Text(q[n], "device"));
    }
  }

  // Putting a device into the bridge is safe exactly when no hard interface has
  // it.
  lemma ExclusiveBridgeIff(c: Config, p: Package, dev: string)
    requires c.lanDevice != "" && Exclusive(c, p)
    ensures Exclusive(c, Bridge(c, p, dev)) <==> forall n :: n in p && Hardif(c, p, n) ==> Text(p[n], "device") != dev
  {
    var q := Bridge(c, p, dev);
    forall n | n in p ensures n in q && (Hardif(c, q, n) <==> Hardif(c, p, n)) && Text(q[n], "device") == Text(p[n], "device") {
      BridgeTexts(c, p, dev, n, "proto");
      BridgeTexts(c, p, dev, n, "device");
    }
    forall n | n in q && n !in p ensures !Hardif(c, q, n) {
      BridgeTexts(c, p, dev, n, "device");
    }
    forall x ensures Bridged(c, q, x) <==> Bridged(c, p, x) || x == dev {
      BridgePorts(c, p, dev, x);
    }
  }

  lemma ExclusiveDelete(c: Config, p: Package, gone: set<string>)
    requires Exclusive(c, p)
    ensures Exclusive(c, p - gone)
  {
  }

  // A hard interface after the port's own has been authored: that one, or one
  // there was.
  lemma HardifsOnceEnslaved(c: Config, p: Package, port: string, n: string)
    requires Exclusive(c, p) && Ordinary(c, port)
    requires var q := EditOne(p, HardifEdit(c, port)); n in q && Hardif(c, q, n)
    ensures var q := EditOne(p, HardifEdit(c, port)); var d := Text(q[n], "device");
      n == c.WiredHardif(d) && (d != port ==> !Bridged(c, q, d)) && d != c.iface
  {
    var e := HardifEdit(c, port);
    EditTexts(p, e, n, "proto");
    EditTexts(p, e, n, "device");
    EditTexts(p, e, c.lanDevice, PORTS);
  }

  lemma ExclusiveEnslave(c: Config, p: Package, port: string)
    requires c.lanDevice != "" && Exclusive(c, p) && Ordinary(c, port)
    ensures Exclusive(c, EnslaveNet(c, p, port))
  {
    var q := EditOne(p, HardifEdit(c, port));
    forall n | n in q && Hardif(c, q, n)
      ensures var d := Text(q[n], "device");
              n == c.WiredHardif(d) && (d != port ==> !Bridged(c, q, d)) && d != c.iface
    {
      HardifsOnceEnslaved(c, p, port, n);
    }
    ExclusiveUnbridge(c, q, port);
    var r := Unbridge(c, q, port);
    if DeviceEdits(c, port) != [] {
      EditedFew(r, DeviceEdits(c, port)[0], DeviceEdits(c, port)[0]);
      ExclusiveEdit(c, r, DeviceEdits(c, port)[0]);
    }
  }

  lemma ExclusiveRelease(c: Config, p: Package, port: string)
    requires c.lanDevice != "" && Exclusive(c, p)
    ensures Exclusive(c, ReleaseNet(c, p, port))
  {
    var q := Unbridge(c, p, port);
    ExclusiveUnbridge(c, p, port);
    // Only the section about to be deleted can have the device.
    var gone := PortSections(c, port);
    ExclusiveDelete(c, q, gone);
    var r := Bridge(c, q, port);
    forall n | n in r - gone && Hardif(c, r - gone, n)
      ensures n in q && Hardif(c, q, n) && Text((r - gone)[n], "device") == Text(q[n], "device") != port
    {
      BridgeTexts(c, q, port, n, "proto");
      BridgeTexts(c, q, port, n, "device");
    }
    forall x | Bridged(c, r - gone, x) && x != port ensures Bridged(c, q, x) {
      BridgePorts(c, q, port, x);
    }
  }

  lemma SoftIsNoPort(c: Config, p: Package, n: string)
    requires var r := EditOne(EditOne(p, SoftEdits(c)[0]), SoftEdits(c)[1]); n in r && Hardif(c, r, n)
    ensures var r := EditOne(EditOne(p, SoftEdits(c)[0]), SoftEdits(c)[1]);
      n in p && Hardif(c, p, n) && Text(r[n], "device") == Text(p[n], "device")
  {
    var es := SoftEdits(c);
    var q := EditOne(p, es[0]);
    NotIface(c);
    EditTexts(p, es[0], n, "proto");
    EditTexts(p, es[0], n, "device");
    EditTexts(q, es[1], n, "proto");
    EditTexts(q, es[1], n, "device");
  }

  lemma ExclusiveSoft(c: Config, p: Package)
    requires Exclusive(c, p)
    ensures Exclusive(c, Edited(p, SoftEdits(c)))
  {
    var es := SoftEdits(c);
    EditedFew(p, es[0], es[1]);
    NotIface(c);
    var q := EditOne(p, es[0]);
    var r := EditOne(q, es[1]);
    forall n | n in r && Hardif(c, r, n)
      ensures n in p && Hardif(c, p, n) && Text(r[n], "device") == Text(p[n], "device")
    {
      SoftIsNoPort(c, p, n);
    }
    EditTexts(p, es[0], c.lanDevice, PORTS);
    EditTexts(q, es[1], c.lanDevice, PORTS);
  }

  lemma {:induction false} ExclusiveEnslaveAll(c: Config, p: Package, ports: seq<string>)
    requires c.lanDevice != "" && Exclusive(c, p) && forall w :: w in ports ==> Ordinary(c, w)
    ensures Exclusive(c, EnslaveAll(c, p, ports))
  {
    if ports != [] {
      ExclusiveEnslaveAll(c, p, ports[..|ports| - 1]);
      ExclusiveEnslave(c, EnslaveAll(c, p, ports[..|ports| - 1]), ports[|ports| - 1]);
    }
  }

  lemma {:induction false} ExclusiveReleaseAll(c: Config, p: Package, ports: seq<string>)
    requires c.lanDevice != "" && Exclusive(c, p)
    ensures Exclusive(c, ReleaseAll(c, p, ports))
  {
    if ports != [] {
      ExclusiveReleaseAll(c, p, ports[..|ports| - 1]);
      ExclusiveRelease(c, ReleaseAll(c, p, ports[..|ports| - 1]), ports[|ports| - 1]);
    }
  }

  // ----- every sequence of operations -----

  // The batman-adv operations, and what a posture does to the bridge: a guest or
  // mesh node adds the uplink, a controller takes it out.
  datatype Op = Apply | Enslave(port: string) | Release(port: string) | Teardown
              | AddUplink(port: string) | RemoveUplink(port: string)

  function Perform(c: Config, p: Package, op: Op): Package {
    match op
    case Apply => ApplyNet(c, p)
    case Enslave(port) => EnslaveNet(c, p, port)
    case Release(port) => ReleaseNet(c, p, port)
    case Teardown => TeardownNet(c, p)
    case AddUplink(port) => Bridge(c, p, port)
    case RemoveUplink(port) => Unbridge(c, p, port)
  }

  function Run(c: Config, p: Package, ops: seq<Op>): Package {
    if ops == [] then p else Perform(c, Run(c, p, ops[..|ops| - 1]), ops[|ops| - 1])
  }

  // The ports an operation enslaves are real devices other than bat0, and the
  // uplink is never one that is enslaved anywhere in the sequence.
  ghost predicate Sensible(c: Config, ops: seq<Op>) {
    && (forall w :: w in c.wiredPorts ==> Ordinary(c, w))
    && (forall port :: Enslave(port) in ops ==> Ordinary(c, port))
    && (forall port :: AddUplink(port) in ops ==> port !in c.wiredPorts && Enslave(port) !in ops)
  }

  // No hard interface has a device of this set.
  ghost predicate Spared(c: Config, p: Package, devs: set<string>) {
    forall n :: n in p && Hardif(c, p, n) ==> Text(p[n], "device") !in devs
  }

  // Enslaving writes proto and device of the port's own hard interface only.
  lemma EnslaveTexts(c: Config, p: Package, port: string, n: string, option: string)
    requires option in {"proto", "device"}
    ensures Text(At(EnslaveNet(c, p, port), n), option)
         == if n == c.WiredHardif(port) then HardifEdit(c, port).values[option] else Text(At(p, n), option)
  {
    var e := HardifEdit(c, port);
    var q := EditOne(p, e);
    EditTexts(p, e, n, option);
    BridgeTexts(c, q, port, n, option);
    if DeviceEdits(c, port) != [] {
      var r := Unbridge(c, q, port);
      EditedFew(r, DeviceEdits(c, port)[0], e);
      EditTexts(r, DeviceEdits(c, port)[0], n, option);
    }
  }

  lemma SparedEnslave(c: Config, p: Package, port: string, devs: set<string>)
    requires Spared(c, p, devs) && port !in devs
    ensures Spared(c, EnslaveNet(c, p, port), devs)
  {
    var t := EnslaveNet(c, p, port);
    forall n | n in t && Hardif(c, t, n) ensures Text(t[n], "device") !in devs {
      EnslaveTexts(c, p, port, n, "proto");
      EnslaveTexts(c, p, port, n, "device");
      assert Text(At(t, n), "device") == Text(t[n], "device") && Text(At(t, n), "proto") == Text(t[n], "proto");
    }
  }

  lemma {:induction false} SparedEnslaveAll(c: Config, p: Package, ports: seq<string>, devs: set<string>)
    requires Spared(c, p, devs) && forall w :: w in ports ==> w !in devs
    ensures Spared(c, EnslaveAll(c, p, ports), devs)
  {
    if ports != [] {
      SparedEnslaveAll(c, p, ports[..|ports| - 1], devs);
      SparedEnslave(c, EnslaveAll(c, p, ports[..|ports| - 1]), ports[|ports| - 1], devs);
    }
  }

  lemma SparedBridging(c: Config, p: Package, dev: string, devs: set<string>)
    requires Spared(c, p, devs)
    ensures Spared(c, Bridge(c, p, dev), devs) && Spared(c, Unbridge(c, p, dev), devs)
  {
    forall n ensures Text(At(Bridge(c, p, dev), n), "device") == Text(At(p, n), "device") == Text(At(Unbridge(c, p, dev), n), "device")
                  && Text(At(Bridge(c, p, dev), n), "proto") == Text(At(p, n), "proto") == Text(At(Unbridge(c, p, dev), n), "proto")
    {
      BridgeTexts(c, p, dev, n, "device");
      BridgeTexts(c, p, dev, n, "proto");
    }
  }

  lemma {:induction false} SparedReleaseAll(c: Config, p: Package, ports: seq<string>, devs: set<string>)
    requires Spared(c, p, devs)
    ensures Spared(c, ReleaseAll(c, p, ports), devs)
  {
    if ports != [] {
      var q := ReleaseAll(c, p, ports[..|ports| - 1]);
      SparedReleaseAll(c, p, ports[..|ports| - 1], devs);
      SparedBridging(c, q, ports[|ports| - 1], devs);
      SparedBridging(c, Unbridge(c, q, ports[|ports| - 1]), ports[|ports| - 1], devs);
    }
  }

  lemma SparedSoft(c: Config, p: Package, devs: set<string>)
    requires Spared(c, p, devs)
    ensures Spared(c, Edited(p, SoftEdits(c)), devs)
  {
    var es := SoftEdits(c);
    EditedFew(p, es[0], es[1]);
    NotIface(c);
    var q := EditOne(p, es[0]);
    var r := EditOne(q, es[1]);
    forall n | n in r && Hardif(c, r, n)
      ensures n in p && Hardif(c, p, n) && Text(r[n], "device") == Text(p[n], "device")
    {
      EditTexts(p, es[0], n, "proto");
      EditTexts(p, es[0], n, "device");
      EditTexts(q, es[1], n, "proto");
      EditTexts(q, es[1], n, "device");
    }
  }

  lemma PerformSpares(c: Config, p: Package, op: Op, devs: set<string>)
    requires Spared(c, p, devs) && (forall w :: w in c.wiredPorts ==> w !in devs)
    requires op.Enslave? ==> op.port !in devs
    ensures Spared(c, Perform(c, p, op), devs)
  {
    match op
    case Apply =>
      var q := EnslaveAll(c, Edited(p, SoftEdits(c)), c.wiredPorts);
      SparedSoft(c, p, devs);
      SparedEnslaveAll(c, Edited(p, SoftEdits(c)), c.wiredPorts, devs);
      SparedBridging(c, q, c.iface, devs);
      SparedBridging(c, Unbridge(c, q, c.iface), c.iface, devs);
    case Enslave(port) => SparedEnslave(c, p, port, devs);
    case Release(port) =>
      SparedBridging(c, p, port, devs);
      SparedBridging(c, Unbridge(c, p, port), port, devs);
    case Teardown =>
      SparedBridging(c, p, c.iface, devs);
      SparedReleaseAll(c, Unbridge(c, p, c.iface), c.wiredPorts, devs);
    case AddUplink(port) => SparedBridging(c, p, port, devs);
    case RemoveUplink(port) => SparedBridging(c, p, port, devs);
  }

  lemma PerformKeepsExclusive(c: Config, p: Package, op: Op)
    requires c.lanDevice != "" && Exclusive(c, p) && (forall w :: w in c.wiredPorts ==> Ordinary(c, w))
    requires op.Enslave? ==> Ordinary(c, op.port)
    requires op.AddUplink? ==> Spared(c, p, {op.port})
    ensures Exclusive(c, Perform(c, p, op))
  {
    match op
    case Apply =>
      ExclusiveSoft(c, p);
      ExclusiveEnslaveAll(c, Edited(p, SoftEdits(c)), c.wiredPorts);
      var q := EnslaveAll(c, Edited(p, SoftEdits(c)), c.wiredPorts);
      ExclusiveUnbridge(c, q, c.iface);
      ExclusiveBridgeIff(c, Unbridge(c, q, c.iface), c.iface);
    case Enslave(port) => ExclusiveEnslave(c, p, port);
    case Release(port) => ExclusiveRelease(c, p, port);
    case Teardown =>
      ExclusiveUnbridge(c, p, c.iface);
      ExclusiveReleaseAll(c, Unbridge(c, p, c.iface), c.wiredPorts);
      ExclusiveDelete(c, ReleaseAll(c, Unbridge(c, p, c.iface), c.wiredPorts), {c.MeshHardif(), c.iface});
    case AddUplink(port) => ExclusiveBridgeIff(c, p, port);
    case RemoveUplink(port) => ExclusiveUnbridge(c, p, port);
  }

  ghost function Uplinks(ops: seq<Op>): set<string> {
    set op | op in ops && op.AddUplink? :: op.port
  }

  // Main result. Over any sequence of operations, no device is both a port of
  // the LAN bridge and the device of a hard interface.
  lemma {:induction false} NeverBoth(c: Config, p: Package, ops: seq<Op>, devs: set<string>)
    requires c.lanDevice != "" && Exclusive(c, p) && Sensible(c, ops)
    requires Uplinks(ops) <= devs && Spared(c, p, devs)
    requires forall d :: d in devs ==> d !in c.wiredPorts && Enslave(d) !in ops
    ensures Exclusive(c, Run(c, p, ops)) && Spared(c, Run(c, p, ops), devs)
    ensures forall dev :: dev != "" ==> !(Bridged(c, Run(c, p, ops), dev) && Enslaved(Run(c, p, ops), dev))
  {
    if ops != [] {
      var init, op := ops[..|ops| - 1], ops[|ops| - 1];
      assert ops == init + [op];
      assert Uplinks(init) <= Uplinks(ops);
      NeverBoth(c, p, init, devs);
      assert op.AddUplink? ==> op.port in Uplinks(ops);
      PerformKeepsExclusive(c, Run(c, p, init), op);
      PerformSpares(c, Run(c, p, init), op, devs);
    }
    forall dev | dev != "" ensures !(Bridged(c, Run(c, p, ops), dev) && Enslaved(Run(c, p, ops), dev)) {
      ExclusiveMeansDisjoint(c, Run(c, p, ops), dev);
    }
  }
}
