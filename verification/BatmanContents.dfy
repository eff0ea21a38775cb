/**
 What the batman-adv layer says once it is authored (internal/batman/batman.go):
 section by section and option by option.
 */
module BatmanContents {
  import opened Wrappers
  import opened Uci
  import opened Batman
  import opened BatmanTheorems
  import opened PortPlacement
  import A = AddressReadback

  // A section name keeps letters, digits and underscores, and has an underscore
  // for anything else.
  lemma {:induction false} SanitizedAt(s: string, i: nat)
    requires i < |s|
    ensures Sanitize(s)[i] == if s[i] == '_' || 'a' <= s[i] <= 'z' || 'A' <= s[i] <= 'Z' || '0' <= s[i] <= '9' then s[i] else '_'
  {
    if i < |s| - 1 {
      SanitizedAt(s[..|s| - 1], i);
    }
  }

  lemma NamesAre(c: Config, port: string)
    ensures c.MeshHardif() == c.iface + "_mesh"
    ensures c.WiredHardif(port) == c.iface + "_" + Sanitize(port)
    ensures c.DeviceSection(port) == "dev_" + Sanitize(port)
  {
  }

  predicate Reads(opts: map<string, Value>, option: string, value: string) {
    option in opts && opts[option] == Scalar(value)
  }

  // ----- the edits, section by section -----

  lemma PortHardifSet(c: Config, es: seq<Edit>, port: string)
    requires c.DeviceSection(port) != c.WiredHardif(port)
    ensures HardifReads(c, OptionsSet(es + PortEdits(c, port), c.WiredHardif(port)), port)
  {
    var all, first := es + PortEdits(c, port), es + [HardifEdit(c, port)];
    assert first[..|es|] == es && first[|es|] == HardifEdit(c, port);
    if DeviceEdits(c, port) == [] {
      assert all == first;
    } else {
      assert all[..|all| - 1] == first;
    }
  }

  lemma PortDeviceSet(c: Config, es: seq<Edit>, port: string)
    requires c.overrides.Some? && c.overrides.value(port).Some?
    ensures var opts := OptionsSet(es + PortEdits(c, port), c.DeviceSection(port));
      Reads(opts, "name", port) && Reads(opts, "macaddr", c.overrides.value(port).value)
  {
    var all := es + PortEdits(c, port);
    assert all == es + [HardifEdit(c, port)] + [DeviceEdits(c, port)[0]];
    assert all[|all| - 1] == DeviceEdits(c, port)[0];
  }

  predicate HardifReads(c: Config, opts: map<string, Value>, w: string) {
    Reads(opts, "proto", "batadv_hardif") && Reads(opts, "master", c.iface) && Reads(opts, "device", w)
  }

  lemma {:induction false} HardifSet(c: Config, es: seq<Edit>, ports: seq<string>, w: string)
    requires NamesApart(c) && w in ports && forall v :: v in ports ==> v in c.wiredPorts
    ensures HardifReads(c, OptionsSet(es + PortsEdits(c, ports), c.WiredHardif(w)), w)
  {
    var init, v := ports[..|ports| - 1], ports[|ports| - 1];
    assert ports == init + [v];
    A.Associate(es, PortsEdits(c, init), PortEdits(c, v));
    if v == w {
      PortHardifSet(c, es + PortsEdits(c, init), w);
    } else {
      HardifSet(c, es, init, w);
      HardifsDiffer(c, v, w);
      A.OtherPortAddress(c, es + PortsEdits(c, init), v, c.WiredHardif(w));
    }
  }

  lemma {:induction false} DeviceSet(c: Config, es: seq<Edit>, ports: seq<string>, w: string)
    requires NamesApart(c) && w in ports && forall v :: v in ports ==> v in c.wiredPorts
    requires c.overrides.Some? && c.overrides.value(w).Some?
    ensures Reads(OptionsSet(es + PortsEdits(c, ports), c.DeviceSection(w)), "name", w)
  {
    var init, v := ports[..|ports| - 1], ports[|ports| - 1];
    assert ports == init + [v];
    A.Associate(es, PortsEdits(c, init), PortEdits(c, v));
    if v == w {
      PortDeviceSet(c, es + PortsEdits(c, init), w);
    } else {
      DeviceSet(c, es, init, w);
      HardifsDiffer(c, v, w);
      A.OtherPortAddress(c, es + PortsEdits(c, init), v, c.DeviceSection(w));
    }
  }

  lemma SoftOptions(c: Config)
    ensures OptionsSet(SoftEdits(c), c.iface) == Scalars(SoftEdits(c)[0].values)
    ensures OptionsSet(SoftEdits(c), c.MeshHardif()) == Scalars(SoftEdits(c)[1].values)
  {
    var es := SoftEdits(c);
    NotIface(c);
    OptionsOfTwo(es[0], es[1]);
    assert es == [es[0], es[1]];
  }

  lemma OptionsOfTwo(a: Edit, b: Edit)
    requires a.section != b.section
    ensures OptionsSet([a, b], a.section) == Scalars(a.values) && OptionsSet([a, b], b.section) == Scalars(b.values)
  {
    assert [a, b][..1] == [a] && [a][..0] == [];
    assert OptionsSet([a], a.section) == map[] + Scalars(a.values) == Scalars(a.values);
    assert OptionsSet([a], b.section) == map[] && map[] + Scalars(b.values) == Scalars(b.values);
  }

  lemma SoftAlone(c: Config)
    ensures Reads(OptionsSet(SoftEdits(c), c.iface), "proto", "batadv")
    ensures Reads(OptionsSet(SoftEdits(c), c.iface), "routing_algo", c.routingAlgo)
    ensures Reads(OptionsSet(SoftEdits(c), c.iface), "bridge_loop_avoidance", "1")
    ensures Reads(OptionsSet(SoftEdits(c), c.MeshHardif()), "proto", "batadv_hardif")
    ensures Reads(OptionsSet(SoftEdits(c), c.MeshHardif()), "master", c.iface)
  {
    SoftOptions(c);
    SoftValues(c);
  }

  lemma SoftValues(c: Config)
    ensures var opts := Scalars(SoftEdits(c)[0].values);
      Reads(opts, "proto", "batadv") && Reads(opts, "routing_algo", c.routingAlgo) && Reads(opts, "bridge_loop_avoidance", "1")
    ensures var opts := Scalars(SoftEdits(c)[1].values); Reads(opts, "proto", "batadv_hardif") && Reads(opts, "master", c.iface)
  {
  }

  lemma SoftApart(c: Config, v: string)
    requires NamesApart(c) && v in c.wiredPorts
    ensures c.iface !in PortSections(c, v) && c.MeshHardif() !in PortSections(c, v)
  {
    NotIface(c);
  }

  lemma {:induction false} SoftSet(c: Config, ports: seq<string>)
    requires NamesApart(c) && forall v :: v in ports ==> v in c.wiredPorts
    ensures var opts := OptionsSet(SoftEdits(c) + PortsEdits(c, ports), c.iface);
      Reads(opts, "proto", "batadv") && Reads(opts, "routing_algo", c.routingAlgo) && Reads(opts, "bridge_loop_avoidance", "1")
    ensures var opts := OptionsSet(SoftEdits(c) + PortsEdits(c, ports), c.MeshHardif());
      Reads(opts, "proto", "batadv_hardif") && Reads(opts, "master", c.iface)
  {
    if ports == [] {
      assert SoftEdits(c) + [] == SoftEdits(c);
      SoftAlone(c);
    } else {
      var init, v := ports[..|ports| - 1], ports[|ports| - 1];
      assert ports == init + [v];
      SoftSet(c, init);
      SoftApart(c, v);
      A.Associate(SoftEdits(c), PortsEdits(c, init), PortEdits(c, v));
      A.OtherPortAddress(c, SoftEdits(c) + PortsEdits(c, init), v, c.iface);
      A.OtherPortAddress(c, SoftEdits(c) + PortsEdits(c, init), v, c.MeshHardif());
    }
  }

  lemma AppliedReads(c: Config, p: Package, n: string, option: string, value: string)
    requires LanThere(c, p) && LanApart(c) && n != c.lanDevice
    requires Reads(OptionsSet(AllEdits(c), n), option, value)
    ensures n in ApplyNet(c, p) && Text(ApplyNet(c, p)[n], option) == value
  {
    ApplyShape(c, p);
    EditedAt(p, AllEdits(c), n);
    if n !in Touched(AllEdits(c)) {
      NothingSet(AllEdits(c), n);
    }
  }

  // Main result. Authored, bat0 is a batman-adv interface with the configured
  // routing algorithm and loop avoidance, the mesh has a hard interface of bat0 ...
  lemma SoftSays(c: Config, p: Package)
    requires LanThere(c, p) && LanApart(c) && NamesApart(c)
    ensures var a := ApplyNet(c, p);
      && c.iface in a && Text(a[c.iface], "proto") == "batadv" && Text(a[c.iface], "routing_algo") == c.routingAlgo
      && Text(a[c.iface], "bridge_loop_avoidance") == "1"
      && c.iface + "_mesh" in a && Text(a[c.iface + "_mesh"], "proto") == "batadv_hardif"
      && Text(a[c.iface + "_mesh"], "master") == c.iface
  {
    SoftSet(c, c.wiredPorts);
    AppliedReads(c, p, c.iface, "proto", "batadv");
    AppliedReads(c, p, c.iface, "routing_algo", c.routingAlgo);
    AppliedReads(c, p, c.iface, "bridge_loop_avoidance", "1");
    AppliedReads(c, p, c.MeshHardif(), "proto", "batadv_hardif");
    AppliedReads(c, p, c.MeshHardif(), "master", c.iface);
  }

  // ... and so has every wired port, with the port as its device; and a port whose
  // address is derived has it in a device section of its own.
  lemma PortSays(c: Config, p: Package, w: string)
    requires LanThere(c, p) && LanApart(c) && NamesApart(c) && w in c.wiredPorts
    ensures var a, hardif, device := ApplyNet(c, p), c.iface + "_" + Sanitize(w), "dev_" + Sanitize(w);
      && hardif in a && Text(a[hardif], "proto") == "batadv_hardif" && Text(a[hardif], "master") == c.iface
      && Text(a[hardif], "device") == w
      && (c.overrides.Some? && c.overrides.value(w).Some? ==>
            device in a && Text(a[device], "name") == w && Text(a[device], "macaddr") == c.overrides.value(w).value)
  {
    HardifSet(c, SoftEdits(c), c.wiredPorts, w);
    LanIsNoPortSection(c, w);
    AppliedReads(c, p, c.WiredHardif(w), "proto", "batadv_hardif");
    AppliedReads(c, p, c.WiredHardif(w), "master", c.iface);
    AppliedReads(c, p, c.WiredHardif(w), "device", w);
    if c.overrides.Some? && c.overrides.value(w).Some? {
      DeviceSet(c, SoftEdits(c), c.wiredPorts, w);
      AppliedReads(c, p, c.DeviceSection(w), "name", w);
      A.AppliedAddress(c, p, w);
    }
  }

  // Nothing else of the package changes but the LAN bridge's ports.
  lemma AppliedElsewhere(c: Config, p: Package, n: string)
    requires LanThere(c, p) && LanApart(c) && n !in Names(c)
    ensures n != c.lanDevice ==> (n in ApplyNet(c, p) <==> n in p) && (n in p ==> ApplyNet(c, p)[n] == p[n])
    ensures n == c.lanDevice != "" ==> Rest(ApplyNet(c, p)[n], "ports") == Rest(p[n], "ports")
  {
    ApplyShape(c, p);
    AllTouched(c);
    EditedAt(p, AllEdits(c), n);
    if n == c.lanDevice != "" {
      WithListMeaning(p[n], PORTS, JoinedPorts(c, ListOf(p[n], PORTS)));
    }
  }

  // Nor does falling back.
  lemma FallbackElsewhere(c: Config, p: Package, n: string)
    requires LanThere(c, p) && LanApart(c) && n !in Names(c)
    ensures var q := TeardownNet(c, ApplyNet(c, p));
      && (n != c.lanDevice ==> (n in q <==> n in p) && (n in p ==> q[n] == p[n]))
      && (n == c.lanDevice != "" ==> n in q && Rest(q[n], "ports") == Rest(p[n], "ports"))
  {
    FallbackShape(c, p);
    if n == c.lanDevice != "" {
      WithListMeaning(p[n], PORTS, FallbackPorts(c, ListOf(p[n], PORTS)));
    }
  }
}
