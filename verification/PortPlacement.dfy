/**
 Where the configured wired ports are: in the LAN bridge or on a hard interface,
 and when handing them back succeeds.
 */
module PortPlacement {
  import opened Wrappers
  import opened Lists
  import opened Uci
  import opened Batman
  import opened BatmanTheorems
  import opened PortPartition

  // Section names tell the wired ports apart, and from bat0's own sections.
  ghost predicate NamesApart(c: Config) {
    && (forall i, j :: 0 <= i < j < |c.wiredPorts| ==> Sanitize(c.wiredPorts[i]) != Sanitize(c.wiredPorts[j]))
    && (forall w :: w in c.wiredPorts ==> Ordinary(c, w) && c.WiredHardif(w) != c.MeshHardif())
    && (forall v, w :: v in c.wiredPorts && w in c.wiredPorts ==> c.DeviceSection(v) != c.WiredHardif(w))
    && (forall v :: v in c.wiredPorts ==> c.DeviceSection(v) != c.MeshHardif() && c.DeviceSection(v) != c.iface)
  }

  lemma HardifsDiffer(c: Config, v: string, w: string)
    requires NamesApart(c) && v in c.wiredPorts && w in c.wiredPorts && v != w
    ensures c.WiredHardif(v) != c.WiredHardif(w) && c.DeviceSection(v) != c.DeviceSection(w)
  {
    var i :| 0 <= i < |c.wiredPorts| && c.wiredPorts[i] == v;
    var j :| 0 <= j < |c.wiredPorts| && c.wiredPorts[j] == w;
    assert Sanitize(v) != Sanitize(w) by {
      if i < j {
        assert Sanitize(c.wiredPorts[i]) != Sanitize(c.wiredPorts[j]);
      } else {
        assert Sanitize(c.wiredPorts[j]) != Sanitize(c.wiredPorts[i]);
      }
    }
    assert c.WiredHardif(v)[|c.iface| + 1..] == Sanitize(v) && c.WiredHardif(w)[|c.iface| + 1..] == Sanitize(w);
    assert c.DeviceSection(v)[4..] == Sanitize(v) && c.DeviceSection(w)[4..] == Sanitize(w);
  }

  predicate Placed(c: Config, p: Package, w: string) {
    Bridged(c, p, w) || IsHardif(p, c.WiredHardif(w), w)
  }

  ghost predicate AllPlaced(c: Config, p: Package) {
    forall w :: w in c.wiredPorts ==> Placed(c, p, w)
  }

  // A section keeps its texts while another port is enslaved.
  lemma EnslaveElsewhere(c: Config, p: Package, port: string, n: string)
    requires n !in PortSections(c, port) && n != c.lanDevice
    ensures (n in EnslaveNet(c, p, port) <==> n in p) && At(EnslaveNet(c, p, port), n) == At(p, n)
  {
    var r := Unbridge(c, EditOne(p, HardifEdit(c, port)), port);
    if DeviceEdits(c, port) != [] {
      EditedFew(r, DeviceEdits(c, port)[0], DeviceEdits(c, port)[0]);
    }
  }

  lemma EnslaveMakesHardif(c: Config, p: Package, port: string)
    requires c.lanDevice != c.WiredHardif(port) && c.DeviceSection(port) != c.WiredHardif(port)
    ensures IsHardif(EnslaveNet(c, p, port), c.WiredHardif(port), port)
  {
    var q := EditOne(p, HardifEdit(c, port));
    assert IsHardif(q, c.WiredHardif(port), port);
    var r := Unbridge(c, q, port);
    if DeviceEdits(c, port) != [] {
      EditedFew(r, DeviceEdits(c, port)[0], DeviceEdits(c, port)[0]);
    }
  }

  lemma EnslaveKeepsOthersBridged(c: Config, p: Package, port: string, w: string)
    requires c.lanDevice != "" && c.lanDevice !in PortSections(c, port) && w != port && Bridged(c, p, w)
    ensures Bridged(c, EnslaveNet(c, p, port), w)
  {
    var q := EditOne(p, HardifEdit(c, port));
    var r := Unbridge(c, q, port);
    BridgePorts(c, q, port, w);
    if DeviceEdits(c, port) != [] {
      EditedFew(r, DeviceEdits(c, port)[0], DeviceEdits(c, port)[0]);
    }
  }

  lemma PlacedEnslave(c: Config, p: Package, port: string, w: string)
    requires c.lanDevice != "" && LanApart(c) && NamesApart(c)
    requires port in c.wiredPorts && w in c.wiredPorts && (w != port ==> Placed(c, p, w))
    ensures Placed(c, EnslaveNet(c, p, port), w)
    ensures IsHardif(EnslaveNet(c, p, port), c.WiredHardif(port), port)
    ensures w != port && IsHardif(p, c.WiredHardif(w), w) ==> IsHardif(EnslaveNet(c, p, port), c.WiredHardif(w), w)
  {
    LanIsNoPortSection(c, port);
    LanIsNoPortSection(c, w);
    EnslaveMakesHardif(c, p, port);
    if w != port {
      HardifsDiffer(c, w, port);
      EnslaveElsewhere(c, p, port, c.WiredHardif(w));
      if Bridged(c, p, w) {
        EnslaveKeepsOthersBridged(c, p, port, w);
      }
    }
  }

  lemma {:induction false} LanIsNoPortSectionIn(c: Config, ports: seq<string>, w: string)
    requires w in ports
    ensures PortSections(c, w) <= PortNames(c, ports)
  {
    if ports[|ports| - 1] != w {
      assert ports == ports[..|ports| - 1] + [ports[|ports| - 1]];
      LanIsNoPortSectionIn(c, ports[..|ports| - 1], w);
    }
  }

  lemma LanIsNoPortSection(c: Config, w: string)
    requires LanApart(c) && w in c.wiredPorts
    ensures c.lanDevice !in PortSections(c, w)
  {
    LanIsNoPortSectionIn(c, c.wiredPorts, w);
  }

  lemma PlacedRelease(c: Config, p: Package, port: string, w: string)
    requires c.lanDevice != "" && LanApart(c) && NamesApart(c)
    requires port in c.wiredPorts && w in c.wiredPorts && (w != port ==> Placed(c, p, w))
    ensures Placed(c, ReleaseNet(c, p, port), w) && Bridged(c, ReleaseNet(c, p, port), port)
    ensures Bridged(c, p, w) ==> Bridged(c, ReleaseNet(c, p, port), w)
  {
    LanIsNoPortSection(c, port);
    LanIsNoPortSection(c, w);
    var q := Unbridge(c, p, port);
    BridgePorts(c, p, port, w);
    BridgePorts(c, q, port, w);
    BridgePorts(c, q, port, port);
    if w != port {
      HardifsDiffer(c, w, port);
    }
  }

  // After these ports are enslaved each is a hard interface.
  lemma {:induction false} EnslavedAll(c: Config, p: Package, ports: seq<string>, w: string)
    requires c.lanDevice != "" && LanApart(c) && NamesApart(c)
    requires (forall v :: v in ports ==> v in c.wiredPorts) && w in c.wiredPorts
    requires w !in ports ==> Placed(c, p, w)
    ensures Placed(c, EnslaveAll(c, p, ports), w)
    ensures w in ports ==> IsHardif(EnslaveAll(c, p, ports), c.WiredHardif(w), w)
  {
    if ports != [] {
      var init, v := ports[..|ports| - 1], ports[|ports| - 1];
      assert ports == init + [v];
      if w !in init && w == v {
        PlacedEnslave(c, EnslaveAll(c, p, init), v, w);
      } else {
        EnslavedAll(c, p, init, w);
        PlacedEnslave(c, EnslaveAll(c, p, init), v, w);
      }
    }
  }

  lemma {:induction false} ReleasedAll(c: Config, p: Package, ports: seq<string>, w: string)
    requires c.lanDevice != "" && LanApart(c) && NamesApart(c)
    requires (forall v :: v in ports ==> v in c.wiredPorts) && w in c.wiredPorts
    requires w !in ports ==> Placed(c, p, w)
    ensures Placed(c, ReleaseAll(c, p, ports), w)
    ensures w in ports ==> Bridged(c, ReleaseAll(c, p, ports), w)
  {
    if ports != [] {
      var init, v := ports[..|ports| - 1], ports[|ports| - 1];
      assert ports == init + [v];
      if w !in init && w == v {
        PlacedRelease(c, ReleaseAll(c, p, init), v, w);
      } else {
        ReleasedAll(c, p, init, w);
        PlacedRelease(c, ReleaseAll(c, p, init), v, w);
      }
    }
  }

  // Apply puts every wired port on a hard interface.
  lemma ApplyEnslaves(c: Config, p: Package, w: string)
    requires c.lanDevice != "" && LanApart(c) && NamesApart(c) && w in c.wiredPorts
    ensures IsHardif(ApplyNet(c, p), c.WiredHardif(w), w)
  {
    LanIsNoPortSection(c, w);
    EnslavedAll(c, Edited(p, SoftEdits(c)), c.wiredPorts, w);
  }

  // Teardown puts every wired port in the bridge.
  lemma TeardownBridges(c: Config, p: Package, w: string)
    requires c.lanDevice != "" && LanApart(c) && NamesApart(c) && w in c.wiredPorts
    ensures Bridged(c, TeardownNet(c, p), w)
  {
    ReleasedAll(c, Unbridge(c, p, c.iface), c.wiredPorts, w);
  }

  // The operations of the manager on its own ports.
  ghost predicate Own(c: Config, op: Op) {
    op.Apply? || op.Teardown? || ((op.Enslave? || op.Release?) && op.port in c.wiredPorts)
  }

  lemma PerformKeepsPlaced(c: Config, p: Package, op: Op)
    requires c.lanDevice != "" && LanApart(c) && NamesApart(c) && Own(c, op) && AllPlaced(c, p)
    ensures AllPlaced(c, Perform(c, p, op))
  {
    forall w | w in c.wiredPorts ensures Placed(c, Perform(c, p, op), w) {
      match op
      case Apply => ApplyEnslaves(c, p, w);
      case Enslave(port) => PlacedEnslave(c, p, port, w);
      case Release(port) => PlacedRelease(c, p, port, w);
      case Teardown => TeardownBridges(c, p, w);
      case _ =>
    }
  }

  // Main result. Over any sequence of operations on the configured ports, each
  // of them is in the bridge or on its hard interface, and never both.
  lemma {:induction false} ExactlyOnePlace(c: Config, p: Package, ops: seq<Op>)
    requires c.lanDevice != "" && LanApart(c) && NamesApart(c)
    requires Exclusive(c, p) && AllPlaced(c, p)
    requires forall op :: op in ops ==> Own(c, op)
    ensures Exclusive(c, Run(c, p, ops)) && AllPlaced(c, Run(c, p, ops))
    ensures forall w :: w in c.wiredPorts ==>
              (Bridged(c, Run(c, p, ops), w) <==> !IsHardif(Run(c, p, ops), c.WiredHardif(w), w))
  {
    if ops != [] {
      var init, op := ops[..|ops| - 1], ops[|ops| - 1];
      assert ops == init + [op];
      ExactlyOnePlace(c, p, init);
      PerformKeepsPlaced(c, Run(c, p, init), op);
      PerformKeepsExclusive(c, Run(c, p, init), op);
    }
    forall w | w in c.wiredPorts ensures !(Bridged(c, Run(c, p, ops), w) && IsHardif(Run(c, p, ops), c.WiredHardif(w), w)) {
      ExclusiveMeansDisjoint(c, Run(c, p, ops), w);
    }
  }

  // ----- bat0 is bridged once -----

  function Count(xs: seq<string>, x: string): nat {
    multiset(xs)[x]
  }

  lemma {:induction false} MinusCount(xs: seq<string>, drop: set<string>, x: string)
    ensures Count(Minus(xs, drop), x) == if x in drop then 0 else Count(xs, x)
  {
    if xs != [] {
      MinusCount(xs[..|xs| - 1], drop, x);
      assert xs == xs[..|xs| - 1] + [xs[|xs| - 1]];
    }
  }

  // However often bat0 was listed before, Apply leaves it listed once, last.
  lemma ApplyBridgesBat0Once(c: Config, p: Package)
    requires c.lanDevice != "" && c.lanDevice in p && LanApart(c)
    ensures var items := ListOf(At(ApplyNet(c, p), c.lanDevice), PORTS);
      Count(items, c.iface) == 1 && items[|items| - 1] == c.iface
  {
    ApplyShape(c, p);
    var s := p[c.lanDevice];
    WithListMeaning(s, PORTS, JoinedPorts(c, ListOf(s, PORTS)));
    MinusCount(ListOf(s, PORTS), SetOf(c.wiredPorts) + {c.iface}, c.iface);
  }

  function Listed(c: Config, p: Package, dev: string): nat {
    Count(ListOf(At(p, c.lanDevice), PORTS), dev)
  }

  lemma BridgingCounts(c: Config, p: Package, dev: string, x: string)
    requires c.lanDevice != ""
    ensures Listed(c, Unbridge(c, p, dev), x) == if x == dev then 0 else Listed(c, p, x)
    ensures Listed(c, Bridge(c, p, dev), x) == if x == dev && Listed(c, p, x) == 0 then 1 else Listed(c, p, x)
  {
    var s := At(p, c.lanDevice);
    ItemOps(s, PORTS, dev);
    MinusCount(ListOf(s, PORTS), {dev}, x);
  }

  // A list with each port at most once stays so.
  lemma BridgingOnce(c: Config, p: Package, dev: string, x: string)
    ensures Listed(c, p, x) <= 1 ==> Listed(c, Unbridge(c, p, dev), x) <= 1 && Listed(c, Bridge(c, p, dev), x) <= 1
  {
    if c.lanDevice != "" {
      BridgingCounts(c, p, dev, x);
    }
  }

  lemma {:induction false} EditsKeepPorts(p: Package, es: seq<Edit>, n: string)
    requires forall e :: e in es ==> PORTS !in e.values
    ensures ListOf(At(Edited(p, es), n), PORTS) == ListOf(At(p, n), PORTS)
  {
    if es != [] {
      var init, e := es[..|es| - 1], es[|es| - 1];
      assert es == init + [e];
      EditsKeepPorts(p, init, n);
      EditTexts(Edited(p, init), e, n, PORTS);
    }
  }

  lemma EnslaveOnce(c: Config, p: Package, port: string, x: string)
    ensures Listed(c, p, x) <= 1 ==> Listed(c, EnslaveNet(c, p, port), x) <= 1
  {
    var q := EditOne(p, HardifEdit(c, port));
    EditTexts(p, HardifEdit(c, port), c.lanDevice, PORTS);
    BridgingOnce(c, q, port, x);
    EditsKeepPorts(Unbridge(c, q, port), DeviceEdits(c, port), c.lanDevice);
  }

  lemma {:induction false} EnslaveAllOnce(c: Config, p: Package, ports: seq<string>, x: string)
    ensures Listed(c, p, x) <= 1 ==> Listed(c, EnslaveAll(c, p, ports), x) <= 1
  {
    if ports != [] {
      EnslaveAllOnce(c, p, ports[..|ports| - 1], x);
      EnslaveOnce(c, EnslaveAll(c, p, ports[..|ports| - 1]), ports[|ports| - 1], x);
    }
  }

  lemma DeletesOnce(c: Config, p: Package, gone: set<string>, x: string)
    ensures Listed(c, p, x) <= 1 ==> Listed(c, p - gone, x) <= 1
  {
  }

  lemma ReleaseOnce(c: Config, p: Package, port: string, x: string)
    ensures Listed(c, p, x) <= 1 ==> Listed(c, ReleaseNet(c, p, port), x) <= 1
  {
    BridgingOnce(c, p, port, x);
    BridgingOnce(c, Unbridge(c, p, port), port, x);
    DeletesOnce(c, Bridge(c, Unbridge(c, p, port), port), PortSections(c, port), x);
  }

  lemma {:induction false} ReleaseAllOnce(c: Config, p: Package, ports: seq<string>, x: string)
    ensures Listed(c, p, x) <= 1 ==> Listed(c, ReleaseAll(c, p, ports), x) <= 1
  {
    if ports != [] {
      ReleaseAllOnce(c, p, ports[..|ports| - 1], x);
      ReleaseOnce(c, ReleaseAll(c, p, ports[..|ports| - 1]), ports[|ports| - 1], x);
    }
  }

  lemma PerformOnce(c: Config, p: Package, op: Op, x: string)
    ensures Listed(c, p, x) <= 1 ==> Listed(c, Perform(c, p, op), x) <= 1
  {
    match op
    case Apply =>
      var soft := Edited(p, SoftEdits(c));
      EditsKeepPorts(p, SoftEdits(c), c.lanDevice);
      EnslaveAllOnce(c, soft, c.wiredPorts, x);
      var all := EnslaveAll(c, soft, c.wiredPorts);
      BridgingOnce(c, all, c.iface, x);
      BridgingOnce(c, Unbridge(c, all, c.iface), c.iface, x);
    case Enslave(port) => EnslaveOnce(c, p, port, x);
    case Release(port) => ReleaseOnce(c, p, port, x);
    case Teardown =>
      BridgingOnce(c, p, c.iface, x);
      var q := Unbridge(c, p, c.iface);
      ReleaseAllOnce(c, q, c.wiredPorts, x);
      DeletesOnce(c, ReleaseAll(c, q, c.wiredPorts), {c.MeshHardif(), c.iface}, x);
    case AddUplink(port) => BridgingOnce(c, p, port, x);
    case RemoveUplink(port) => BridgingOnce(c, p, port, x);
  }

  // Applying and tearing down also mend a list that held bat0 more than once.
  lemma MendsBat0(c: Config, p: Package, op: Op)
    requires c.lanDevice != "" && (op.Apply? || op.Teardown?)
    ensures Listed(c, Perform(c, p, op), c.iface) <= 1
  {
    if op.Apply? {
      var all := EnslaveAll(c, Edited(p, SoftEdits(c)), c.wiredPorts);
      BridgingCounts(c, all, c.iface, c.iface);
      BridgingCounts(c, Unbridge(c, all, c.iface), c.iface, c.iface);
    } else {
      var q := Unbridge(c, p, c.iface);
      BridgingCounts(c, p, c.iface, c.iface);
      ReleaseAllOnce(c, q, c.wiredPorts, c.iface);
      DeletesOnce(c, ReleaseAll(c, q, c.wiredPorts), {c.MeshHardif(), c.iface}, c.iface);
    }
  }

  // Main result. Over any sequence of operations and postures, whatever names the
  // ports have: no port comes to be listed twice, and bat0 is listed once at most
  // as soon as one Apply or Teardown is among them.
  lemma {:induction false} NeverListedTwice(c: Config, p: Package, ops: seq<Op>)
    ensures forall x :: Listed(c, p, x) <= 1 ==> Listed(c, Run(c, p, ops), x) <= 1
    ensures c.lanDevice != "" && (Op.Apply in ops || Op.Teardown in ops) ==> Listed(c, Run(c, p, ops), c.iface) <= 1
  {
    if ops != [] {
      var init, op := ops[..|ops| - 1], ops[|ops| - 1];
      assert ops == init + [op];
      NeverListedTwice(c, p, init);
      forall x ensures Listed(c, Run(c, p, init), x) <= 1 ==> Listed(c, Run(c, p, ops), x) <= 1 {
        PerformOnce(c, Run(c, p, init), op, x);
      }
      if c.lanDevice != "" && (op.Apply? || op.Teardown?) {
        MendsBat0(c, Run(c, p, init), op);
      }
    }
  }

  // ----- when Teardown succeeds -----

  // A port's sections can be deleted after Apply: its device section is there if
  // its address could be read or the section was there before.
  predicate Readable(c: Config, p: Package, w: string) {
    c.overrides.Some? ==> c.overrides.value(w).Some? || c.DeviceSection(w) in p
  }

  lemma PortTouchedIs(c: Config, v: string)
    ensures Touched(PortEdits(c, v))
         == {c.WiredHardif(v)} + if c.overrides.Some? && c.overrides.value(v).Some? then {c.DeviceSection(v)} else {}
  {
    TouchedConcat([HardifEdit(c, v)], DeviceEdits(c, v));
    assert HardifEdit(c, v) in [HardifEdit(c, v)];
    if DeviceEdits(c, v) != [] {
      assert DeviceEdits(c, v)[0] in DeviceEdits(c, v);
    }
  }

  lemma {:induction false} PortsTouchedAt(c: Config, ports: seq<string>, w: string)
    requires NamesApart(c) && w in c.wiredPorts && forall v :: v in ports ==> v in c.wiredPorts
    ensures c.WiredHardif(w) in Touched(PortsEdits(c, ports)) <==> w in ports
    ensures c.DeviceSection(w) in Touched(PortsEdits(c, ports)) <==>
              w in ports && c.overrides.Some? && c.overrides.value(w).Some?
  {
    if ports != [] {
      var init, v := ports[..|ports| - 1], ports[|ports| - 1];
      assert ports == init + [v];
      PortsTouchedAt(c, init, w);
      TouchedConcat(PortsEdits(c, init), PortEdits(c, v));
      PortTouchedIs(c, v);
      if v != w {
        HardifsDiffer(c, v, w);
      }
    }
  }

  lemma {:induction false} NotYetReleased(c: Config, ports: seq<string>, w: string)
    requires NamesApart(c) && w in c.wiredPorts && w !in ports && forall v :: v in ports ==> v in c.wiredPorts
    ensures c.WiredHardif(w) !in PortNames(c, ports) && c.DeviceSection(w) !in PortNames(c, ports)
  {
    if ports != [] {
      var init, v := ports[..|ports| - 1], ports[|ports| - 1];
      assert ports == init + [v];
      NotYetReleased(c, init, w);
      HardifsDiffer(c, v, w);
    }
  }

  lemma LaterPortIsNew(c: Config, init: seq<string>, w: string)
    requires NamesApart(c) && init + [w] <= c.wiredPorts
    ensures w in c.wiredPorts && w !in init && forall v :: v in init ==> v in c.wiredPorts
  {
    assert (init + [w])[|init|] == w == c.wiredPorts[|init|];
    forall i | 0 <= i < |init| ensures init[i] in c.wiredPorts && init[i] != w {
      assert (init + [w])[i] == init[i] == c.wiredPorts[i];
      assert Sanitize(c.wiredPorts[i]) != Sanitize(c.wiredPorts[|init|]);
    }
  }

  lemma {:induction false} CanReleaseIff(c: Config, p: Package, ports: seq<string>)
    requires LanThere(c, p) && LanApart(c) && NamesApart(c)
    requires ports <= c.wiredPorts
    requires forall w :: w in c.wiredPorts ==> c.WiredHardif(w) in p
    ensures CanReleaseAll(c, p, ports)
       <==> forall w :: w in ports && c.overrides.Some? ==> c.DeviceSection(w) in p
  {
    if ports != [] {
      var init, w := ports[..|ports| - 1], ports[|ports| - 1];
      assert ports == init + [w];
      CanReleaseIff(c, p, init);
      LaterPortIsNew(c, init, w);
      NotYetReleased(c, init, w);
      ReleasedShape(c, p, init);
    }
  }

  // Releasing deletes the ports' sections and, where there is a bridge, rewrites
  // its ports.
  lemma ReleasedShape(c: Config, p: Package, ports: seq<string>)
    requires LanThere(c, p) && LanApart(c) && ports <= c.wiredPorts
    ensures LanThere(c, ReleaseAll(c, p, ports))
    ensures forall n :: n != c.lanDevice ==> (n in ReleaseAll(c, p, ports) <==> n in p && n !in PortNames(c, ports))
  {
    if c.lanDevice == "" {
      ReleaseAllShapeNoLan(c, p, ports);
    } else {
      PortNamesGrow(c, ports, c.wiredPorts);
      ReleaseAllShape(c, p, ports);
    }
  }

  lemma {:induction false} PortNamesGrow(c: Config, a: seq<string>, b: seq<string>)
    requires a <= b
    ensures PortNames(c, a) <= PortNames(c, b)
    decreases |b|
  {
    if |a| < |b| {
      PortNamesGrow(c, a, b[..|b| - 1]);
    } else {
      assert a == b;
    }
  }

  lemma SoftTouched(c: Config)
    ensures Touched(SoftEdits(c)) == {c.iface, c.MeshHardif()}
  {
    assert SoftEdits(c)[0] in SoftEdits(c) && SoftEdits(c)[1] in SoftEdits(c);
  }

  // The sections there are after Apply.
  lemma AppliedSections(c: Config, p: Package, n: string)
    requires LanThere(c, p) && LanApart(c)
    ensures n in ApplyNet(c, p) <==> n in p || n in {c.iface, c.MeshHardif()} || n in Touched(PortsEdits(c, c.wiredPorts))
  {
    ApplyShape(c, p);
    EditedAt(p, AllEdits(c), n);
    TouchedConcat(SoftEdits(c), PortsEdits(c, c.wiredPorts));
    SoftTouched(c);
  }

  // Tearing down right after applying succeeds exactly when every wired port's
  // address could be read, or its device section was already there. A port whose
  // address cannot be read makes the fallback fail half-way.
  lemma TeardownAfterApplyIff(c: Config, p: Package)
    requires LanThere(c, p) && LanApart(c) && NamesApart(c)
    ensures CanTeardown(c, ApplyNet(c, p)) <==> forall w :: w in c.wiredPorts ==> Readable(c, p, w)
  {
    var a := ApplyNet(c, p);
    AppliedSections(c, p, c.lanDevice);
    AppliedSections(c, p, c.iface);
    AppliedSections(c, p, c.MeshHardif());
    forall w | w in c.wiredPorts
      ensures c.WiredHardif(w) in a && (c.overrides.Some? ==> (c.DeviceSection(w) in a <==> Readable(c, p, w)))
    {
      PortsTouchedAt(c, c.wiredPorts, w);
      AppliedSections(c, p, c.WiredHardif(w));
      AppliedSections(c, p, c.DeviceSection(w));
      NotSoft(c, w);
    }
    TeardownIff(c, a);
  }

  lemma NotSoft(c: Config, w: string)
    requires NamesApart(c) && w in c.wiredPorts
    ensures c.DeviceSection(w) !in {c.iface, c.MeshHardif()}
  {
  }

  lemma TeardownIff(c: Config, a: Package)
    requires LanThere(c, a) && LanApart(c) && NamesApart(c)
    requires c.iface in a && c.MeshHardif() in a && forall w :: w in c.wiredPorts ==> c.WiredHardif(w) in a
    ensures CanTeardown(c, a) <==> forall w :: w in c.wiredPorts && c.overrides.Some? ==> c.DeviceSection(w) in a
  {
    var q := Unbridge(c, a, c.iface);
    BridgingKeepsSections(c, a, c.iface);
    CanReleaseIff(c, q, c.wiredPorts);
    ReleasedShape(c, q, c.wiredPorts);
    SoftSurvive(c, c.wiredPorts);
  }

  lemma {:induction false} SoftSurvive(c: Config, ports: seq<string>)
    requires NamesApart(c) && forall v :: v in ports ==> v in c.wiredPorts
    ensures c.MeshHardif() !in PortNames(c, ports) && c.iface !in PortNames(c, ports)
  {
    if ports != [] {
      SoftSurvive(c, ports[..|ports| - 1]);
      assert ports[|ports| - 1] in c.wiredPorts;
      NotIface(c);
    }
  }
}
