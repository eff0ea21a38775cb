/**
 What sequences of batman-adv operations promise about the LAN bridge and the
 hard interfaces.
 */
module BatmanTheorems {
  import opened Wrappers
  import opened Lists
  import opened Uci
  import opened Batman

  // ----- the operations in closed form -----

  function PortEdits(c: Config, port: string): seq<Edit> {
    [HardifEdit(c, port)] + DeviceEdits(c, port)
  }

  function PortsEdits(c: Config, ports: seq<string>): seq<Edit> {
    if ports == [] then []
    else PortsEdits(c, ports[..|ports| - 1]) + PortEdits(c, ports[|ports| - 1])
  }

  function AllEdits(c: Config): seq<Edit> {
    SoftEdits(c) + PortsEdits(c, c.wiredPorts)
  }

  // Every section the manager authors or deletes for its wired ports.
  function PortNames(c: Config, ports: seq<string>): set<string> {
    if ports == [] then {} else PortNames(c, ports[..|ports| - 1]) + PortSections(c, ports[|ports| - 1])
  }

  function Names(c: Config): set<string> {
    PortNames(c, c.wiredPorts) + {c.MeshHardif(), c.iface}
  }

  // The LAN bridge is not one of the manager's own sections.
  predicate LanApart(c: Config) {
    c.lanDevice !in Names(c)
  }

  lemma TouchedConcat(a: seq<Edit>, b: seq<Edit>)
    ensures Touched(a + b) == Touched(a) + Touched(b)
  {
    assert forall e :: e in a + b <==> e in a || e in b;
  }

  lemma PortTouched(c: Config, port: string)
    ensures Touched(PortEdits(c, port)) <= PortSections(c, port)
  {
    TouchedConcat([HardifEdit(c, port)], DeviceEdits(c, port));
  }

  lemma {:induction false} PortsTouched(c: Config, ports: seq<string>)
    ensures Touched(PortsEdits(c, ports)) <= PortNames(c, ports)
  {
    if ports != [] {
      PortsTouched(c, ports[..|ports| - 1]);
      PortTouched(c, ports[|ports| - 1]);
      TouchedConcat(PortsEdits(c, ports[..|ports| - 1]), PortEdits(c, ports[|ports| - 1]));
    }
  }

  lemma AllTouched(c: Config)
    ensures Touched(AllEdits(c)) <= Names(c)
  {
    PortsTouched(c, c.wiredPorts);
    TouchedConcat(SoftEdits(c), PortsEdits(c, c.wiredPorts));
  }

  function Dropped(s: Section, ports: seq<string>): Section {
    if ports == [] then s else DelItem(Dropped(s, ports[..|ports| - 1]), PORTS, ports[|ports| - 1])
  }

  function SetOf(ports: seq<string>): set<string> {
    set w | w in ports
  }

  lemma SetOfLast(ports: seq<string>)
    requires ports != []
    ensures SetOf(ports) == SetOf(ports[..|ports| - 1]) + {ports[|ports| - 1]}
  {
    assert ports == ports[..|ports| - 1] + [ports[|ports| - 1]];
  }

  lemma {:induction false} DroppedMeaning(s: Section, ports: seq<string>)
    ensures ListOf(Dropped(s, ports), PORTS) == Minus(ListOf(s, PORTS), SetOf(ports))
    ensures Rest(Dropped(s, ports), PORTS) == Rest(s, PORTS)
  {
    if ports == [] {
      MinusNothing(ListOf(s, PORTS), SetOf(ports));
    } else {
      var init, w := ports[..|ports| - 1], ports[|ports| - 1];
      DroppedMeaning(s, init);
      ItemOps(Dropped(s, init), PORTS, w);
      MinusMinus(ListOf(s, PORTS), SetOf(init), {w});
      SetOfLast(ports);
    }
  }

  // Enslaving touches the bridge and the port's own sections, nothing else.
  lemma EnslaveShape(c: Config, p: Package, port: string)
    requires c.lanDevice != "" && c.lanDevice in p && c.lanDevice !in PortSections(c, port)
    ensures EnslaveNet(c, p, port)
         == Edited(p, PortEdits(c, port))[c.lanDevice := DelItem(p[c.lanDevice], PORTS, port)]
  {
    var e := HardifEdit(c, port);
    PortTouched(c, port);
    TouchedConcat([e], DeviceEdits(c, port));
    EditedFew(p, e, e);
    EditedConcat(p, [e], DeviceEdits(c, port));
    EditedElsewhere(EditOne(p, e), DeviceEdits(c, port), c.lanDevice, DelItem(p[c.lanDevice], PORTS, port));
  }

  lemma EnslaveOver(c: Config, q: Package, s: Section, port: string)
    requires c.lanDevice != "" && c.lanDevice !in PortSections(c, port)
    ensures EnslaveNet(c, q[c.lanDevice := s], port)
         == Edited(q, PortEdits(c, port))[c.lanDevice := DelItem(s, PORTS, port)]
  {
    EnslaveShape(c, q[c.lanDevice := s], port);
    PortTouched(c, port);
    EditedElsewhere(q, PortEdits(c, port), c.lanDevice, s);
  }

  lemma {:induction false} EnslaveAllShape(c: Config, p: Package, ports: seq<string>)
    requires c.lanDevice != "" && c.lanDevice in p && c.lanDevice !in PortNames(c, ports)
    ensures EnslaveAll(c, p, ports)
         == Edited(p, PortsEdits(c, ports))[c.lanDevice := Dropped(p[c.lanDevice], ports)]
  {
    if ports == [] {
      assert p[c.lanDevice := p[c.lanDevice]] == p;
    } else {
      var init, w := ports[..|ports| - 1], ports[|ports| - 1];
      EnslaveAllShape(c, p, init);
      EnslaveOver(c, Edited(p, PortsEdits(c, init)), Dropped(p[c.lanDevice], init), w);
      EditedConcat(p, PortsEdits(c, init), PortEdits(c, w));
    }
  }

  // The bridge's ports after Apply: those that are not the manager's, then bat0.
  function Base(c: Config, items: seq<string>): seq<string> {
    Minus(items, SetOf(c.wiredPorts) + {c.iface})
  }

  function JoinedPorts(c: Config, items: seq<string>): seq<string> {
    Base(c, items) + [c.iface]
  }

  function JoinedSection(c: Config, s: Section): Section {
    WithList(s, PORTS, JoinedPorts(c, ListOf(s, PORTS)))
  }

  lemma JoinSection(c: Config, s: Section)
    ensures var d := Dropped(s, c.wiredPorts);
            AddItem(DelItem(d, PORTS, c.iface), PORTS, c.iface) == JoinedSection(c, s)
  {
    var d := Dropped(s, c.wiredPorts);
    DroppedMeaning(s, c.wiredPorts);
    MoveToEnd(d, PORTS, c.iface);
    MinusMinus(ListOf(s, PORTS), SetOf(c.wiredPorts), {c.iface});
    WithListOver(d, s, PORTS, JoinedPorts(c, ListOf(s, PORTS)));
  }

  // Apply in closed form: the sections authored, and the bridge's ports.
  function Applied(c: Config, p: Package): Package
    requires LanThere(c, p)
  {
    if c.lanDevice == "" then Edited(p, AllEdits(c))
    else Edited(p, AllEdits(c))[c.lanDevice := JoinedSection(c, p[c.lanDevice])]
  }

  lemma ApplyShapeLan(c: Config, p: Package)
    requires c.lanDevice != "" && c.lanDevice in p && LanApart(c)
    ensures ApplyNet(c, p) == Applied(c, p)
  {
    var soft := Edited(p, SoftEdits(c));
    EditedUntouched(p, SoftEdits(c), c.lanDevice);
    EnslaveAllShape(c, soft, c.wiredPorts);
    EditedConcat(p, SoftEdits(c), PortsEdits(c, c.wiredPorts));
    JoinSection(c, p[c.lanDevice]);
    JoinOver(c, Edited(p, AllEdits(c)), Dropped(p[c.lanDevice], c.wiredPorts));
  }

  lemma JoinOver(c: Config, q: Package, d: Section)
    requires c.lanDevice != ""
    ensures Bridge(c, Unbridge(c, q[c.lanDevice := d], c.iface), c.iface)
         == q[c.lanDevice := AddItem(DelItem(d, PORTS, c.iface), PORTS, c.iface)]
  {
  }

  lemma {:induction false} EnslaveAllShapeNoLan(c: Config, p: Package, ports: seq<string>)
    requires c.lanDevice == ""
    ensures EnslaveAll(c, p, ports) == Edited(p, PortsEdits(c, ports))
  {
    if ports != [] {
      var init, w := ports[..|ports| - 1], ports[|ports| - 1];
      EnslaveAllShapeNoLan(c, p, init);
      var q := Edited(p, PortsEdits(c, init));
      EditedFew(q, HardifEdit(c, w), HardifEdit(c, w));
      EditedConcat(q, [HardifEdit(c, w)], DeviceEdits(c, w));
      EditedConcat(p, PortsEdits(c, init), PortEdits(c, w));
    }
  }

  lemma ApplyShape(c: Config, p: Package)
    requires LanThere(c, p) && LanApart(c)
    ensures ApplyNet(c, p) == Applied(c, p)
  {
    if c.lanDevice == "" {
      EnslaveAllShapeNoLan(c, Edited(p, SoftEdits(c)), c.wiredPorts);
      EditedConcat(p, SoftEdits(c), PortsEdits(c, c.wiredPorts));
    } else {
      ApplyShapeLan(c, p);
    }
  }

  // The ports of the bridge after releasing ports in this order.
  function Reinserted(items: seq<string>, ports: seq<string>): seq<string> {
    if ports == [] then items
    else
      var w := ports[|ports| - 1];
      Without(Reinserted(items, ports[..|ports| - 1]), w) + [w]
  }

  function Released(s: Section, ports: seq<string>): Section {
    if ports == [] then s
    else
      var w := ports[|ports| - 1];
      AddItem(DelItem(Released(s, ports[..|ports| - 1]), PORTS, w), PORTS, w)
  }

  lemma {:induction false} ReleasedMeaning(s: Section, ports: seq<string>)
    ensures ListOf(Released(s, ports), PORTS) == Reinserted(ListOf(s, PORTS), ports)
    ensures Rest(Released(s, ports), PORTS) == Rest(s, PORTS)
    ensures ports != [] ==> Released(s, ports) == WithList(s, PORTS, Reinserted(ListOf(s, PORTS), ports))
  {
    if ports != [] {
      var init, w := ports[..|ports| - 1], ports[|ports| - 1];
      ReleasedMeaning(s, init);
      MoveToEnd(Released(s, init), PORTS, w);
      WithListMeaning(Released(s, init), PORTS, Reinserted(ListOf(s, PORTS), ports));
      WithListOver(Released(s, init), s, PORTS, Reinserted(ListOf(s, PORTS), ports));
    }
  }

  lemma {:induction false} ReleaseAllShape(c: Config, p: Package, ports: seq<string>)
    requires c.lanDevice != "" && c.lanDevice in p && c.lanDevice !in PortNames(c, ports)
    ensures ReleaseAll(c, p, ports)
         == (p - PortNames(c, ports))[c.lanDevice := Released(p[c.lanDevice], ports)]
  {
    if ports == [] {
      assert (p - {})[c.lanDevice := p[c.lanDevice]] == p;
    } else {
      ReleaseAllShape(c, p, ports[..|ports| - 1]);
    }
  }

  lemma {:induction false} ReleaseAllShapeNoLan(c: Config, p: Package, ports: seq<string>)
    requires c.lanDevice == ""
    ensures ReleaseAll(c, p, ports) == p - PortNames(c, ports)
  {
    if ports == [] {
      assert p - {} == p;
    } else {
      ReleaseAllShapeNoLan(c, p, ports[..|ports| - 1]);
    }
  }

  function ReleasedSection(c: Config, s: Section): Section {
    Released(DelItem(s, PORTS, c.iface), c.wiredPorts)
  }

  // Teardown in closed form.
  function TornDown(c: Config, p: Package): Package
    requires LanThere(c, p)
  {
    if c.lanDevice == "" then p - Names(c)
    else (p - Names(c))[c.lanDevice := ReleasedSection(c, p[c.lanDevice])]
  }

  lemma TeardownShape(c: Config, p: Package)
    requires LanThere(c, p) && LanApart(c)
    ensures TeardownNet(c, p) == TornDown(c, p)
  {
    var q := Unbridge(c, p, c.iface);
    if c.lanDevice == "" {
      ReleaseAllShapeNoLan(c, q, c.wiredPorts);
    } else {
      ReleaseAllShape(c, q, c.wiredPorts);
    }
  }

  // ----- idempotence -----

  lemma BaseOfJoined(c: Config, items: seq<string>)
    ensures Base(c, JoinedPorts(c, items)) == Base(c, items)
  {
    var drop := SetOf(c.wiredPorts) + {c.iface};
    MinusSnoc(Base(c, items), c.iface, drop);
    MinusMinus(items, drop, drop);
    assert drop + drop == drop;
  }

  lemma {:induction false} MinusReinserted(items: seq<string>, ports: seq<string>, drop: set<string>)
    requires SetOf(ports) <= drop && Minus(items, drop) == items
    ensures Minus(Reinserted(items, ports), drop) == items
  {
    if ports != [] {
      var init, w := ports[..|ports| - 1], ports[|ports| - 1];
      SetOfLast(ports);
      MinusReinserted(items, init, drop);
      MinusSnoc(Without(Reinserted(items, init), w), w, drop);
      MinusMinus(Reinserted(items, init), {w}, drop);
      assert {w} + drop == drop;
    }
  }

  // The bridge's ports after a fallback: the manager's own at the end, in the
  // configured order, and no bat0.
  function FallbackPorts(c: Config, items: seq<string>): seq<string> {
    Reinserted(Base(c, items), c.wiredPorts)
  }

  lemma BaseOfFallback(c: Config, items: seq<string>)
    ensures Base(c, FallbackPorts(c, items)) == Base(c, items)
  {
    var drop := SetOf(c.wiredPorts) + {c.iface};
    MinusMinus(items, drop, drop);
    assert drop + drop == drop;
    MinusReinserted(Base(c, items), c.wiredPorts, drop);
  }

  lemma JoinedTwice(c: Config, s: Section)
    ensures JoinedSection(c, JoinedSection(c, s)) == JoinedSection(c, s)
  {
    var items := JoinedPorts(c, ListOf(s, PORTS));
    WithListMeaning(s, PORTS, items);
    BaseOfJoined(c, ListOf(s, PORTS));
    WithListOver(JoinedSection(c, s), s, PORTS, items);
  }

  lemma AppliedTwice(c: Config, p: Package)
    requires LanThere(c, p) && LanApart(c)
    ensures LanThere(c, Applied(c, p)) && Applied(c, Applied(c, p)) == Applied(c, p)
  {
    var once := Edited(p, AllEdits(c));
    EditedAbsorbed(p, AllEdits(c));
    AbsorbedStays(once, AllEdits(c));
    if c.lanDevice != "" {
      var t := JoinedSection(c, p[c.lanDevice]);
      AllTouched(c);
      EditedElsewhere(once, AllEdits(c), c.lanDevice, t);
      JoinedTwice(c, p[c.lanDevice]);
    }
  }

  // Applying twice is applying once, the order of the ports included.
  lemma ApplyTwice(c: Config, p: Package)
    requires LanThere(c, p) && LanApart(c)
    ensures ApplyNet(c, ApplyNet(c, p)) == ApplyNet(c, p)
  {
    ApplyShape(c, p);
    AppliedTwice(c, p);
    ApplyShape(c, Applied(c, p));
  }

  function FallbackSection(c: Config, s: Section): Section {
    WithList(s, PORTS, FallbackPorts(c, ListOf(s, PORTS)))
  }

  lemma ReleaseJoined(c: Config, s: Section)
    ensures ReleasedSection(c, JoinedSection(c, s)) == FallbackSection(c, s)
  {
    var base := Base(c, ListOf(s, PORTS));
    var t := JoinedSection(c, s);
    WithListMeaning(s, PORTS, JoinedPorts(c, ListOf(s, PORTS)));
    MinusSnoc(base, c.iface, {c.iface});
    MinusMinus(ListOf(s, PORTS), SetOf(c.wiredPorts) + {c.iface}, {c.iface});
    assert SetOf(c.wiredPorts) + {c.iface} + {c.iface} == SetOf(c.wiredPorts) + {c.iface};
    assert base + [c.iface] == ListOf(t, PORTS) && (base + [c.iface])[|base|] == c.iface;
    var u := DelItem(t, PORTS, c.iface);
    WithListOver(t, s, PORTS, base);
    assert u == WithList(s, PORTS, base);
    WithListMeaning(s, PORTS, base);
    ReleasedMeaning(u, c.wiredPorts);
    WithListOver(u, s, PORTS, FallbackPorts(c, ListOf(s, PORTS)));
  }

  // Applying and then tearing down, in closed form: the manager's sections are
  // gone, whatever they were, and only the bridge's ports have changed.
  function FellBack(c: Config, p: Package): Package
    requires LanThere(c, p)
  {
    if c.lanDevice == "" then p - Names(c)
    else (p - Names(c))[c.lanDevice := FallbackSection(c, p[c.lanDevice])]
  }

  lemma RewriteTwice(p: Package, l: string, s: Section, t: Section)
    ensures p[l := s][l := t] == p[l := t]
  {
  }

  lemma AppliedTornDown(c: Config, p: Package)
    requires LanThere(c, p) && LanApart(c)
    ensures LanThere(c, Applied(c, p)) && TornDown(c, Applied(c, p)) == FellBack(c, p)
  {
    var authored, rest := Edited(p, AllEdits(c)), p - Names(c);
    AllTouched(c);
    EditedThenDeleted(p, AllEdits(c), Names(c));
    if c.lanDevice != "" {
      var joined := JoinedSection(c, p[c.lanDevice]);
      var released := ReleasedSection(c, joined);
      assert released == FallbackSection(c, p[c.lanDevice]) by { ReleaseJoined(c, p[c.lanDevice]); }
      assert authored[c.lanDevice := joined] - Names(c) == rest[c.lanDevice := joined] by {
        UpdateThenDelete(authored, c.lanDevice, joined, Names(c));
      }
      RewriteTwice(rest, c.lanDevice, joined, released);
    }
  }

  lemma FallbackShape(c: Config, p: Package)
    requires LanThere(c, p) && LanApart(c)
    ensures LanThere(c, ApplyNet(c, p)) && TeardownNet(c, ApplyNet(c, p)) == FellBack(c, p)
  {
    ApplyShape(c, p);
    TeardownShape(c, Applied(c, p));
    AppliedTornDown(c, p);
  }

  lemma UpdateThenDelete(p: Package, l: string, s: Section, gone: set<string>)
    requires l !in gone
    ensures p[l := s] - gone == (p - gone)[l := s]
  {
  }

  lemma FellBackTwice(c: Config, p: Package)
    requires LanThere(c, p) && LanApart(c)
    ensures LanThere(c, FellBack(c, p)) && FellBack(c, FellBack(c, p)) == FellBack(c, p)
  {
    assert (p - Names(c)) - Names(c) == p - Names(c);
    if c.lanDevice != "" {
      var s := p[c.lanDevice];
      var items := FallbackPorts(c, ListOf(s, PORTS));
      var t := FallbackSection(c, s);
      WithListMeaning(s, PORTS, items);
      BaseOfFallback(c, ListOf(s, PORTS));
      WithListOver(t, s, PORTS, items);
      UpdateThenDelete(p - Names(c), c.lanDevice, t, Names(c));
    }
  }

  lemma FallbackTwice(c: Config, p: Package)
    requires LanThere(c, p) && LanApart(c)
    ensures var once := TeardownNet(c, ApplyNet(c, p)); TeardownNet(c, ApplyNet(c, once)) == once
  {
    FallbackShape(c, p);
    FellBackTwice(c, p);
    FallbackShape(c, FellBack(c, p));
  }

  // Tearing down after applying gives the bridge back the ports it had, when it
  // had the wired ports and not bat0.
  lemma TeardownRestoresPorts(c: Config, p: Package)
    requires c.lanDevice != "" && c.lanDevice in p && LanApart(c)
    requires var items := ListOf(p[c.lanDevice], PORTS); SetOf(c.wiredPorts) <= SetOf(items) && c.iface !in items
    ensures SetOf(ListOf(At(TeardownNet(c, ApplyNet(c, p)), c.lanDevice), PORTS)) == SetOf(ListOf(p[c.lanDevice], PORTS))
  {
    var items := ListOf(p[c.lanDevice], PORTS);
    FallbackShape(c, p);
    WithListMeaning(p[c.lanDevice], PORTS, FallbackPorts(c, items));
    MinusElements(items, SetOf(c.wiredPorts) + {c.iface});
    ReinsertedElements(Base(c, items), c.wiredPorts);
    assert SetOf(FallbackPorts(c, items)) == SetOf(items);
  }

  lemma {:induction false} ReinsertedElements(items: seq<string>, ports: seq<string>)
    ensures SetOf(Reinserted(items, ports)) == SetOf(items) + SetOf(ports)
  {
    if ports != [] {
      var init, w := ports[..|ports| - 1], ports[|ports| - 1];
      ReinsertedElements(items, init);
      MinusElements(Reinserted(items, init), {w});
      SetOfLast(ports);
      SetOfLast(Reinserted(items, ports));
      assert SetOf(Without(Reinserted(items, init), w)) == SetOf(Reinserted(items, init)) - {w};
      assert Reinserted(items, ports)[..|Reinserted(items, ports)| - 1] == Without(Reinserted(items, init), w);
    }
  }
}
