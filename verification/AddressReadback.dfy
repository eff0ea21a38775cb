/**
 Applying the batman-adv layer again when the MAC reader (internal/batman/mac.go)
 reads back the addresses the first run assigned.
 */
module AddressReadback {
  import opened Wrappers
  import opened Uci
  import opened Batman
  import opened BatmanTheorems
  import opened PortPlacement
  import PortPartition
  import M = HardifMac

  // ----- other addresses on the second run -----

  // Both configurations read and derive an address for every wired port.
  ghost predicate BothRead(c: Config, d: Config) {
    && d == c.(overrides := d.overrides) && c.overrides.Some? && d.overrides.Some?
    && forall w :: w in c.wiredPorts ==> c.overrides.value(w).Some? && d.overrides.value(w).Some?
  }

  lemma {:induction false} SamePortNames(c: Config, d: Config, ports: seq<string>)
    requires BothRead(c, d)
    ensures PortNames(c, ports) == PortNames(d, ports)
  {
    if ports != [] {
      SamePortNames(c, d, ports[..|ports| - 1]);
    }
  }

  lemma {:induction false} SameEdits(c: Config, d: Config, ports: seq<string>)
    requires BothRead(c, d) && forall w :: w in ports ==> c.overrides.value(w) == d.overrides.value(w)
    ensures PortsEdits(c, ports) == PortsEdits(d, ports)
  {
    if ports != [] {
      assert ports == ports[..|ports| - 1] + [ports[|ports| - 1]];
      SameEdits(c, d, ports[..|ports| - 1]);
    }
  }

  // A port's own edits leave the derived address in its device section.
  lemma PortAddress(c: Config, es: seq<Edit>, port: string)
    requires c.overrides.Some? && c.overrides.value(port).Some? && c.DeviceSection(port) != c.WiredHardif(port)
    ensures var opts := OptionsSet(es + PortEdits(c, port), c.DeviceSection(port));
      "macaddr" in opts && opts["macaddr"] == Scalar(c.overrides.value(port).value)
  {
    var all := es + PortEdits(c, port);
    assert all == es + [HardifEdit(c, port)] + [DeviceEdits(c, port)[0]];
    assert all[|all| - 1] == DeviceEdits(c, port)[0];
  }

  lemma OtherPortAddress(c: Config, es: seq<Edit>, port: string, n: string)
    requires n !in PortSections(c, port)
    ensures OptionsSet(es + PortEdits(c, port), n) == OptionsSet(es, n)
  {
    var all, first := es + PortEdits(c, port), es + [HardifEdit(c, port)];
    assert first[..|es|] == es;
    if DeviceEdits(c, port) == [] {
      assert all == first;
    } else {
      assert all[..|all| - 1] == first;
    }
  }

  lemma Associate<T>(a: seq<T>, b: seq<T>, c: seq<T>)
    ensures a + (b + c) == a + b + c
  {
  }

  lemma {:induction false} AddressSet(c: Config, es: seq<Edit>, ports: seq<string>, w: string)
    requires NamesApart(c) && w in ports && (forall v :: v in ports ==> v in c.wiredPorts)
    requires c.overrides.Some? && c.overrides.value(w).Some?
    ensures var opts := OptionsSet(es + PortsEdits(c, ports), c.DeviceSection(w));
      "macaddr" in opts && opts["macaddr"] == Scalar(c.overrides.value(w).value)
  {
    var init, v := ports[..|ports| - 1], ports[|ports| - 1];
    assert ports == init + [v];
    Associate(es, PortsEdits(c, init), PortEdits(c, v));
    if v == w {
      PortAddress(c, es + PortsEdits(c, init), w);
    } else {
      AddressSet(c, es, init, w);
      HardifsDiffer(c, v, w);
      OtherPortAddress(c, es + PortsEdits(c, init), v, c.DeviceSection(w));
    }
  }

  // Apply gives every wired port the address read for it.
  lemma AppliedAddress(c: Config, p: Package, w: string)
    requires LanThere(c, p) && LanApart(c) && NamesApart(c) && w in c.wiredPorts
    requires c.overrides.Some? && c.overrides.value(w).Some?
    ensures Text(At(ApplyNet(c, p), c.DeviceSection(w)), "macaddr") == c.overrides.value(w).value
  {
    ApplyShape(c, p);
    LanIsNoPortSection(c, w);
    EditedAt(p, AllEdits(c), c.DeviceSection(w));
    AddressSet(c, SoftEdits(c), c.wiredPorts, w);
  }

  // Applying with other readings changes nothing exactly when they are the same.
  lemma ReapplyIff(c: Config, d: Config, p: Package)
    requires LanThere(c, p) && LanApart(c) && NamesApart(c) && BothRead(c, d)
    ensures ApplyNet(d, ApplyNet(c, p)) == ApplyNet(c, p)
       <==> forall w :: w in c.wiredPorts ==> c.overrides.value(w) == d.overrides.value(w)
  {
    var once := ApplyNet(c, p);
    SamePortNames(c, d, c.wiredPorts);
    ApplyShape(c, p);
    AppliedTwice(c, p);
    if forall w :: w in c.wiredPorts ==> c.overrides.value(w) == d.overrides.value(w) {
      SameEdits(c, d, c.wiredPorts);
      ApplyShape(d, once);
      assert Applied(d, once) == Applied(c, once);
    }
    if ApplyNet(d, once) == once {
      forall w | w in c.wiredPorts ensures c.overrides.value(w) == d.overrides.value(w) {
        SameNamesApart(c, d);
        AppliedAddress(c, p, w);
        AppliedAddress(d, once, w);
      }
    }
  }

  lemma SameNamesApart(c: Config, d: Config)
    requires NamesApart(c) && BothRead(c, d)
    ensures NamesApart(d)
  {
    assert forall w :: d.WiredHardif(w) == c.WiredHardif(w) && d.DeviceSection(w) == c.DeviceSection(w);
    forall w | w in d.wiredPorts ensures PortPartition.Ordinary(d, w) {
      assert PortPartition.Ordinary(c, w);
    }
  }

  // ----- the addresses read back -----

  // The manager's addresses over a reader: read, then derive.
  function Derive(read: string -> Option<string>, bytes: string -> seq<M.Octet>): string -> Option<string> {
    port =>
      if read(port).None? then None
      else match M.ParseMac(read(port).value)
           case None => None
           case Some(m) => Some(M.PrintMac(M.Derived(m, bytes(port))))
  }

  lemma DeriveAgainIff(m: M.Mac, port: seq<M.Octet>)
    ensures M.Derived(M.Derived(m, port), port) == M.Derived(m, port) <==> M.Discriminator(port) == 0
  {
    M.MarkedAgainIff(m, M.Discriminator(port));
  }

  // Main result. When the second run reads back what the first assigned, applying
  // again changes nothing exactly when every port's discriminator is zero.
  // Otherwise the discriminators are taken out again, and ports that share a base
  // address are given one address between them.
  lemma ReadBackIff(c: Config, d: Config, hardware: string -> Option<string>, bytes: string -> seq<M.Octet>, p: Package)
    requires LanThere(c, p) && LanApart(c) && NamesApart(c)
    requires forall w :: w in c.wiredPorts ==> hardware(w).Some? && M.ParseMac(hardware(w).value).Some?
    requires c.overrides == Some(Derive(hardware, bytes))
    requires d == c.(overrides := Some(Derive(c.overrides.value, bytes)))
    ensures ApplyNet(d, ApplyNet(c, p)) == ApplyNet(c, p)
       <==> forall w :: w in c.wiredPorts ==> M.Discriminator(bytes(w)) == 0
    ensures forall v, w :: v in c.wiredPorts && w in c.wiredPorts && hardware(v) == hardware(w) ==>
              var after := ApplyNet(d, ApplyNet(c, p));
              Text(At(after, c.DeviceSection(v)), "macaddr") == Text(At(after, c.DeviceSection(w)), "macaddr")
  {
    forall w | w in c.wiredPorts
      ensures c.overrides.value(w).Some? && d.overrides.value(w).Some?
           && (c.overrides.value(w) == d.overrides.value(w) <==> M.Discriminator(bytes(w)) == 0)
    {
      ReadBack(hardware, bytes, w);
    }
    ReapplyIff(c, d, p);
    SamePortNames(c, d, c.wiredPorts);
    SameNamesApart(c, d);
    ApplyShape(c, p);
    AppliedTwice(c, p);
    forall v, w | v in c.wiredPorts && w in c.wiredPorts && hardware(v) == hardware(w)
      ensures Text(At(ApplyNet(d, ApplyNet(c, p)), c.DeviceSection(v)), "macaddr")
           == Text(At(ApplyNet(d, ApplyNet(c, p)), c.DeviceSection(w)), "macaddr")
    {
      AppliedAddress(d, ApplyNet(c, p), v);
      AppliedAddress(d, ApplyNet(c, p), w);
      ReadBack(hardware, bytes, v);
      ReadBack(hardware, bytes, w);
      M.DerivedTwiceCollides(M.ParseMac(hardware(v).value).value, bytes(v), bytes(w));
    }
  }

  // What the second run derives for a port.
  lemma ReadBack(hardware: string -> Option<string>, bytes: string -> seq<M.Octet>, w: string)
    requires hardware(w).Some? && M.ParseMac(hardware(w).value).Some?
    ensures var m := M.ParseMac(hardware(w).value).value;
      var first, second := Derive(hardware, bytes)(w), Derive(Derive(hardware, bytes), bytes)(w);
      && first == Some(M.PrintMac(M.Derived(m, bytes(w))))
      && second == Some(M.PrintMac(M.Derived(M.Derived(m, bytes(w)), bytes(w))))
      && (first == second <==> M.Discriminator(bytes(w)) == 0)
  {
    var m := M.ParseMac(hardware(w).value).value;
    M.PrintMacParses(M.Derived(m, bytes(w)));
    M.PrintMacParses(M.Derived(M.Derived(m, bytes(w)), bytes(w)));
    DeriveAgainIff(m, bytes(w));
  }
}
