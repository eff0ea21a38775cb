/**
 Applying a profile again (internal/profiles/manager.go) when the MAC reader
 reads back the addresses the first run assigned to the wired ports.
 */
module ProfileReadback {
  import opened Wrappers
  import opened Uci
  import opened Models
  import opened Profiles
  import opened ProfileTheorems
  import B = Batman
  import BT = BatmanTheorems
  import PP = PortPlacement
  import A = AddressReadback
  import M = HardifMac

  // The same configuration with other answers of the MAC reader.
  function Reading(c: Config, overrides: Option<string -> Option<string>>): Config {
    c.(batman := c.batman.(overrides := overrides))
  }

  lemma SameMesh(c: Config, overrides: Option<string -> Option<string>>, profile: Profile, radio: string)
    ensures MeshEdits(Reading(c, overrides), profile, radio) == MeshEdits(c, profile, radio)
  {
  }

  lemma SameTargets(c: Config, overrides: Option<string -> Option<string>>, profile: Profile, w: Package, apRadio: string)
    ensures ApTargets(Reading(c, overrides), profile, w, apRadio) == ApTargets(c, profile, w, apRadio)
  {
  }

  // The addresses play no part in the wireless package.
  lemma SameWireless(c: Config, overrides: Option<string -> Option<string>>, profile: Profile, w: Package)
    ensures var d := Reading(c, overrides);
      && ApRadio(d, profile, w) == ApRadio(c, profile, w)
      && (ApRadio(c, profile, w).Some? ==> PlanFor(d, profile, w) == PlanFor(c, profile, w))
  {
    if ApRadio(c, profile, w).Some? {
      var apRadio := ApRadio(c, profile, w).value;
      var meshRadio := MeshRadio(c, w, apRadio);
      SameMesh(c, overrides, profile, meshRadio);
      SameTargets(c, overrides, profile, Edited(w, MeshEdits(c, profile, meshRadio)), apRadio);
    }
  }

  lemma SameAnswers(c: Config, overrides: Option<string -> Option<string>>, profile: Profile)
    ensures var d := Reading(c, overrides);
      && d.Routed(profile) == c.Routed(profile) && d.FallsBack(profile) == c.FallsBack(profile)
      && d.Degrades(profile) == c.Degrades(profile)
  {
  }

  // What a second run leaves that reads other addresses: the network package is
  // all that can differ.
  lemma SecondRun(c: Config, overrides: Option<string -> Option<string>>, profile: Profile, l: Layers)
    requires Tame(c, profile, l.staged.wireless) && ApRadio(c, profile, l.staged.wireless).Some?
    ensures var d, once := Reading(c, overrides), Final(c, profile, l);
      && ApRadio(d, profile, once.staged.wireless).Some?
      && (Final(d, profile, once) == once
          <==> NetworkAfter(d, c.Routed(profile), c.FallsBack(profile), once.staged.network) == once.staged.network)
  {
    var once := Final(c, profile, l);
    WirelessTwice(c, profile, l.staged.wireless);
    SameWireless(c, overrides, profile, once.staged.wireless);
    SameAnswers(c, overrides, profile);
    NamedTwice(profile, l.staged.system);
  }

  // A fallback leaves no address behind to differ.
  lemma FallbackAnyAddress(c: Config, overrides: Option<string -> Option<string>>, profile: Profile, p: Package)
    requires NetworkTame(c, profile, p) && c.FallsBack(profile) && A.BothRead(c.batman, Reading(c, overrides).batman)
    ensures var once := NetworkAfter(c, true, true, p); NetworkAfter(Reading(c, overrides), true, true, once) == once
  {
    var b, d := c.batman, Reading(c, overrides).batman;
    A.SamePortNames(b, d, b.wiredPorts);
    BT.FallbackShape(b, p);
    BT.FellBackTwice(b, p);
    BT.FallbackShape(d, BT.FellBack(b, p));
  }

  // Applying a profile again with other addresses changes nothing exactly when
  // they are the same, or none is in use: without batman-adv, or after a fallback.
  lemma ReapplyProfileIff(c: Config, overrides: Option<string -> Option<string>>, profile: Profile, l: Layers)
    requires Tame(c, profile, l.staged.wireless) && ApRadio(c, profile, l.staged.wireless).Some?
    requires NetworkTame(c, profile, l.staged.network) && PP.NamesApart(c.batman)
    requires A.BothRead(c.batman, Reading(c, overrides).batman)
    ensures var d, once := Reading(c, overrides), Final(c, profile, l);
      && ApRadio(d, profile, once.staged.wireless).Some?
      && (Final(d, profile, once) == once
          <==> !c.Routed(profile) || c.FallsBack(profile)
               || forall w :: w in c.batman.wiredPorts ==> c.batman.overrides.value(w) == overrides.value(w))
  {
    SecondRun(c, overrides, profile, l);
    if c.FallsBack(profile) {
      FallbackAnyAddress(c, overrides, profile, l.staged.network);
    } else if c.Routed(profile) {
      A.ReapplyIff(c.batman, Reading(c, overrides).batman, l.staged.network);
    }
  }

  // Main result. When the second run's MAC reader sees what the first run
  // assigned, it changes nothing if and only if no address is in use or every
  // wired port's discriminator is zero.
  lemma ReadBackProfileIff(c: Config, hardware: string -> Option<string>, bytes: string -> seq<M.Octet>, profile: Profile, l: Layers)
    requires Tame(c, profile, l.staged.wireless) && ApRadio(c, profile, l.staged.wireless).Some?
    requires NetworkTame(c, profile, l.staged.network) && PP.NamesApart(c.batman)
    requires forall w :: w in c.batman.wiredPorts ==> hardware(w).Some? && M.ParseMac(hardware(w).value).Some?
    requires c.batman.overrides == Some(A.Derive(hardware, bytes))
    ensures var d, once := Reading(c, Some(A.Derive(c.batman.overrides.value, bytes))), Final(c, profile, l);
      && ApRadio(d, profile, once.staged.wireless).Some?
      && (Final(d, profile, once) == once
          <==> !c.Routed(profile) || c.FallsBack(profile)
               || forall w :: w in c.batman.wiredPorts ==> M.Discriminator(bytes(w)) == 0)
  {
    var overrides := Some(A.Derive(c.batman.overrides.value, bytes));
    forall w | w in c.batman.wiredPorts
      ensures c.batman.overrides.value(w).Some? && overrides.value(w).Some?
           && (c.batman.overrides.value(w) == overrides.value(w) <==> M.Discriminator(bytes(w)) == 0)
    {
      A.ReadBack(hardware, bytes, w);
    }
    ReapplyProfileIff(c, overrides, profile, l);
  }
}
