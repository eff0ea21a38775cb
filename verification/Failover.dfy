/**
 The backhaul failover (internal/backhaul/switch.go) with the actuator and the
 observer of meshd/cmd/meshd/main.go, on the layered UCI store: the mesh is on
 exactly when the wire is down.
 */
module Failover {
  import opened Wrappers
  import opened Uci
  import P = Profiles

  // The backhaul in use, or the reading of the wired uplink's carrier.
  datatype Path = Wire | Mesh | Unknown

  // The desired backhaul, and whether it differs from the current one.
  function Decide(carrier: Path, current: Path): (r: (Path, bool))
    ensures r.1 <==> carrier != Unknown && carrier != current
    ensures r.0 == if r.1 then carrier else current
  {
    match carrier
    case Wire => (Wire, current != Wire)
    case Mesh => (Mesh, current != Mesh)
    case Unknown => (current, false)
  }

  // What can go wrong in one tick: reading the mesh, and actuating it.
  datatype ObserveFault = Seen | ModeUnread | DisabledUnread
  // A reload may get as far as the network.
  datatype ActFault = Done | GetFails | SetFails | CommitFails | NetworkReloadFails | RadioReloadFails

  datatype Reading = Reading(carrier: Path, observe: ObserveFault, act: ActFault)

  // What the mesh section says: Unknown when no mesh is configured.
  function View(w: Package): Path {
    var mode := GetFrom(w, P.MESH, "mode");
    if mode.Err? || mode.value == "" then Unknown
    else if GetFrom(w, P.MESH, "disabled") == Ok("1") then Wire
    else Mesh
  }

  function Staged(l: Layers): Path {
    View(l.staged.wireless)
  }

  function Running(l: Layers): Path {
    View(l.running.wireless)
  }

  // ----- one tick -----

  datatype Loop = Loop(current: Path, layers: Layers, switches: nat)

  // The observed backhaul, or the tracked one when it cannot be observed.
  function Observed(s: Loop, f: ObserveFault): Path {
    if f.ModeUnread? || Staged(s.layers) == Unknown then s.current
    else if f.DisabledUnread? then Mesh
    else Staged(s.layers)
  }

  function Switched(w: Package, to: Path): Package {
    EditOne(w, Edit(P.MESH, None, map["disabled" := if to == Mesh then "0" else "1"]))
  }

  // Setting, committing and reloading, as far as it gets.
  function Actuated(l: Layers, to: Path, f: ActFault): Layers {
    if f.GetFails? || f.SetFails? || Staged(l) == Unknown then l
    else
      var set_ := Staging(l, Wireless, Switched(l.staged.wireless, to));
      if f.CommitFails? then set_
      else if f.NetworkReloadFails? then Committing(set_, Wireless)
      else if f.RadioReloadFails? then HalfReloading(Committing(set_, Wireless))
      else Reloading(Committing(set_, Wireless))
  }

  // A mesh whose mode cannot be read counts as no mesh, and that as success.
  predicate Succeeds(l: Layers, f: ActFault) {
    f.Done? || f.GetFails? || Staged(l) == Unknown
  }

  function Tick(s: Loop, r: Reading): Loop {
    var current := Observed(s, r.observe);
    if r.carrier == Unknown || r.carrier == current then s.(current := current)
    else
      var layers := Actuated(s.layers, r.carrier, r.act);
      if Succeeds(s.layers, r.act) then Loop(r.carrier, layers, s.switches + 1)
      else s.(current := current, layers := layers)
  }

  // Others write the configuration between ticks.
  datatype Event = Ticked(reading: Reading) | External(layers: Layers)

  function Step(s: Loop, e: Event): Loop {
    match e
    case Ticked(r) => Tick(s, r)
    case External(l) => s.(layers := l)
  }

  function Run(s: Loop, es: seq<Event>): Loop {
    if es == [] then s else Step(Run(s, es[..|es| - 1]), es[|es| - 1])
  }

  // ----- the loop -----

  class Switcher {
    const uci: Client
    var current: Path
    ghost var switches: nat

    ghost function Now(): Loop
      reads this, uci
    {
      Loop(current, uci.Now(), switches)
    }

    constructor (uci: Client)
      ensures this.uci == uci && Now() == Loop(Unknown, uci.Now(), 0)
    {
      this.uci, current, switches := uci, Unknown, 0;
    }

    // fault says which of the calls got no answer.
    method ObserveMesh() returns (path: Path, ghost fault: ObserveFault)
      ensures Staged(uci.Now()) == Unknown ==> path == Unknown
      ensures path == Wire ==> Staged(uci.Now()) == Wire
      ensures path == if fault.ModeUnread? || Staged(uci.Now()) == Unknown then Unknown
                      else if fault.DisabledUnread? then Mesh else Staged(uci.Now())
    {
      fault := Seen;
      var mode := uci.Get(Wireless, P.MESH, "mode");
      if mode.Err? || mode.value == "" {
        fault := if mode == Err(CallFailed) then ModeUnread else Seen;
        return Unknown, fault;
      }
      var disabled := uci.Get(Wireless, P.MESH, "disabled");
      if disabled == Ok("1") {
        return Wire, fault;
      }
      fault := if disabled == Err(CallFailed) then DisabledUnread else Seen;
      path := Mesh;
    }

    method SetMesh(enabled: bool) returns (ok: bool, ghost fault: ActFault)
      modifies uci
      ensures uci.Now() == Actuated(old(uci.Now()), if enabled then Mesh else Wire, fault)
      ensures ok <==> Succeeds(old(uci.Now()), fault)
    {
      fault := Done;
      var mode := uci.Get(Wireless, P.MESH, "mode");
      if mode.Err? || mode.value == "" {
        fault := if mode == Err(CallFailed) then GetFails else Done;
        return true, fault;
      }
      var r := uci.Set(Wireless, P.MESH, "disabled", if enabled then "0" else "1");
      if r.Err? {
        return false, SetFails;
      }
      r := uci.Commit(Wireless);
      if r.Err? {
        return false, CommitFails;
      }
      ghost var before := uci.Now();
      r := uci.Reload();
      if r.Err? {
        fault := if uci.Now() == before then NetworkReloadFails else RadioReloadFails;
        return false, fault;
      }
      ok := true;
    }

    // One tick; r is what it read and what failed.
    method Poll(carrier: Path) returns (ghost r: Reading)
      modifies this, uci
      ensures r.carrier == carrier && Now() == Tick(old(Now()), r)
    {
      var observed;
      ghost var seen, act;
      observed, seen := ObserveMesh();
      act := Done;
      if observed != Unknown {
        current := observed;
      }
      var (desired, change) := Decide(carrier, current);
      if change {
        var ok;
        ok, act := SetMesh(desired == Mesh);
        if ok {
          current, switches := desired, switches + 1;
        }
      }
      r := Reading(carrier, seen, act);
    }

    // The loop: at every turn the carrier is polled, or others have written the
    // configuration. events says what happened.
    method Follow(turns: seq<Turn>) returns (ghost events: seq<Event>)
      modifies this, uci
      ensures |events| == |turns| && forall i :: 0 <= i < |turns| ==> Turned(turns[i], events[i])
      ensures Now() == Run(old(Now()), events)
    {
      events := [];
      for i := 0 to |turns|
        invariant |events| == i && forall j :: 0 <= j < i ==> Turned(turns[j], events[j])
        invariant Now() == Run(old(Now()), events)
      {
        ghost var ev;
        match turns[i] {
          case Tock(carrier) =>
            ghost var r := Poll(carrier);
            ev := Ticked(r);
          case Written(l) =>
            uci.staged, uci.committed, uci.running := l.staged, l.committed, l.running;
            ev := External(l);
        }
        assert (events + [ev])[..|events|] == events;
        events := events + [ev];
      }
    }
  }

  datatype Turn = Tock(carrier: Path) | Written(layers: Layers)

  predicate Turned(t: Turn, e: Event) {
    match t
    case Tock(carrier) => e.Ticked? && e.reading.carrier == carrier
    case Written(l) => e == External(l)
  }

  // ----- safety -----

  lemma SwitchedView(w: Package, to: Path)
    requires View(w) != Unknown && to != Unknown
    ensures View(Switched(w, to)) == to
  {
    assert "disabled" != "mode";
  }

  // Main result. After a tick that reads the carrier and meets no fault, a
  // configured mesh is enabled exactly when the wire is down; and so it is on the
  // running system, if that agreed with the configuration before.
  lemma TickSettles(s: Loop, carrier: Path)
    requires carrier != Unknown && Staged(s.layers) != Unknown
    ensures var t := Tick(s, Reading(carrier, Seen, Done));
      && Staged(t.layers) == t.current == carrier
      && (Running(s.layers) == Staged(s.layers) ==> Running(t.layers) == carrier)
  {
    SwitchedView(s.layers.staged.wireless, carrier);
  }

  // A mesh is configured when its section has a mode.
  predicate Configured(w: Package) {
    match GetFrom(w, "omm_mesh", "mode")
    case Ok(mode) => mode != ""
    case Err(_) => false
  }

  // It counts as off exactly when its `disabled` option says so; without the
  // option it is on.
  lemma ViewIs(w: Package)
    ensures View(w) == if !Configured(w) then Unknown else if GetFrom(w, "omm_mesh", "disabled") == Ok("1") then Wire else Mesh
  {
  }

  // Main result, on the option itself. After a tick that reads the carrier and
  // meets no fault a configured mesh is disabled if and only if the wire is up,
  // whatever was there before: staged, and running too if that agreed.
  lemma TickSetsOption(s: Loop, carrier: Path)
    requires carrier != Unknown && Configured(s.layers.staged.wireless)
    ensures var t := Tick(s, Reading(carrier, Seen, Done)).layers;
      && Configured(t.staged.wireless)
      && (GetFrom(t.staged.wireless, "omm_mesh", "disabled") == Ok("1") <==> carrier == Wire)
      && (s.layers.running.wireless == s.layers.staged.wireless ==>
            Configured(t.running.wireless)
            && (GetFrom(t.running.wireless, "omm_mesh", "disabled") == Ok("1") <==> carrier == Wire))
  {
    var t := Tick(s, Reading(carrier, Seen, Done)).layers;
    ViewIs(s.layers.staged.wireless);
    TickSettles(s, carrier);
    ViewIs(t.staged.wireless);
    ViewIs(t.running.wireless);
  }

  // The running system agrees in the same sense if only mode and option do.
  lemma TickSetsRunningOption(s: Loop, carrier: Path)
    requires carrier != Unknown && Configured(s.layers.staged.wireless) && Configured(s.layers.running.wireless)
    requires GetFrom(s.layers.running.wireless, "omm_mesh", "disabled") == Ok("1")
        <==> GetFrom(s.layers.staged.wireless, "omm_mesh", "disabled") == Ok("1")
    ensures GetFrom(Tick(s, Reading(carrier, Seen, Done)).layers.running.wireless, "omm_mesh", "disabled") == Ok("1") <==> carrier == Wire
  {
    var t := Tick(s, Reading(carrier, Seen, Done)).layers;
    ViewIs(s.layers.staged.wireless);
    ViewIs(s.layers.running.wireless);
    TickSettles(s, carrier);
    ViewIs(t.running.wireless);
  }

  lemma SwitchedElsewhere(w: Package, to: Path, section: string, option: string)
    requires "omm_mesh" in w && (section, option) != ("omm_mesh", "disabled")
    ensures GetFrom(Switched(w, to), section, option) == GetFrom(w, section, option)
  {
  }

  lemma TickStages(s: Loop, r: Reading)
    ensures var before, after := s.layers.staged, Tick(s, r).layers.staged;
      after == before || (Configured(before.wireless) && after == before.(wireless := Switched(before.wireless, r.carrier)))
  {
    ViewIs(s.layers.staged.wireless);
  }

  // An option the tick writes is the mesh's `disabled`, and no other.
  lemma TickWritesNothingElse(s: Loop, r: Reading, section: string, option: string)
    requires (section, option) != ("omm_mesh", "disabled")
    ensures var before, after := s.layers.staged, Tick(s, r).layers.staged;
      && GetFrom(after.wireless, section, option) == GetFrom(before.wireless, section, option)
      && after.network == before.network && after.system == before.system && after.dhcp == before.dhcp
  {
    TickStages(s, r);
    if Configured(s.layers.staged.wireless) {
      SwitchedElsewhere(s.layers.staged.wireless, r.carrier, section, option);
    }
  }

  // Whatever the faults: the mesh section ends up right exactly when it was right,
  // or was seen to be wrong and could be set.
  lemma TickSettlesIff(s: Loop, r: Reading)
    requires r.carrier != Unknown && Staged(s.layers) != Unknown
    ensures Staged(Tick(s, r).layers) == r.carrier
       <==> Staged(s.layers) == r.carrier || (Observed(s, r.observe) != r.carrier && !r.act.GetFails? && !r.act.SetFails?)
  {
    SwitchedView(s.layers.staged.wireless, r.carrier);
  }

  // An unreadable carrier never changes anything but what the loop believes.
  lemma UnknownNeverSwitches(s: Loop, r: Reading)
    requires r.carrier == Unknown
    ensures Tick(s, r).layers == s.layers && Tick(s, r).switches == s.switches
  {
  }

  // ----- no flapping -----

  // The last carrier reading that was not unknown.
  function Last(es: seq<Event>): Path {
    if es == [] then Unknown
    else
      var e := es[|es| - 1];
      if e.Ticked? && e.reading.carrier != Unknown then e.reading.carrier else Last(es[..|es| - 1])
  }

  function First(es: seq<Event>): Path {
    if es == [] then Unknown
    else
      var e := es[|es| - 1];
      if First(es[..|es| - 1]) == Unknown && e.Ticked? then e.reading.carrier else First(es[..|es| - 1])
  }

  // How often it differed from the one before.
  function Changes(es: seq<Event>): nat {
    if es == [] then 0
    else
      var init, e := es[..|es| - 1], es[|es| - 1];
      Changes(init)
      + if e.Ticked? && e.reading.carrier != Unknown && Last(init) != Unknown && e.reading.carrier != Last(init) then 1 else 0
  }

  // How often others changed what the mesh section says.
  function Flips(s: Loop, es: seq<Event>): nat {
    if es == [] then 0
    else
      var init, e := es[..|es| - 1], es[|es| - 1];
      Flips(s, init) + if e.External? && Staged(e.layers) != Staged(Run(s, init).layers) then 1 else 0
  }

  predicate Misread(e: Event) {
    e.Ticked? && (!e.reading.observe.Seen? || e.reading.act.GetFails?)
  }

  // How many ticks could not read the mesh section.
  function Misreads(es: seq<Event>): nat {
    if es == [] then 0 else Misreads(es[..|es| - 1]) + if Misread(es[|es| - 1]) then 1 else 0
  }

  // What the next clean tick takes the current backhaul to be.
  function Effective(s: Loop): Path {
    Observed(s, Seen)
  }

  // A switch that is due.
  function Due(s: Loop, last: Path): nat {
    if last != Unknown && Effective(s) != last then 1 else 0
  }

  function Budget(s: Loop, es: seq<Event>): nat {
    (if Last(es) == Unknown then 0 else 1) + Changes(es) + Flips(s, es) + Misreads(es)
  }

  lemma TickPays(s: Loop, last: Path, r: Reading)
    ensures var t := Tick(s, r);
      var next := if r.carrier == Unknown then last else r.carrier;
      t.switches + Due(t, next)
      <= s.switches + Due(s, last) + (if next != last then 1 else 0) + (if Misread(Ticked(r)) then 1 else 0)
  {
    if r.carrier != Unknown && Staged(s.layers) != Unknown {
      SwitchedView(s.layers.staged.wireless, r.carrier);
    }
  }

  lemma {:induction false} SwitchesAndDue(s: Loop, es: seq<Event>)
    ensures Run(s, es).switches + Due(Run(s, es), Last(es)) <= s.switches + Budget(s, es)
  {
    if es != [] {
      var init, e := es[..|es| - 1], es[|es| - 1];
      SwitchesAndDue(s, init);
      if e.Ticked? {
        TickPays(Run(s, init), Last(init), e.reading);
      }
    }
  }

  // Main result. However long the run and whatever fails, the switches are at
  // most one more than the changes of the carrier, the flips by others and the
  // ticks that misread the mesh section.
  lemma SwitchesBounded(s: Loop, es: seq<Event>)
    ensures Run(s, es).switches <= s.switches + 1 + Changes(es) + Flips(s, es) + Misreads(es)
  {
    SwitchesAndDue(s, es);
  }

  // Ticks without a fault, and nobody else writing.
  ghost predicate Quiet(es: seq<Event>) {
    forall e :: e in es ==> e.Ticked? && e.reading.observe.Seen? && e.reading.act.Done?
  }

  lemma {:induction false} QuietBaseline(s: Loop, es: seq<Event>)
    requires Quiet(es) && Last(es) == Unknown
    ensures Run(s, es).layers == s.layers && Run(s, es).switches == s.switches
    ensures Effective(Run(s, es)) == Effective(s) && Changes(es) == 0
  {
    if es != [] {
      var init, e := es[..|es| - 1], es[|es| - 1];
      assert es == init + [e];
      QuietBaseline(s, init);
    }
  }

  // Undisturbed, the loop switches once per change of the carrier, and once more
  // if the first reading is not what it found.
  lemma {:induction false} QuietSwitches(s: Loop, es: seq<Event>)
    requires Quiet(es)
    ensures Last(es) != Unknown ==> Effective(Run(s, es)) == Last(es)
    ensures (First(es) == Unknown <==> Last(es) == Unknown)
    ensures Run(s, es).switches
         == s.switches + Changes(es) + if First(es) != Unknown && First(es) != Effective(s) then 1 else 0
  {
    if es != [] {
      var init, e := es[..|es| - 1], es[|es| - 1];
      assert es == init + [e];
      QuietSwitches(s, init);
      if Last(init) == Unknown {
        QuietBaseline(s, init);
      }
      QuietTick(Run(s, init), e.reading.carrier);
    }
  }

  // One clean tick brings the mesh in line with a known carrier.
  lemma QuietTick(s: Loop, carrier: Path)
    ensures var t := Tick(s, Reading(carrier, Seen, Done));
      && Effective(t) == (if carrier == Unknown then Effective(s) else carrier)
      && t.switches == s.switches + (if carrier != Unknown && Effective(s) != carrier then 1 else 0)
  {
    if carrier != Unknown && Staged(s.layers) != Unknown {
      SwitchedView(s.layers.staged.wireless, carrier);
    }
  }

  // ----- retrying -----

  function CleanTicks(s: Loop, carrier: Path, n: nat): Loop {
    if n == 0 then s else Tick(CleanTicks(s, carrier, n - 1), Reading(carrier, Seen, Done))
  }

  lemma SettledTick(s: Loop, carrier: Path)
    requires carrier != Unknown && Staged(s.layers) == carrier
    ensures Tick(s, Reading(carrier, Seen, Done)) == s.(current := carrier)
  {
  }

  lemma {:induction false} SettledStays(s: Loop, carrier: Path, n: nat)
    requires carrier != Unknown && Staged(s.layers) == carrier
    ensures CleanTicks(s, carrier, n) == if n == 0 then s else s.(current := carrier)
  {
    if n > 0 {
      SettledStays(s, carrier, n - 1);
      SettledTick(CleanTicks(s, carrier, n - 1), carrier);
    }
  }

  lemma {:induction false} CleanTicksShift(s: Loop, carrier: Path, n: nat)
    requires n > 0
    ensures CleanTicks(s, carrier, n) == CleanTicks(CleanTicks(s, carrier, 1), carrier, n - 1)
  {
    if n > 1 {
      CleanTicksShift(s, carrier, n - 1);
    } else {
      assert CleanTicks(s, carrier, 0) == s;
    }
  }

  // Main result. The promise to retry a failed switch is kept exactly when it
  // failed before anything was staged. Once the option is staged the observer
  // reads it back as done: after a failed commit or reload the running system
  // stays on the wrong backhaul for as long as the carrier does not change.
  lemma {:induction false} RetryIff(s: Loop, carrier: Path, fault: ActFault, n: nat)
    requires carrier != Unknown && n > 0
    requires Running(s.layers) == Staged(s.layers) != Unknown && Staged(s.layers) != carrier
    ensures var t := CleanTicks(Tick(s, Reading(carrier, Seen, fault)), carrier, n);
      Running(t.layers) == carrier <==> fault in {Done, GetFails, SetFails}
  {
    var t := Tick(s, Reading(carrier, Seen, fault));
    SwitchedView(s.layers.staged.wireless, carrier);
    if Staged(t.layers) == carrier {
      SettledStays(t, carrier, n);
    } else {
      RetryWorks(t, carrier, n);
    }
  }

  lemma RetryWorks(s: Loop, carrier: Path, n: nat)
    requires carrier != Unknown && n > 0 && Running(s.layers) == Staged(s.layers) != Unknown
    ensures Running(CleanTicks(s, carrier, n).layers) == carrier
  {
    TickSettles(s, carrier);
    CleanTicksShift(s, carrier, n);
    assert CleanTicks(s, carrier, 0) == s;
    SettledStays(CleanTicks(s, carrier, 1), carrier, n - 1);
  }

  // Such a run: the wire comes back, the commit fails once, and the mesh stays on
  // beside the wire.
  lemma StandingLoop(n: nat)
    requires n > 0
    ensures exists s: Loop ::
      && Running(s.layers) == Staged(s.layers) == s.current == Mesh
      && var t := CleanTicks(Tick(s, Reading(Wire, Seen, CommitFails)), Wire, n);
         Running(t.layers) == Mesh && t.current == Wire && t.switches == s.switches
  {
    var w: Package := map[P.MESH := Section("wifi-iface", map["mode" := Scalar("mesh"), "disabled" := Scalar("0")])];
    var f := Files(map[], w, map[], map[]);
    var s := Loop(Mesh, Layers(f, f, f), 0);
    var t := Tick(s, Reading(Wire, Seen, CommitFails));
    SwitchedView(w, Wire);
    SettledStays(t, Wire, n);
    assert Running(s.layers) == Staged(s.layers) == s.current == Mesh;
  }
}
