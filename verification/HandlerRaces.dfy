/**
 The handlers of internal/api/lifecycle.go and internal/api/activehome.go, and
 the boot-time selection of meshd/cmd/meshd/main.go, as a step system: each reads
 the store in one transaction and writes it in a later one, and anything may run
 in between. It says when the active-home setting comes to dangle.
 */
module HandlerRaces {
  import opened Wrappers
  import opened Models
  import opened Lifecycle
  import D = Database

  // A handler between its guard and its write.
  datatype Handler =
    | Deleting(id: string)
    | Selecting(id: string)  // an operator's choice
    | Choosing               // boot: no Home is active; next: list the Homes
    | Picking(id: string)    // boot: next: write the choice

  datatype System = System(db: D.Db, handlers: map<nat, Handler>)

  datatype Event =
    | BeginDelete(tid: nat, id: string)
    | BeginSelect(tid: nat, id: string)
    | BeginAutoSelect(tid: nat)
    | Advance(tid: nat, recommended: string)  // the boot-time choice is one of the stored Homes
    | Abandon(tid: nat)
    | HomeUpserted(home: Home)
    | HomeUpdated(home: Home)
    | StoreReset
    | OtherBuckets(nodes: map<string, Node>, profiles: map<string, Profile>,
                   enrollments: map<string, Enrollment>, byNode: map<string, string>)

  function Apply(s: System, ev: Event): System {
    match ev
    case BeginDelete(tid, id) =>
      if tid !in s.handlers && s.db.settings.activeHome != id
      then s.(handlers := s.handlers[tid := Deleting(id)]) else s
    case BeginSelect(tid, id) =>
      if tid !in s.handlers && id != "" && id in s.db.homes
      then s.(handlers := s.handlers[tid := Selecting(id)]) else s
    case BeginAutoSelect(tid) =>
      if tid !in s.handlers && s.db.settings.activeHome == ""
      then s.(handlers := s.handlers[tid := Choosing]) else s
    case Advance(tid, recommended) =>
      if tid in s.handlers then Step(s, tid, recommended) else s
    case Abandon(tid) => s.(handlers := s.handlers - {tid})
    case HomeUpserted(home) => s.(db := D.UpsertHome(s.db, home))
    case HomeUpdated(home) =>
      var r := D.UpdateHome(s.db, home);
      if r.Ok? then s.(db := r.value) else s
    case StoreReset => s.(db := D.EMPTY)
    case OtherBuckets(nodes, profiles, enrollments, byNode) =>
      s.(db := s.db.(nodes := nodes, profiles := profiles, enrollments := enrollments, byNode := byNode))
  }

  function Step(s: System, tid: nat, recommended: string): System
    requires tid in s.handlers
  {
    match s.handlers[tid]
    case Deleting(id) =>
      var r := D.DeleteHome(s.db, id);
      Finish(if r.Ok? then s.(db := r.value) else s, tid)
    case Choosing =>
      if recommended in s.db.homes then s.(handlers := s.handlers[tid := Picking(recommended)]) else Finish(s, tid)
    case Selecting(id) => Finish(s.(db := D.SetActiveHome(s.db, id)), tid)
    case Picking(id) => Finish(s.(db := D.SetActiveHome(s.db, id)), tid)
  }

  function Finish(s: System, tid: nat): System {
    s.(handlers := s.handlers - {tid})
  }

  function Run(s: System, events: seq<Event>): System {
    if events == [] then s else Apply(Run(s, events[..|events| - 1]), events[|events| - 1])
  }

  // ----- when the setting dangles -----

  // The two writes whose guard no longer holds: deleting a Home that has become
  // the active one, and selecting a Home that has been deleted.
  predicate Late(s: System, ev: Event) {
    ev.Advance? && ev.tid in s.handlers
    && match s.handlers[ev.tid]
       case Deleting(id) => id != "" && id in s.db.homes && s.db.settings.activeHome == id
       case Selecting(id) => id != "" && id !in s.db.homes
       case Picking(id) => id != "" && id !in s.db.homes
       case Choosing => false
  }

  lemma StepDanglesIff(s: System, ev: Event)
    requires ActiveStored(s.db)
    ensures ActiveStored(Apply(s, ev).db) <==> !Late(s, ev)
  {
  }

  ghost predicate AlwaysStored(s: System, events: seq<Event>) {
    ActiveStored(Run(s, events).db) && (events == [] || AlwaysStored(s, events[..|events| - 1]))
  }

  ghost predicate NeverLate(s: System, events: seq<Event>) {
    events == [] || (NeverLate(s, events[..|events| - 1]) && !Late(Run(s, events[..|events| - 1]), events[|events| - 1]))
  }

  // Main result. Over every run of interleaved handlers and other requests, the
  // active Home is unset or stored all along exactly when no handler writes after
  // its guard has ceased to hold.
  lemma {:induction false} ActiveStoredAlwaysIff(s: System, events: seq<Event>)
    requires ActiveStored(s.db)
    ensures AlwaysStored(s, events) <==> NeverLate(s, events)
  {
    if events != [] {
      var init, last := events[..|events| - 1], events[|events| - 1];
      ActiveStoredAlwaysIff(s, init);
      if AlwaysStored(s, init) {
        StepDanglesIff(Run(s, init), last);
      }
    }
  }

  // ----- handlers that do not overlap -----

  // A handler carried through, or another request.
  datatype Call = Delete(id: string) | Select(id: string) | AutoSelect(recommended: string) | Other(ev: Event)

  predicate IsOther(ev: Event) {
    ev.HomeUpserted? || ev.HomeUpdated? || ev.StoreReset? || ev.OtherBuckets?
  }

  function Script(call: Call): seq<Event> {
    match call
    case Delete(id) => [BeginDelete(0, id), Advance(0, "")]
    case Select(id) => [BeginSelect(0, id), Advance(0, "")]
    case AutoSelect(recommended) => [BeginAutoSelect(0), Advance(0, recommended), Advance(0, "")]
    case Other(ev) => [ev]
  }

  function History(calls: seq<Call>): seq<Event> {
    if calls == [] then [] else History(calls[..|calls| - 1]) + Script(calls[|calls| - 1])
  }

  lemma RunSnoc(s: System, events: seq<Event>, ev: Event)
    ensures Run(s, events + [ev]) == Apply(Run(s, events), ev)
    ensures NeverLate(s, events + [ev]) <==> NeverLate(s, events) && !Late(Run(s, events), ev)
  {
    assert (events + [ev])[..|events|] == events;
  }

  lemma RunTwo(s: System, events: seq<Event>, a: Event, b: Event)
    ensures var t := Run(s, events);
      && Run(s, events + [a, b]) == Apply(Apply(t, a), b)
      && (NeverLate(s, events + [a, b]) <==> NeverLate(s, events) && !Late(t, a) && !Late(Apply(t, a), b))
  {
    RunSnoc(s, events, a);
    RunSnoc(s, events + [a], b);
    assert events + [a] + [b] == events + [a, b];
  }

  // One handler after another finds its guard as it left it.
  lemma GuardHolds(t: System, begin: Event)
    requires t.handlers == map[] && (begin.BeginDelete? || begin.BeginSelect?) && begin.tid == 0
    ensures var u := Apply(t, begin); !Late(t, begin) && !Late(u, Advance(0, "")) && Apply(u, Advance(0, "")).handlers == map[]
  {
  }

  lemma ChoiceHolds(t: System, recommended: string)
    requires t.handlers == map[]
    ensures var u := Apply(Apply(t, BeginAutoSelect(0)), Advance(0, recommended));
      && !Late(t, BeginAutoSelect(0)) && !Late(Apply(t, BeginAutoSelect(0)), Advance(0, recommended))
      && !Late(u, Advance(0, "")) && Apply(u, Advance(0, "")).handlers == map[]
  {
  }

  // No handler is under way and none was late.
  ghost predicate Timely(s: System, events: seq<Event>) {
    Run(s, events).handlers == map[] && NeverLate(s, events)
  }

  lemma GuardedIsTimely(s: System, events: seq<Event>, begin: Event)
    requires Timely(s, events) && (begin.BeginDelete? || begin.BeginSelect?) && begin.tid == 0
    ensures Timely(s, events + [begin, Advance(0, "")])
  {
    GuardHolds(Run(s, events), begin);
    RunTwo(s, events, begin, Advance(0, ""));
  }

  lemma ChoiceIsTimely(s: System, events: seq<Event>, recommended: string)
    requires Timely(s, events)
    ensures Timely(s, events + Script(AutoSelect(recommended)))
  {
    var first, last := [BeginAutoSelect(0), Advance(0, recommended)], Advance(0, "");
    ChoiceHolds(Run(s, events), recommended);
    RunTwo(s, events, first[0], first[1]);
    RunSnoc(s, events + first, last);
    Associate(events, first, [last]);
    assert first + [last] == Script(AutoSelect(recommended));
  }

  lemma Associate<T>(a: seq<T>, b: seq<T>, c: seq<T>)
    ensures a + b + c == a + (b + c)
  {
  }

  lemma OtherIsTimely(s: System, events: seq<Event>, ev: Event)
    requires Timely(s, events) && IsOther(ev)
    ensures Timely(s, events + [ev])
  {
    RunSnoc(s, events, ev);
  }

  lemma CallIsTimely(s: System, events: seq<Event>, call: Call)
    requires Timely(s, events) && (call.Other? ==> IsOther(call.ev))
    ensures Timely(s, events + Script(call))
  {
    match call
    case Other(ev) => OtherIsTimely(s, events, ev);
    case Delete(id) => GuardedIsTimely(s, events, BeginDelete(0, id));
    case Select(id) => GuardedIsTimely(s, events, BeginSelect(0, id));
    case AutoSelect(recommended) => ChoiceIsTimely(s, events, recommended);
  }

  // Main result. Handlers that do not overlap never leave the setting dangling.
  lemma {:induction false} SequentialHandlersNeverDangle(s: System, calls: seq<Call>)
    requires s.handlers == map[] && ActiveStored(s.db)
    requires forall c: Call :: c in calls && c.Other? ==> IsOther(c.ev)
    ensures Run(s, History(calls)).handlers == map[] && NeverLate(s, History(calls))
    ensures AlwaysStored(s, History(calls))
  {
    if calls != [] {
      var init, last := calls[..|calls| - 1], calls[|calls| - 1];
      assert calls == init + [last];
      SequentialHandlersNeverDangle(s, init);
      CallIsTimely(s, History(init), last);
    }
    ActiveStoredAlwaysIff(s, History(calls));
  }

  // ----- an operator's choice against the boot-time one -----

  // The boot-time selection writes a Home other than the one that is active.
  predicate Overwrites(s: System, ev: Event) {
    ev.Advance? && ev.tid in s.handlers && s.handlers[ev.tid].Picking? && s.handlers[ev.tid].id != s.db.settings.activeHome
  }

  // The operator chooses again, or resets the device.
  predicate Reconsiders(s: System, ev: Event) {
    ev.StoreReset? || (ev.Advance? && ev.tid in s.handlers && s.handlers[ev.tid].Selecting?)
  }

  ghost predicate NeverReconsiders(s: System, events: seq<Event>) {
    events == []
    || (NeverReconsiders(s, events[..|events| - 1]) && !Reconsiders(Run(s, events[..|events| - 1]), events[|events| - 1]))
  }

  ghost predicate NeverOverwrites(s: System, events: seq<Event>) {
    events == []
    || (NeverOverwrites(s, events[..|events| - 1]) && !Overwrites(Run(s, events[..|events| - 1]), events[|events| - 1]))
  }

  // The choice stays the active Home all along.
  ghost predicate Kept(s: System, events: seq<Event>, id: string) {
    Run(s, events).db.settings.activeHome == id && (events == [] || Kept(s, events[..|events| - 1], id))
  }

  lemma StepKeepsChoiceIff(s: System, ev: Event)
    requires !Reconsiders(s, ev)
    ensures Apply(s, ev).db.settings.activeHome == s.db.settings.activeHome <==> !Overwrites(s, ev)
  {
  }

  // Main result. Until the operator reconsiders, the Home that is active now stays
  // so over every run if and only if no boot-time write puts another in its place.
  lemma {:induction false} ChoiceKeptIff(s: System, events: seq<Event>)
    requires NeverReconsiders(s, events)
    ensures Kept(s, events, s.db.settings.activeHome) <==> NeverOverwrites(s, events)
  {
    if events != [] {
      var init, last := events[..|events| - 1], events[|events| - 1];
      ChoiceKeptIff(s, init);
      StepKeepsChoiceIff(Run(s, init), last);
    }
  }

  // Boot-time selections whose guard has passed.
  function Booting(s: System): set<nat> {
    set t | t in s.handlers && (s.handlers[t].Choosing? || s.handlers[t].Picking?)
  }

  // While a Home is active no boot-time selection passes its guard, so only those
  // under way when it was chosen can replace it.
  lemma {:induction false} NoneBootsLater(s: System, events: seq<Event>)
    requires s.db.settings.activeHome != "" && Kept(s, events, s.db.settings.activeHome)
    ensures Booting(Run(s, events)) <= Booting(s)
  {
    if events != [] {
      var init, last := events[..|events| - 1], events[|events| - 1];
      NoneBootsLater(s, init);
      assert Booting(Apply(Run(s, init), last)) <= Booting(Run(s, init));
    }
  }

  lemma OverwritesWhileBooting(s: System, ev: Event)
    ensures Overwrites(s, ev) ==> Booting(s) != {}
  {
    if Overwrites(s, ev) {
      assert ev.tid in Booting(s);
    }
  }

  // A choice made while no boot-time selection is under way is kept.
  lemma {:induction false} UnracedChoiceIsKept(s: System, events: seq<Event>)
    requires s.db.settings.activeHome != "" && Booting(s) == {} && NeverReconsiders(s, events)
    ensures Kept(s, events, s.db.settings.activeHome)
  {
    if events != [] {
      var init, last := events[..|events| - 1], events[|events| - 1];
      UnracedChoiceIsKept(s, init);
      NoneBootsLater(s, init);
      OverwritesWhileBooting(Run(s, init), last);
      StepKeepsChoiceIff(Run(s, init), last);
    }
  }

  const TWO_HOMES := D.EMPTY.(homes := map["chosen" := Home("chosen", "", "", "", [], 0), "picked" := Home("picked", "", "", "", [], 0)])
  const BOOTED := System(TWO_HOMES, map[])
  const PICKING := System(TWO_HOMES, map[0 := Picking("picked")])
  const CHOSEN := System(D.SetActiveHome(TWO_HOMES, "chosen"), map[0 := Picking("picked")])

  lemma BootPicks()
    ensures Apply(Apply(BOOTED, BeginAutoSelect(0)), Advance(0, "picked")) == PICKING
  {
    assert Apply(BOOTED, BeginAutoSelect(0)) == System(TWO_HOMES, map[0 := Choosing]);
  }

  lemma OperatorChooses()
    ensures Apply(Apply(PICKING, BeginSelect(1, "chosen")), Advance(1, "")) == CHOSEN
  {
    var both := map[0 := Picking("picked"), 1 := Selecting("chosen")];
    assert Apply(PICKING, BeginSelect(1, "chosen")) == System(TWO_HOMES, both);
    assert both - {1} == CHOSEN.handlers;
  }

  // The device boots with no Home active and picks one; the operator chooses
  // another before that is written, and the choice is lost.
  lemma OperatorsChoiceIsLost()
    ensures exists before: seq<Event>, write: Event ::
      && Run(BOOTED, before).db.settings.activeHome == "chosen"
      && Overwrites(Run(BOOTED, before), write) && Apply(Run(BOOTED, before), write).db.settings.activeHome == "picked"
  {
    var boot, choice := [BeginAutoSelect(0), Advance(0, "picked")], [BeginSelect(1, "chosen"), Advance(1, "")];
    BootPicks();
    RunTwo(BOOTED, [], boot[0], boot[1]);
    assert [] + boot == boot;
    OperatorChooses();
    RunTwo(BOOTED, boot, choice[0], choice[1]);
    assert Run(BOOTED, boot + choice) == CHOSEN && Overwrites(CHOSEN, Advance(0, ""));
  }
}
