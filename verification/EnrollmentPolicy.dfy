/**
 Who gets into the inventory (internal/enrollment/enrollment.go): over any run of
 the protocol, only nodes an operator adopted or the adoption policy allows.
 */
module EnrollmentPolicy {
  import opened Wrappers
  import opened Models
  import opened EnrollmentProtocol
  import D = Database

  // This event lets the node in: an operator adopts it, or it verifies with a
  // good signature where the policy needs no operator.
  ghost predicate LetsIn(o: Options, s: System, ev: Event, node: string) {
    || (ev.BeginAdopt? && ev.nodeID == node)
    || (ev.BeginVerify? && ev.id in s.db.enrollments
        && var e := s.db.enrollments[ev.id];
           && e.nodeID == node && o.crypto.check(e.publicKey, e.challenge, ev.signature) == Some(true)
           && (o.policy == AdoptAlways || (o.policy == AdoptOnlink && ev.onLink)))
  }

  ghost predicate LetIn(o: Options, s: System, events: seq<Event>, node: string)
    decreases |events|
  {
    events != [] && (LetsIn(o, s, events[0], node) || LetIn(o, Apply(o, s, events[0]), events[1..], node))
  }

  // An operation that is going to put its node into the inventory.
  predicate Adopting(op: Op) {
    op.Approving? || op.Inventorying? || (op.Verified? && op.adopt)
  }

  ghost predicate Underway(s: System, node: string) {
    exists t :: t in s.ops && Adopting(s.ops[t]) && s.ops[t].e.nodeID == node
  }

  lemma VerifyLetIn(o: Options, s: System, ev: Event)
    requires ev.BeginVerify? && ev.tid !in s.ops
    requires ev.tid in Apply(o, s, ev).ops && Adopting(Apply(o, s, ev).ops[ev.tid])
    ensures LetsIn(o, s, ev, Apply(o, s, ev).ops[ev.tid].e.nodeID)
  {
  }

  lemma AdoptLetIn(o: Options, s: System, ev: Event)
    requires D.IndexSound(s.db) && ev.BeginAdopt? && ev.tid !in s.ops && ev.tid in Apply(o, s, ev).ops
    ensures LetsIn(o, s, ev, Apply(o, s, ev).ops[ev.tid].e.nodeID)
  {
  }

  // Any other event leaves the operation as it was, or begins one that adopts
  // nobody.
  lemma OperationKept(o: Options, s: System, ev: Event, t: nat)
    requires t in Apply(o, s, ev).ops && Adopting(Apply(o, s, ev).ops[t]) && !(ev.Advance? && ev.tid == t)
    requires !((ev.BeginVerify? || ev.BeginAdopt?) && ev.tid == t && t !in s.ops)
    ensures t in s.ops && Apply(o, s, ev).ops[t] == s.ops[t]
  {
  }

  lemma OperationLetIn(o: Options, s: System, ev: Event, t: nat)
    requires Safe(o, s) && t in Apply(o, s, ev).ops && Adopting(Apply(o, s, ev).ops[t])
    requires !(ev.Advance? && ev.tid == t)
    ensures var node := Apply(o, s, ev).ops[t].e.nodeID; Underway(s, node) || LetsIn(o, s, ev, node)
  {
    if ev.BeginVerify? && ev.tid == t && t !in s.ops {
      VerifyLetIn(o, s, ev);
    } else if ev.BeginAdopt? && ev.tid == t && t !in s.ops {
      AdoptLetIn(o, s, ev);
    } else {
      OperationKept(o, s, ev, t);
    }
  }

  lemma OperationGoesOn(o: Options, s: System, t: nat, newID: string, now: int)
    requires t in s.ops && t in Step(o, s, t, newID, now).ops && Adopting(Step(o, s, t, newID, now).ops[t])
    ensures Underway(s, Step(o, s, t, newID, now).ops[t].e.nodeID)
  {
    assert Adopting(s.ops[t]) && s.ops[t].e.nodeID == Step(o, s, t, newID, now).ops[t].e.nodeID;
  }

  lemma UnderwayStep(o: Options, s: System, ev: Event, node: string)
    requires Safe(o, s) && Underway(Apply(o, s, ev), node)
    ensures Underway(s, node) || LetsIn(o, s, ev, node)
  {
    var t :| t in Apply(o, s, ev).ops && Adopting(Apply(o, s, ev).ops[t]) && Apply(o, s, ev).ops[t].e.nodeID == node;
    if ev.Advance? && ev.tid == t {
      if t in s.ops {
        OperationGoesOn(o, s, t, ev.newID, ev.now);
      }
    } else {
      OperationLetIn(o, s, ev, t);
    }
  }

  lemma InventoriedStep(o: Options, s: System, ev: Event, node: string)
    requires Safe(o, s) && node in Apply(o, s, ev).inventoried && node !in s.inventoried
    ensures Underway(s, node)
  {
    assert Sane(o, s, s.ops[ev.tid]);
  }

  lemma {:induction false} InventoryIsLetIn(o: Options, s: System, events: seq<Event>, node: string)
    requires Safe(o, s) && node in Run(o, s, events).inventoried && node !in s.inventoried
    ensures Underway(s, node) || LetIn(o, s, events, node)
    decreases |events|
  {
    var s' := Apply(o, s, events[0]);
    SafeApply(o, s, events[0]);
    if node in s'.inventoried {
      InventoriedStep(o, s, events[0], node);
    } else {
      InventoryIsLetIn(o, s', events[1..], node);
      if Underway(s', node) {
        UnderwayStep(o, s, events[0], node);
      }
    }
  }

  // Main result. However operations interleave, a node the service has put into
  // the inventory was let in by some event of the run.
  lemma EveryNodeWasLetIn(o: Options, events: seq<Event>, node: string)
    requires node in Run(o, INIT, events).inventoried
    ensures LetIn(o, INIT, events, node)
  {
    EveryRunIsSafe(o, events);
    InventoryIsLetIn(o, INIT, events, node);
  }

  // Without automatic adoption that event is an operator's, for this very node;
  // with adoption on the link, a verification that was not on the link never
  // lets anyone in.
  lemma {:induction false} OnlyOperatorsLetIn(o: Options, s: System, events: seq<Event>, node: string)
    requires LetIn(o, s, events, node)
    requires o.policy == AdoptOff || (o.policy == AdoptOnlink && forall ev :: ev in events && ev.BeginVerify? ==> !ev.onLink)
    ensures exists tid :: BeginAdopt(tid, node) in events
    decreases |events|
  {
    var ev := events[0];
    if LetsIn(o, s, ev, node) {
      assert ev == BeginAdopt(ev.tid, node);
    } else {
      OnlyOperatorsLetIn(o, Apply(o, s, ev), events[1..], node);
      var tid :| BeginAdopt(tid, node) in events[1..];
      assert BeginAdopt(tid, node) in events;
    }
  }
}
