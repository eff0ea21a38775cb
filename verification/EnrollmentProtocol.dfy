/**
 The controller side of enrollment (internal/enrollment/enrollment.go) as a step
 system. Every operation is a sequence of separate store transactions: it reads
 a record, changes its own copy and later writes the whole copy back. A step is
 one transaction; any number of operations may be in flight, each holding a copy
 that may be stale by the time it is written, and node, Home and reset requests
 interleave freely.

 All nondeterminism (who calls what, fresh ids, challenges, clocks, failures) is
 in the events, so a run is a sequence of events and "for every run" is "for
 every sequence".
 */
module EnrollmentProtocol {
  import opened Wrappers
  import opened Models
  import D = Database

  // Hash and signature check are library code: any functions at all. A check
  // answers None when the key does not parse.
  datatype Crypto = Crypto(hash: Bytes -> string, check: (Bytes, Bytes, Bytes) -> Option<bool>)

  datatype AdoptPolicy = AdoptOff | AdoptOnlink | AdoptAlways {
    predicate AutoAdopt(peerOnLink: bool) {
      match this
      case AdoptAlways => true
      case AdoptOnlink => peerOnLink
      case AdoptOff => false
    }
  }

  datatype Options = Options(crypto: Crypto, homeID: string, policy: AdoptPolicy)

  datatype RequestInput = RequestInput(nodeID: string, serial: string, publicKey: Bytes)

  // A signature that Verify has accepted.
  datatype Presentation = Presentation(publicKey: Bytes, challenge: Bytes, signature: Bytes)

  const CHALLENGE_BYTES := 32

  // An operation between two of its transactions, with the copy it holds.
  datatype Op =
    | Requesting(input: RequestInput, challenge: Bytes)  // next: look the node up
    | Reissuing(e: Enrollment)                           // next: update
    | Creating(e: Enrollment)                            // next: create
    | Verified(e: Enrollment, adopt: bool)               // next: update, then perhaps approve
    | Approving(e: Enrollment)                           // next: look the node up
    | Inventorying(e: Enrollment, node: Node)            // next: create the node
    | Finishing(e: Enrollment)                           // next: update to approved
    | Rejecting(e: Enrollment)                           // next: update
    | Acking(e: Enrollment)                              // next: update

  // The store, the operations in flight, and what has happened so far: accepted
  // signatures, generated enrollment ids (with the node each was generated for)
  // and nodes the service added to the inventory.
  datatype System = System(db: D.Db, ops: map<nat, Op>,
                           accepted: set<Presentation>, issued: map<string, string>, inventoried: set<string>)

  const INIT := System(D.EMPTY, map[], {}, map[], {})

  datatype Event =
    | BeginRequest(tid: nat, input: RequestInput, challenge: Bytes)
    | BeginVerify(tid: nat, id: string, signature: Bytes, onLink: bool)
    | BeginAdopt(tid: nat, nodeID: string)
    | BeginReject(tid: nat, nodeID: string)
    | BeginAck(tid: nat, id: string)
    | Advance(tid: nat, newID: string, now: int)
    | Abandon(tid: nat)  // a failed transaction or a lost caller
    | NodeDeleted(nodeID: string)
    | HomeDeleted(home: string)
    | StoreReset
    | NodeCreated(node: Node)  // POST /nodes
    | OtherBuckets(homes: map<string, Home>, profiles: map<string, Profile>, settings: D.Settings)

  function Apply(o: Options, s: System, ev: Event): System {
    match ev
    case BeginRequest(tid, input, challenge) =>
      if tid !in s.ops && input.nodeID != "" && input.publicKey != []
         && o.crypto.hash(input.publicKey) == input.nodeID && |challenge| == CHALLENGE_BYTES
      then s.(ops := s.ops[tid := Requesting(input, challenge)])
      else s
    case BeginVerify(tid, id, signature, onLink) =>
      if tid in s.ops || D.GetEnrollment(s.db, id).Err? then s
      else
        var e := D.GetEnrollment(s.db, id).value;
        if o.crypto.check(e.publicKey, e.challenge, signature) != Some(true) then s
        else s.(ops := s.ops[tid := Verified(e.(status := PendingApproval), o.policy.AutoAdopt(onLink))],
                accepted := s.accepted + {Presentation(e.publicKey, e.challenge, signature)})
    case BeginAdopt(tid, nodeID) =>
      var r := D.GetEnrollmentByNodeID(s.db, nodeID);
      if tid !in s.ops && r.Ok? && r.value.status == PendingApproval
      then s.(ops := s.ops[tid := Approving(r.value)])
      else s
    case BeginReject(tid, nodeID) =>
      var r := D.GetEnrollmentByNodeID(s.db, nodeID);
      if tid !in s.ops && r.Ok?
      then s.(ops := s.ops[tid := Rejecting(r.value.(status := Rejected))])
      else s
    case BeginAck(tid, id) =>
      var r := D.GetEnrollment(s.db, id);
      if tid !in s.ops && r.Ok? && r.value.status == Approved
      then s.(ops := s.ops[tid := Acking(r.value.(status := Active))])
      else s
    case Advance(tid, newID, now) =>
      if tid in s.ops then Step(o, s, tid, newID, now) else s
    case Abandon(tid) =>
      s.(ops := s.ops - {tid})
    case NodeDeleted(nodeID) =>
      var r := D.DeleteNode(s.db, nodeID);
      if r.Ok? then s.(db := r.value) else s
    case HomeDeleted(home) =>
      var r := D.DeleteHome(s.db, home);
      if r.Ok? then s.(db := r.value) else s
    case StoreReset =>
      s.(db := D.EMPTY)
    case NodeCreated(node) =>
      s.(db := D.CreateNode(s.db, node))
    case OtherBuckets(homes, profiles, settings) =>
      s.(db := s.db.(homes := homes, profiles := profiles, settings := settings))
  }

  // The next transaction of the operation tid. A write to a record that is gone
  // fails and ends the operation.
  function Step(o: Options, s: System, tid: nat, newID: string, now: int): System
    requires tid in s.ops
  {
    match s.ops[tid]
    case Requesting(input, challenge) =>
      var r := D.GetEnrollmentByNodeID(s.db, input.nodeID);
      if r.Ok? then
        Continue(s, tid, Reissuing(r.value.(serial := input.serial, publicKey := input.publicKey,
                                            challenge := challenge, status := PendingVerification)))
      else if newID in s.issued then
        s  // identifiers are universally unique
      else
        Continue(s, tid, Creating(Enrollment(newID, input.nodeID, input.serial, input.publicKey, challenge,
                                             PendingVerification, o.homeID, now)))
        .(issued := s.issued[newID := input.nodeID])
    case Creating(e) => Finish(s.(db := D.CreateEnrollment(s.db, e)), tid)
    case Reissuing(e) => Write(s, tid, e, None)
    case Verified(e, adopt) => Write(s, tid, e, if adopt then Some(Approving(e)) else None)
    case Approving(e) =>
      if e.nodeID in s.db.nodes then
        Continue(s, tid, Finishing(e.(status := Approved)))
      else
        Continue(s, tid, Inventorying(e, Node(e.nodeID, e.serial, e.homeID, [e.homeID], now)))
    case Inventorying(e, node) =>
      Continue(s, tid, Finishing(e.(status := Approved)))
      .(db := D.CreateNode(s.db, node), inventoried := s.inventoried + {node.id})
    case Finishing(e) => Write(s, tid, e, None)
    case Rejecting(e) => Write(s, tid, e, None)
    case Acking(e) => Write(s, tid, e, None)
  }

  function Continue(s: System, tid: nat, op: Op): System {
    s.(ops := s.ops[tid := op])
  }

  function Finish(s: System, tid: nat): System {
    s.(ops := s.ops - {tid})
  }

  function Write(s: System, tid: nat, e: Enrollment, next: Option<Op>): System {
    var r := D.UpdateEnrollment(s.db, e);
    if r.Err? then Finish(s, tid)
    else if next.Some? then Continue(s.(db := r.value), tid, next.value)
    else Finish(s.(db := r.value), tid)
  }

  function Run(o: Options, s: System, events: seq<Event>): System
    decreases |events|
  {
    if events == [] then s else Run(o, Apply(o, s, events[0]), events[1..])
  }

  // A run given by its states.
  lemma {:induction false} RunTrace(o: Options, states: seq<System>, events: seq<Event>)
    requires |states| == |events| + 1
    requires forall i :: 0 <= i < |events| ==> states[i + 1] == Apply(o, states[i], events[i])
    ensures Run(o, states[0], events) == states[|events|]
    decreases |events|
  {
    if events != [] {
      forall i | 0 <= i < |events[1..]| ensures states[1..][i + 1] == Apply(o, states[1..][i], events[1..][i]) {
        assert states[i + 2] == Apply(o, states[i + 1], events[i + 1]);
      }
      RunTrace(o, states[1..], events[1..]);
    }
  }

  lemma {:induction false} RunConcat(o: Options, s: System, a: seq<Event>, b: seq<Event>)
    ensures Run(o, s, a + b) == Run(o, Run(o, s, a), b)
    decreases |a|
  {
    if a == [] {
      assert a + b == b;
    } else {
      assert (a + b)[1..] == a[1..] + b;
      RunConcat(o, Apply(o, s, a[0]), a[1..], b);
    }
  }

  lemma RunSnoc(o: Options, s: System, events: seq<Event>, last: Event)
    ensures Run(o, s, events + [last]) == Apply(o, Run(o, s, events), last)
  {
    RunConcat(o, s, events, [last]);
    var t := Run(o, s, events);
    RunTrace(o, [t, Apply(o, t, last)], [last]);
  }

  // ----- safety under every interleaving -----

  // A signature for exactly this key and challenge has been accepted.
  ghost predicate Proven(s: System, e: Enrollment) {
    exists p :: p in s.accepted && p.publicKey == e.publicKey && p.challenge == e.challenge
  }

  ghost predicate Genuine(o: Options, s: System, e: Enrollment) {
    && e.publicKey != [] && e.nodeID != "" && |e.challenge| == CHALLENGE_BYTES
    && e.nodeID == o.crypto.hash(e.publicKey)
    && e.id in s.issued && s.issued[e.id] == e.nodeID
    && (e.status.Trusted() ==> Proven(s, e))
  }

  // What an operation in flight knows about its copy.
  ghost predicate Sane(o: Options, s: System, op: Op) {
    match op
    case Requesting(input, challenge) =>
      input.nodeID != "" && input.publicKey != []
      && o.crypto.hash(input.publicKey) == input.nodeID && |challenge| == CHALLENGE_BYTES
    case Reissuing(e) => Genuine(o, s, e) && e.status == PendingVerification
    case Creating(e) => Genuine(o, s, e) && e.status == PendingVerification
    case Verified(e, adopt) => Genuine(o, s, e) && e.status == PendingApproval
    case Approving(e) => Genuine(o, s, e) && e.status == PendingApproval
    case Inventorying(e, node) => Genuine(o, s, e) && e.status == PendingApproval && node.id == e.nodeID
    case Finishing(e) => Genuine(o, s, e) && e.status == Approved
    case Rejecting(e) => Genuine(o, s, e) && e.status == Rejected
    case Acking(e) => Genuine(o, s, e) && e.status == Active
  }

  ghost predicate SafeRecords(o: Options, s: System) {
    forall k :: k in s.db.enrollments ==>
      s.db.enrollments[k].id == k && Genuine(o, s, s.db.enrollments[k])
  }

  ghost predicate SafeOps(o: Options, s: System) {
    forall t :: t in s.ops ==> Sane(o, s, s.ops[t])
  }

  ghost predicate SafeHistory(o: Options, s: System) {
    && (forall p :: p in s.accepted ==> o.crypto.check(p.publicKey, p.challenge, p.signature) == Some(true))
    && (forall n :: n in s.inventoried ==> exists p :: p in s.accepted && o.crypto.hash(p.publicKey) == n)
  }

  // The record a Creating operation is about to store exists nowhere else.
  ghost predicate Unborn(s: System, t: nat)
    requires t in s.ops && s.ops[t].Creating?
  {
    && s.ops[t].e.id !in s.db.enrollments
    && forall u :: u in s.ops && u != t && !s.ops[u].Requesting? ==> s.ops[u].e.id != s.ops[t].e.id
  }

  ghost predicate SafeIds(s: System) {
    && D.IndexSound(s.db)
    && forall t :: t in s.ops && s.ops[t].Creating? ==> Unborn(s, t)
  }

  ghost predicate Safe(o: Options, s: System) {
    SafeRecords(o, s) && SafeOps(o, s) && SafeHistory(o, s) && SafeIds(s)
  }

  // The operation tid may carry on as op.
  lemma SafeContinue(o: Options, s: System, tid: nat, op: Op)
    requires Safe(o, s) && Sane(o, s, op) && !op.Creating?
    requires op.Requesting? || op.e.id in s.db.enrollments
          || (tid in s.ops && !s.ops[tid].Requesting? && s.ops[tid].e.id == op.e.id)
    ensures Safe(o, Continue(s, tid, op))
  {
    var s' := Continue(s, tid, op);
    assert SafeOps(o, s') && SafeRecords(o, s') && SafeHistory(o, s') by {
      assert forall e :: Genuine(o, s, e) ==> Genuine(o, s', e);
    }
    forall t | t in s'.ops && s'.ops[t].Creating? ensures Unborn(s', t) {
      assert Unborn(s, t);
    }
  }

  lemma SafeFinish(o: Options, s: System, tid: nat)
    requires Safe(o, s)
    ensures Safe(o, Finish(s, tid))
  {
    var s' := Finish(s, tid);
    assert forall e :: Genuine(o, s, e) ==> Genuine(o, s', e);
    forall t | t in s'.ops && s'.ops[t].Creating? ensures Unborn(s', t) {
      assert Unborn(s, t);
    }
  }

  // Removing records, and changing the other buckets, is always safe.
  lemma SafeShrink(o: Options, s: System, db: D.Db)
    requires Safe(o, s) && Shrunk(s.db, db)
    ensures Safe(o, s.(db := db))
  {
    var s' := s.(db := db);
    assert forall e :: Genuine(o, s, e) ==> Genuine(o, s', e);
    forall t | t in s'.ops && s'.ops[t].Creating? ensures Unborn(s', t) {
      assert Unborn(s, t);
    }
  }

  // Writing a whole genuine copy over a record, however stale.
  lemma SafeUpdate(o: Options, s: System, e: Enrollment)
    requires Safe(o, s) && Genuine(o, s, e) && D.UpdateEnrollment(s.db, e).Ok?
    ensures Safe(o, s.(db := D.UpdateEnrollment(s.db, e).value))
  {
    var s' := s.(db := D.UpdateEnrollment(s.db, e).value);
    D.UpdateKeepsIndexSound(s.db, e);
    assert forall e :: Genuine(o, s, e) ==> Genuine(o, s', e);
    forall t | t in s'.ops && s'.ops[t].Creating? ensures Unborn(s', t) {
      assert Unborn(s, t);
    }
  }

  lemma SafeWrite(o: Options, s: System, tid: nat, e: Enrollment, next: Option<Op>)
    requires Safe(o, s) && Genuine(o, s, e)
    requires next.Some? ==> next.value == Approving(e) && e.status == PendingApproval
    ensures Safe(o, Write(s, tid, e, next))
  {
    if D.UpdateEnrollment(s.db, e).Err? {
      SafeFinish(o, s, tid);
    } else {
      SafeUpdate(o, s, e);
      var s1 := s.(db := D.UpdateEnrollment(s.db, e).value);
      if next.Some? {
        SafeContinue(o, s1, tid, next.value);
      } else {
        SafeFinish(o, s1, tid);
      }
    }
  }

  // Accepting another signature invalidates nothing.
  lemma SafeAccept(o: Options, s: System, p: Presentation)
    requires Safe(o, s) && o.crypto.check(p.publicKey, p.challenge, p.signature) == Some(true)
    ensures Safe(o, s.(accepted := s.accepted + {p}))
  {
    var s' := s.(accepted := s.accepted + {p});
    assert forall e :: Proven(s, e) ==> Proven(s', e);
    assert forall e :: Genuine(o, s, e) ==> Genuine(o, s', e);
    forall t | t in s'.ops && s'.ops[t].Creating? ensures Unborn(s', t) {
      assert Unborn(s, t);
    }
  }

  lemma SafeIssue(o: Options, s: System, tid: nat, e: Enrollment)
    requires Safe(o, s) && e.id !in s.issued && e.status == PendingVerification
    requires Genuine(o, s.(issued := s.issued[e.id := e.nodeID]), e)
    ensures Safe(o, Continue(s, tid, Creating(e)).(issued := s.issued[e.id := e.nodeID]))
  {
    var s' := Continue(s, tid, Creating(e)).(issued := s.issued[e.id := e.nodeID]);
    assert forall e :: Genuine(o, s, e) ==> Genuine(o, s', e);
    forall t | t in s'.ops && s'.ops[t].Creating? ensures Unborn(s', t) {
      if t == tid {
        assert forall u :: u in s.ops && !s.ops[u].Requesting? ==> Sane(o, s, s.ops[u]) && s.ops[u].e.id in s.issued;
      } else {
        assert Unborn(s, t);
        assert Sane(o, s, s.ops[t]);
      }
    }
  }

  lemma SafeCreate(o: Options, s: System, tid: nat)
    requires Safe(o, s) && tid in s.ops && s.ops[tid].Creating?
    ensures Safe(o, Finish(s.(db := D.CreateEnrollment(s.db, s.ops[tid].e)), tid))
  {
    var e := s.ops[tid].e;
    var s' := Finish(s.(db := D.CreateEnrollment(s.db, e)), tid);
    assert Unborn(s, tid) && Sane(o, s, s.ops[tid]);
    D.CreateKeepsIndexSound(s.db, e);
    assert forall e :: Genuine(o, s, e) ==> Genuine(o, s', e);
    forall t | t in s'.ops && s'.ops[t].Creating? ensures Unborn(s', t) {
      assert Unborn(s, t);
    }
  }

  // A node enters the inventory only under the hash of a key that has signed.
  lemma SafeInventory(o: Options, s: System, e: Enrollment, node: Node)
    requires Safe(o, s) && Genuine(o, s, e) && e.status.Trusted() && node.id == e.nodeID
    ensures Safe(o, s.(db := D.CreateNode(s.db, node), inventoried := s.inventoried + {node.id}))
  {
    var s' := s.(db := D.CreateNode(s.db, node), inventoried := s.inventoried + {node.id});
    assert forall e :: Genuine(o, s, e) ==> Genuine(o, s', e);
    forall t | t in s'.ops && s'.ops[t].Creating? ensures Unborn(s', t) {
      assert Unborn(s, t);
    }
  }

  lemma SafeStep(o: Options, s: System, tid: nat, newID: string, now: int)
    requires Safe(o, s) && tid in s.ops
    ensures Safe(o, Step(o, s, tid, newID, now))
  {
    assert Sane(o, s, s.ops[tid]);
    match s.ops[tid]
    case Requesting(input, challenge) =>
      var r := D.GetEnrollmentByNodeID(s.db, input.nodeID);
      if r.Ok? {
        assert Genuine(o, s, r.value) && r.value.nodeID == input.nodeID;
        SafeContinue(o, s, tid, Reissuing(r.value.(serial := input.serial, publicKey := input.publicKey,
                                                   challenge := challenge, status := PendingVerification)));
      } else if newID !in s.issued {
        SafeIssue(o, s, tid, Enrollment(newID, input.nodeID, input.serial, input.publicKey, challenge,
                                        PendingVerification, o.homeID, now));
      }
    case Creating(e) => SafeCreate(o, s, tid);
    case Reissuing(e) => SafeWrite(o, s, tid, e, None);
    case Verified(e, adopt) => SafeWrite(o, s, tid, e, if adopt then Some(Approving(e)) else None);
    case Approving(e) =>
      if e.nodeID in s.db.nodes {
        assert Genuine(o, s, e.(status := Approved));
        SafeContinue(o, s, tid, Finishing(e.(status := Approved)));
      } else {
        SafeContinue(o, s, tid, Inventorying(e, Node(e.nodeID, e.serial, e.homeID, [e.homeID], now)));
      }
    case Inventorying(e, node) =>
      SafeInventory(o, s, e, node);
      var s1 := s.(db := D.CreateNode(s.db, node), inventoried := s.inventoried + {node.id});
      assert Genuine(o, s1, e.(status := Approved));
      SafeContinue(o, s1, tid, Finishing(e.(status := Approved)));
    case Finishing(e) => SafeWrite(o, s, tid, e, None);
    case Rejecting(e) => SafeWrite(o, s, tid, e, None);
    case Acking(e) => SafeWrite(o, s, tid, e, None);
  }

  lemma SafeBeginVerify(o: Options, s: System, ev: Event)
    requires Safe(o, s) && ev.BeginVerify?
    ensures Safe(o, Apply(o, s, ev))
  {
    var BeginVerify(tid, id, signature, onLink) := ev;
    if tid !in s.ops && id in s.db.enrollments {
      var e := s.db.enrollments[id];
      if o.crypto.check(e.publicKey, e.challenge, signature) == Some(true) {
        var p := Presentation(e.publicKey, e.challenge, signature);
        SafeAccept(o, s, p);
        var s1 := s.(accepted := s.accepted + {p});
        var op := Verified(e.(status := PendingApproval), o.policy.AutoAdopt(onLink));
        assert Genuine(o, s, e) && Proven(s1, op.e);
        SafeContinue(o, s1, tid, op);
      }
    }
  }

  lemma SafeBeginOnNode(o: Options, s: System, ev: Event)
    requires Safe(o, s) && (ev.BeginAdopt? || ev.BeginReject?)
    ensures Safe(o, Apply(o, s, ev))
  {
    var r := D.GetEnrollmentByNodeID(s.db, ev.nodeID);
    if r.Ok? {
      assert Genuine(o, s, r.value) && r.value.id in s.db.enrollments;
      if ev.BeginReject? {
        SafeContinue(o, s, ev.tid, Rejecting(r.value.(status := Rejected)));
      } else if r.value.status == PendingApproval {
        SafeContinue(o, s, ev.tid, Approving(r.value));
      }
    }
  }

  lemma SafeBeginAck(o: Options, s: System, ev: Event)
    requires Safe(o, s) && ev.BeginAck?
    ensures Safe(o, Apply(o, s, ev))
  {
    var r := D.GetEnrollment(s.db, ev.id);
    if r.Ok? && r.value.status == Approved {
      assert Genuine(o, s, r.value);
      SafeContinue(o, s, ev.tid, Acking(r.value.(status := Active)));
    }
  }

  lemma DeletionsOnlyShrink(db: D.Db, id: string)
    requires D.IndexSound(db)
    ensures D.DeleteNode(db, id).Ok? ==> Shrunk(db, D.DeleteNode(db, id).value)
    ensures D.DeleteHome(db, id).Ok? ==> Shrunk(db, D.DeleteHome(db, id).value)
  {
    if D.DeleteNode(db, id).Ok? { D.DeleteNodeKeepsIndexSound(db, id); }
    if D.DeleteHome(db, id).Ok? { D.DeleteHomeKeepsIndexSound(db, id); }
  }

  // Nothing but fewer records.
  ghost predicate Shrunk(db: D.Db, after: D.Db) {
    D.IndexSound(after)
    && forall k :: k in after.enrollments ==> k in db.enrollments && after.enrollments[k] == db.enrollments[k]
  }

  lemma SafeElsewhere(o: Options, s: System, ev: Event)
    requires Safe(o, s)
    requires ev.NodeDeleted? || ev.HomeDeleted? || ev.StoreReset? || ev.NodeCreated? || ev.OtherBuckets?
    ensures Safe(o, Apply(o, s, ev))
  {
    if ev.NodeDeleted? {
      DeletionsOnlyShrink(s.db, ev.nodeID);
    } else if ev.HomeDeleted? {
      DeletionsOnlyShrink(s.db, ev.home);
    }
    assert Shrunk(s.db, Apply(o, s, ev).db);
    SafeShrink(o, s, Apply(o, s, ev).db);
  }

  lemma SafeApply(o: Options, s: System, ev: Event)
    requires Safe(o, s)
    ensures Safe(o, Apply(o, s, ev))
  {
    match ev
    case BeginRequest(tid, input, challenge) =>
      if Sane(o, s, Requesting(input, challenge)) { SafeContinue(o, s, tid, Requesting(input, challenge)); }
    case BeginVerify(tid, id, signature, onLink) => SafeBeginVerify(o, s, ev);
    case BeginAdopt(tid, nodeID) => SafeBeginOnNode(o, s, ev);
    case BeginReject(tid, nodeID) => SafeBeginOnNode(o, s, ev);
    case BeginAck(tid, id) => SafeBeginAck(o, s, ev);
    case Advance(tid, newID, now) => if tid in s.ops { SafeStep(o, s, tid, newID, now); }
    case Abandon(tid) => SafeFinish(o, s, tid);
    case _ => SafeElsewhere(o, s, ev);
  }

  // Main result. Whatever is interleaved with whatever, and however stale the
  // copies written back: a stored record's node id is the hash of its key, a
  // record awaiting approval, approved or active has had a signature accepted
  // for exactly its stored key and challenge, every index entry leads to a
  // record of its node, and every node the service put in the inventory is the
  // hash of a key that has signed.
  lemma {:induction false} SafeRun(o: Options, s: System, events: seq<Event>)
    requires Safe(o, s)
    ensures Safe(o, Run(o, s, events))
    decreases |events|
  {
    if events != [] {
      SafeApply(o, s, events[0]);
      SafeRun(o, Apply(o, s, events[0]), events[1..]);
    }
  }

  lemma EveryRunIsSafe(o: Options, events: seq<Event>)
    ensures Safe(o, INIT)
    ensures var s := Run(o, INIT, events);
      && (forall k :: k in s.db.enrollments ==>
            s.db.enrollments[k].nodeID == o.crypto.hash(s.db.enrollments[k].publicKey))
      && (forall k :: k in s.db.enrollments && s.db.enrollments[k].status in {PendingApproval, Approved, Active} ==>
            var e := s.db.enrollments[k];
            exists sig :: Presentation(e.publicKey, e.challenge, sig) in s.accepted
                       && o.crypto.check(e.publicKey, e.challenge, sig) == Some(true))
      && (forall n :: n in s.inventoried ==> exists p :: p in s.accepted && o.crypto.hash(p.publicKey) == n)
      && D.IndexSound(s.db) && D.Keyed(s.db.(homes := map[], nodes := map[]))
  {
    SafeRun(o, INIT, events);
    var s := Run(o, INIT, events);
    forall k | k in s.db.enrollments && s.db.enrollments[k].status in {PendingApproval, Approved, Active}
      ensures var e := s.db.enrollments[k];
              exists sig :: Presentation(e.publicKey, e.challenge, sig) in s.accepted
                         && o.crypto.check(e.publicKey, e.challenge, sig) == Some(true)
    {
      var e := s.db.enrollments[k];
      assert Proven(s, e);
      var p :| p in s.accepted && p.publicKey == e.publicKey && p.challenge == e.challenge;
      assert p == Presentation(e.publicKey, e.challenge, p.signature);
    }
  }

  // ----- adopted nodes are in the inventory -----

  ghost predicate RecordsStocked(db: D.Db) {
    forall k :: k in db.enrollments && db.enrollments[k].status in {Approved, Active} ==> db.enrollments[k].nodeID in db.nodes
  }

  // A copy about to be written as approved or active belongs to a node of the
  // inventory for as long as its record exists.
  ghost predicate Stocked(s: System) {
    && D.IndexExact(s.db)
    && RecordsStocked(s.db)
    && forall t :: t in s.ops && (s.ops[t].Finishing? || s.ops[t].Acking?) && s.ops[t].e.id in s.db.enrollments ==>
         s.ops[t].e.nodeID in s.db.nodes
  }

  // The only race that matters: a record must not be created for a node that
  // got another one after the lookup.
  predicate Unraced(s: System, ev: Event) {
    ev.Advance? && ev.tid in s.ops && s.ops[ev.tid].Creating? ==> s.ops[ev.tid].e.nodeID !in s.db.byNode
  }

  predicate UnracedRun(o: Options, s: System, events: seq<Event>)
    decreases |events|
  {
    events == [] || (Unraced(s, events[0]) && UnracedRun(o, Apply(o, s, events[0]), events[1..]))
  }

  lemma StockedUpdate(o: Options, s: System, e: Enrollment)
    requires Safe(o, s) && Stocked(s) && Genuine(o, s, e) && D.UpdateEnrollment(s.db, e).Ok?
    requires e.status.Adopted() ==> e.nodeID in s.db.nodes
    ensures Stocked(s.(db := D.UpdateEnrollment(s.db, e).value))
  {
    assert Genuine(o, s, s.db.enrollments[e.id]);
    D.UpdateKeepsIndexExactIff(s.db, e);
  }

  // The operation tid carries on, or ends, over the same store.
  lemma StockedContinue(s: System, tid: nat, op: Op)
    requires Stocked(s)
    requires (op.Finishing? || op.Acking?) && op.e.id in s.db.enrollments ==> op.e.nodeID in s.db.nodes
    ensures Stocked(Continue(s, tid, op)) && Stocked(Finish(s, tid))
  {
  }

  lemma StockedWrite(o: Options, s: System, tid: nat, e: Enrollment, next: Option<Op>)
    requires Safe(o, s) && Stocked(s) && Genuine(o, s, e)
    requires e.status.Adopted() && e.id in s.db.enrollments ==> e.nodeID in s.db.nodes
    requires next.Some? ==> next.value.Approving?
    ensures Stocked(Write(s, tid, e, next))
  {
    if D.UpdateEnrollment(s.db, e).Ok? {
      StockedUpdate(o, s, e);
      var s1 := s.(db := D.UpdateEnrollment(s.db, e).value);
      StockedContinue(s1, tid, if next.Some? then next.value else Approving(e));
    } else {
      StockedContinue(s, tid, Approving(e));
    }
  }

  lemma StockedCreate(o: Options, s: System, tid: nat)
    requires Safe(o, s) && Stocked(s) && tid in s.ops && s.ops[tid].Creating?
    requires s.ops[tid].e.nodeID !in s.db.byNode
    ensures Stocked(Finish(s.(db := D.CreateEnrollment(s.db, s.ops[tid].e)), tid))
  {
    var e := s.ops[tid].e;
    assert Unborn(s, tid) && Sane(o, s, s.ops[tid]);
    D.CreateKeepsIndexExactIff(s.db, e);
    assert Stocked(s.(db := D.CreateEnrollment(s.db, e)).(ops := s.ops - {tid}));
  }

  lemma StockedInventory(s: System, node: Node)
    requires Stocked(s)
    ensures Stocked(s.(db := D.CreateNode(s.db, node)))
  {
    assert D.IndexExact(D.CreateNode(s.db, node));
  }

  lemma StockedRequest(o: Options, s: System, tid: nat, newID: string, now: int)
    requires Stocked(s) && tid in s.ops && s.ops[tid].Requesting?
    ensures Stocked(Step(o, s, tid, newID, now))
  {
    var s' := Step(o, s, tid, newID, now);
    if s' != s {
      StockedContinue(s, tid, s'.ops[tid]);
    }
  }

  lemma StockedApproving(o: Options, s: System, tid: nat, newID: string, now: int)
    requires Stocked(s) && tid in s.ops && s.ops[tid].Approving?
    ensures Stocked(Step(o, s, tid, newID, now))
  {
    StockedContinue(s, tid, Step(o, s, tid, newID, now).ops[tid]);
  }

  lemma StockedInventorying(o: Options, s: System, tid: nat, newID: string, now: int)
    requires Stocked(s) && tid in s.ops && s.ops[tid].Inventorying? && s.ops[tid].node.id == s.ops[tid].e.nodeID
    ensures Stocked(Step(o, s, tid, newID, now))
  {
    var node := s.ops[tid].node;
    StockedInventory(s, node);
    StockedContinue(s.(db := D.CreateNode(s.db, node)), tid, Finishing(s.ops[tid].e.(status := Approved)));
  }

  lemma StockedStep(o: Options, s: System, tid: nat, newID: string, now: int)
    requires Safe(o, s) && Stocked(s) && tid in s.ops && Unraced(s, Advance(tid, newID, now))
    ensures Stocked(Step(o, s, tid, newID, now))
  {
    assert Sane(o, s, s.ops[tid]);
    match s.ops[tid]
    case Requesting(input, challenge) => StockedRequest(o, s, tid, newID, now);
    case Creating(e) => StockedCreate(o, s, tid);
    case Verified(e, adopt) => StockedWrite(o, s, tid, e, if adopt then Some(Approving(e)) else None);
    case Approving(e) => StockedApproving(o, s, tid, newID, now);
    case Inventorying(e, node) => StockedInventorying(o, s, tid, newID, now);
    case _ => StockedWrite(o, s, tid, s.ops[tid].e, None);
  }

  // With an exact index a deleted node takes its one record along, and copies of
  // that can no longer be written.
  lemma DeletedCopiesAreLost(o: Options, s: System, nodeID: string, t: nat)
    requires Safe(o, s) && D.IndexExact(s.db) && D.DeleteNode(s.db, nodeID).Ok?
    requires t in s.ops && !s.ops[t].Requesting?
    ensures var after := D.DeleteNode(s.db, nodeID).value;
      s.ops[t].e.id in after.enrollments && s.ops[t].e.nodeID in s.db.nodes ==> s.ops[t].e.nodeID in after.nodes
  {
    var e := s.ops[t].e;
    assert Sane(o, s, s.ops[t]) && Genuine(o, s, e);
    if e.id in s.db.enrollments {
      assert Genuine(o, s, s.db.enrollments[e.id]);
    }
  }

  lemma StockedDeleteNode(o: Options, s: System, nodeID: string)
    requires Safe(o, s) && Stocked(s) && D.DeleteNode(s.db, nodeID).Ok?
    ensures Stocked(s.(db := D.DeleteNode(s.db, nodeID).value))
  {
    var after := D.DeleteNode(s.db, nodeID).value;
    assert D.IndexExact(after) by { D.DeletesKeepIndexExact(s.db, nodeID); }
    assert RecordsStocked(after) by { DeletedNodeWasNobodys(o, s, nodeID); }
    forall t | t in s.ops && (s.ops[t].Finishing? || s.ops[t].Acking?) && s.ops[t].e.id in after.enrollments
      ensures s.ops[t].e.nodeID in after.nodes
    {
      DeletedCopiesAreLost(o, s, nodeID, t);
    }
  }

  lemma DeletedNodeWasNobodys(o: Options, s: System, nodeID: string)
    requires Safe(o, s) && Stocked(s) && D.DeleteNode(s.db, nodeID).Ok?
    ensures RecordsStocked(D.DeleteNode(s.db, nodeID).value)
  {
    if nodeID == "" {
      assert forall k :: k in s.db.enrollments ==> Genuine(o, s, s.db.enrollments[k]);
    } else {
      DeleteNodeKeepsStockIff(s.db, nodeID);
    }
  }

  ghost predicate AcksApproved(s: System, ev: Event, op: Op) {
    && ev.BeginAck? && op.Acking? && ev.id in s.db.enrollments
    && s.db.enrollments[ev.id].status == Approved && op.e.nodeID == s.db.enrollments[ev.id].nodeID
  }

  // Beginning an operation leaves the store alone and holds no copy that could be
  // written as adopted, but for an approved record's about to become active.
  lemma BeginHolds(o: Options, s: System, ev: Event)
    requires ev.BeginRequest? || ev.BeginVerify? || ev.BeginAdopt? || ev.BeginReject? || ev.BeginAck?
    ensures var s' := Apply(o, s, ev);
      && s'.db == s.db
      && (s'.ops == s.ops
          || (ev.tid in s'.ops && s'.ops == s.ops[ev.tid := s'.ops[ev.tid]] && !s'.ops[ev.tid].Finishing?
              && (s'.ops[ev.tid].Acking? ==> AcksApproved(s, ev, s'.ops[ev.tid]))))
  {
  }

  lemma StockedBegin(o: Options, s: System, ev: Event)
    requires Safe(o, s) && Stocked(s)
    requires ev.BeginRequest? || ev.BeginVerify? || ev.BeginAdopt? || ev.BeginReject? || ev.BeginAck?
    ensures Stocked(Apply(o, s, ev))
  {
    BeginHolds(o, s, ev);
  }

  lemma StockedApply(o: Options, s: System, ev: Event)
    requires Safe(o, s) && Stocked(s) && Unraced(s, ev)
    ensures Stocked(Apply(o, s, ev))
  {
    match ev
    case Advance(tid, newID, now) => if tid in s.ops { StockedStep(o, s, tid, newID, now); }
    case Abandon(tid) =>
    case NodeDeleted(nodeID) => if nodeID in s.db.nodes { StockedDeleteNode(o, s, nodeID); }
    case HomeDeleted(home) => D.DeletesKeepIndexExact(s.db, home);
    case StoreReset =>
    case NodeCreated(node) => StockedInventory(s, node);
    case OtherBuckets(homes, profiles, settings) => assert D.IndexExact(Apply(o, s, ev).db);
    case _ => StockedBegin(o, s, ev);
  }

  // Every interleaving that avoids duplicate records keeps every approved or
  // active record's node in the inventory; node deletion, Home deletion,
  // re-requests and resets may fall anywhere.
  lemma {:induction false} StockedRun(o: Options, s: System, events: seq<Event>)
    requires Safe(o, s) && Stocked(s) && UnracedRun(o, s, events)
    ensures Stocked(Run(o, s, events))
    decreases |events|
  {
    if events != [] {
      StockedApply(o, s, events[0]);
      SafeApply(o, s, events[0]);
      StockedRun(o, Apply(o, s, events[0]), events[1..]);
    }
  }

  // The two steps that break the inventory promise, each with the check its
  // transaction does not make. Deleting a node removes the indexed record and
  // leaves the node's other records behind:
  ghost predicate StrandsOther(s: System, ev: Event) {
    ev.NodeDeleted? && ev.nodeID in s.db.nodes
    && exists k :: k in s.db.enrollments && s.db.enrollments[k].status.Adopted() && s.db.enrollments[k].nodeID == ev.nodeID
                && !(ev.nodeID in s.db.byNode && s.db.byNode[ev.nodeID] == k)
  }

  // and a copy is written back as approved or active after its node was deleted.
  predicate WritesStranded(s: System, ev: Event) {
    ev.Advance? && ev.tid in s.ops && (s.ops[ev.tid].Finishing? || s.ops[ev.tid].Acking?)
    && s.ops[ev.tid].e.id in s.db.enrollments && s.ops[ev.tid].e.nodeID !in s.db.nodes
  }

  // Deleting a node keeps the promise precisely when every approved or active
  // record of that node is the indexed one, which it is when the index is exact.
  lemma DeleteNodeKeepsStockIff(db: D.Db, nodeID: string)
    requires RecordsStocked(db) && D.DeleteNode(db, nodeID).Ok?
    ensures RecordsStocked(D.DeleteNode(db, nodeID).value)
       <==> forall k :: k in db.enrollments && db.enrollments[k].status.Adopted() && db.enrollments[k].nodeID == nodeID ==>
              nodeID in db.byNode && db.byNode[nodeID] == k
    ensures D.IndexExact(db) && nodeID != "" ==> RecordsStocked(D.DeleteNode(db, nodeID).value)
  {
    var after := D.DeleteNode(db, nodeID).value;
    forall k | k in db.enrollments && db.enrollments[k].status.Adopted() && db.enrollments[k].nodeID == nodeID
             && !(nodeID in db.byNode && db.byNode[nodeID] == k)
      ensures !RecordsStocked(after)
    {
      assert k in after.enrollments && after.enrollments[k].nodeID !in after.nodes;
    }
  }

  lemma WriteKeepsStockIff(o: Options, s: System, tid: nat, e: Enrollment, next: Option<Op>)
    requires Safe(o, s) && RecordsStocked(s.db) && Genuine(o, s, e)
    ensures RecordsStocked(Write(s, tid, e, next).db)
       <==> !(e.id in s.db.enrollments && e.status.Adopted() && e.nodeID !in s.db.nodes)
  {
    if e.id in s.db.enrollments {
      assert Write(s, tid, e, next).db.enrollments[e.id] == e;
    }
  }

  lemma AdvanceKeepsStockIff(o: Options, s: System, tid: nat, newID: string, now: int)
    requires Safe(o, s) && RecordsStocked(s.db) && tid in s.ops
    ensures RecordsStocked(Step(o, s, tid, newID, now).db) <==> !WritesStranded(s, Advance(tid, newID, now))
  {
    assert Sane(o, s, s.ops[tid]);
    match s.ops[tid]
    case Requesting(input, challenge) =>
    case Creating(e) =>
    case Approving(e) =>
    case Inventorying(e, node) =>
    case Verified(e, adopt) => WriteKeepsStockIff(o, s, tid, e, if adopt then Some(Approving(e)) else None);
    case _ => WriteKeepsStockIff(o, s, tid, s.ops[tid].e, None);
  }

  // Every step of every operation and every other request keeps the inventory
  // promise precisely when it is neither of the two.
  lemma StepKeepsStockIff(o: Options, s: System, ev: Event)
    requires Safe(o, s)
    ensures RecordsStocked(s.db) ==>
              (RecordsStocked(Apply(o, s, ev).db) <==> !StrandsOther(s, ev) && !WritesStranded(s, ev))
  {
    if RecordsStocked(s.db) {
      StockedStepIff(o, s, ev);
    }
  }

  lemma StockedStepIff(o: Options, s: System, ev: Event)
    requires Safe(o, s) && RecordsStocked(s.db)
    ensures RecordsStocked(Apply(o, s, ev).db) <==> !StrandsOther(s, ev) && !WritesStranded(s, ev)
  {
    match ev
    case NodeDeleted(nodeID) => if nodeID in s.db.nodes { DeleteNodeKeepsStockIff(s.db, nodeID); }
    case Advance(tid, newID, now) => if tid in s.ops { AdvanceKeepsStockIff(o, s, tid, newID, now); }
    case _ =>
  }

  // The promise holds all along the run.
  ghost predicate AlwaysStocked(o: Options, s: System, events: seq<Event>)
    decreases |events|
  {
    RecordsStocked(s.db) && (events == [] || AlwaysStocked(o, Apply(o, s, events[0]), events[1..]))
  }

  // No step of the run is one of the two.
  ghost predicate NeverStrands(o: Options, s: System, events: seq<Event>)
    decreases |events|
  {
    events == []
    || (!StrandsOther(s, events[0]) && !WritesStranded(s, events[0])
        && NeverStrands(o, Apply(o, s, events[0]), events[1..]))
  }

  // Main result. Over every run, duplicates and all: the inventory promise holds
  // all along exactly when no node is deleted from under another adopted record
  // of it and no copy is written back as adopted after its node went.
  lemma {:induction false} StockedAlwaysIff(o: Options, s: System, events: seq<Event>)
    requires Safe(o, s)
    ensures RecordsStocked(s.db) ==> (AlwaysStocked(o, s, events) <==> NeverStrands(o, s, events))
    decreases |events|
  {
    if events != [] {
      StepKeepsStockIff(o, s, events[0]);
      SafeApply(o, s, events[0]);
      StockedAlwaysIff(o, Apply(o, s, events[0]), events[1..]);
    }
  }
}
