/**
 The enrollment service of internal/enrollment/enrollment.go as a class over the
 store, run one operation at a time. Each method makes the same store calls as
 the step system of EnrollmentProtocol.dfy makes transactions, and is proved to
 leave the store as the run of that one operation does; so everything proved
 there about all runs holds of the service.
 */
module EnrollmentService {
  import opened Wrappers
  import opened Models
  import opened EnrollmentProtocol
  import opened Storage
  import D = Database

  datatype ServiceError = MissingFields | IdentityMismatch | InvalidSignature | NotAdoptable | StoreFailure(error: D.StoreError)

  datatype Ticket = Ticket(enrollmentID: string, challenge: Bytes)

  datatype Reply = Reply(status: EnrollmentStatus, homeID: string, profile: Option<Profile>)

  // One service operation in isolation: its opening transaction and at most
  // four more.
  function Alone(o: Options, s: System, begin: Event, newID: string, now: int): System {
    var ev := Advance(0, newID, now);
    Run(o, s, [begin, ev, ev, ev, ev, Abandon(0)])
  }

  function Quiet(db: D.Db): System {
    System(db, map[], {}, map[], {})
  }

  function Perform(o: Options, db: D.Db, begin: Event, newID: string, now: int): D.Db {
    Alone(o, Quiet(db), begin, newID, now).db
  }

  lemma AloneChain(o: Options, s: System, begin: Event, newID: string, now: int)
    ensures var ev := Advance(0, newID, now);
      Alone(o, s, begin, newID, now)
      == Apply(o, Apply(o, Apply(o, Apply(o, Apply(o, Apply(o, s, begin), ev), ev), ev), ev), Abandon(0))
  {
    var ev := Advance(0, newID, now);
    var s1 := Apply(o, s, begin);
    var s2 := Apply(o, s1, ev);
    var s3 := Apply(o, s2, ev);
    var s4 := Apply(o, s3, ev);
    var s5 := Apply(o, s4, ev);
    var s6 := Apply(o, s5, Abandon(0));
    RunTrace(o, [s, s1, s2, s3, s4, s5, s6], [begin, ev, ev, ev, ev, Abandon(0)]);
  }

  class Service {
    const store: Store
    const options: Options

    constructor (store: Store, options: Options)
      ensures this.store == store && this.options == options
    {
      this.store, this.options := store, options;
    }

    // A reply reports the stored record, with its Home's profile once the node is
    // adopted.
    ghost predicate Faithful(id: string, reply: Reply)
      reads store
    {
      && id in store.enrollments
      && reply.status == store.enrollments[id].status
      && reply.homeID == store.enrollments[id].homeID
      && reply.profile == (if store.enrollments[id].status in {Approved, Active} && reply.homeID in store.profiles
                           then Some(store.profiles[reply.homeID]) else None)
    }

    method Request(input: RequestInput, challenge: Bytes, newID: string, now: int)
      returns (r: Result<Ticket, ServiceError>)
      requires store.Valid() && |challenge| == CHALLENGE_BYTES
      modifies store
      ensures store.Valid()
      ensures store.Contents() == Perform(options, old(store.Contents()), BeginRequest(0, input, challenge), newID, now)
      ensures r.Err? ==> store.Contents() == old(store.Contents())
      ensures input.nodeID == "" || input.publicKey == [] <==> r == Err(MissingFields)
      ensures input.nodeID != "" && input.publicKey != [] ==>
                (options.crypto.hash(input.publicKey) != input.nodeID <==> r == Err(IdentityMismatch))
      ensures r.Ok? ==> var id := r.value.enrollmentID;
                && id in store.enrollments
                && (old(D.IndexSound(store.Contents())) ==> store.enrollments[id].nodeID == input.nodeID)
                && store.enrollments[id].publicKey == input.publicKey
                && store.enrollments[id].challenge == r.value.challenge == challenge
                && store.enrollments[id].status == PendingVerification
      ensures r.Ok? && old(input.nodeID !in store.byNode) ==>
                && r.value.enrollmentID == newID
                && store.enrollments[newID] == Enrollment(newID, input.nodeID, input.serial, input.publicKey, challenge,
                                                          PendingVerification, options.homeID, now)
      ensures r.Ok? && old(input.nodeID in store.byNode && store.byNode[input.nodeID] in store.enrollments) ==>
                var known := old(store.enrollments[store.byNode[input.nodeID]]);
                && r.value.enrollmentID == known.id
                && store.enrollments[known.id] == known.(serial := input.serial, publicKey := input.publicKey,
                                                         challenge := challenge, status := PendingVerification)
    {
      ghost var begin, ev := BeginRequest(0, input, challenge), Advance(0, newID, now);
      AloneChain(options, Quiet(store.Contents()), begin, newID, now);
      if input.nodeID == "" || input.publicKey == [] {
        return Err(MissingFields);
      }
      if options.crypto.hash(input.publicKey) != input.nodeID {
        return Err(IdentityMismatch);
      }
      ghost var s1 := Apply(options, Quiet(store.Contents()), begin);
      ghost var s2 := Apply(options, s1, ev);
      assert s1.ops == map[0 := Requesting(input, challenge)];
      var found := store.GetEnrollmentByNodeID(input.nodeID);
      if found.Ok? {
        var existing := found.value;
        existing := existing.(serial := input.serial, publicKey := input.publicKey, challenge := challenge,
                              status := PendingVerification);
        assert s2.ops == map[0 := Reissuing(existing)];
        var updated := store.UpdateEnrollment(existing);
        assert updated.Ok?;
        r := Ok(Ticket(existing.id, challenge));
      } else {
        var e := Enrollment(newID, input.nodeID, input.serial, input.publicKey, challenge,
                            PendingVerification, options.homeID, now);
        assert s2.ops == map[0 := Creating(e)];
        store.CreateEnrollment(e);
        r := Ok(Ticket(e.id, challenge));
      }
    }

    method Verify(id: string, signature: Bytes, onLink: bool, now: int) returns (r: Result<Reply, ServiceError>)
      requires store.Valid()
      modifies store
      ensures store.Valid()
      ensures store.Contents() == Perform(options, old(store.Contents()), BeginVerify(0, id, signature, onLink), "", now)
      ensures r.Err? ==> store.Contents() == old(store.Contents())
      ensures old(id !in store.enrollments) ==> r == Err(StoreFailure(D.NotFound))
      ensures old(id in store.enrollments) ==>
                var e := old(store.enrollments[id]);
                && (r == Err(InvalidSignature) <==> options.crypto.check(e.publicKey, e.challenge, signature) != Some(true))
                && (r.Ok? <==> options.crypto.check(e.publicKey, e.challenge, signature) == Some(true))
      ensures r.Ok? ==>
                && Faithful(id, r.value)
                && r.value.status in {Approved, PendingApproval}
                && (r.value.status == Approved
                    <==> options.policy == AdoptAlways || (options.policy == AdoptOnlink && onLink))
                && (r.value.status == Approved ==> store.enrollments[id].nodeID in store.nodes)
    {
      var begin := BeginVerify(0, id, signature, onLink);
      AloneChain(options, Quiet(store.Contents()), begin, "", now);
      var found := store.GetEnrollment(id);
      if found.Err? {
        return Err(StoreFailure(found.error));
      }
      var e := found.value;
      if options.crypto.check(e.publicKey, e.challenge, signature) != Some(true) {
        return Err(InvalidSignature);
      }
      e := e.(status := PendingApproval);
      ghost var s1 := Apply(options, Quiet(store.Contents()), begin);
      ghost var s2 := Apply(options, s1, Advance(0, "", now));
      var adopt := options.policy.AutoAdopt(onLink);
      assert s1.ops == map[0 := Verified(e, adopt)];
      var updated := store.UpdateEnrollment(e);
      if adopt {
        assert s2.ops == map[0 := Approving(e)] && s2.db == store.Contents();
        ApproveChain(options, s2, e, now);
        r := Approve(e, now);
      } else {
        assert s2.ops == map[];
        var reply := MakeReply(e);
        r := Ok(reply);
      }
    }

    method Adopt(nodeID: string, now: int) returns (r: Result<Reply, ServiceError>)
      requires store.Valid()
      modifies store
      ensures store.Valid()
      ensures store.Contents() == Perform(options, old(store.Contents()), BeginAdopt(0, nodeID), "", now)
      ensures r.Err? ==> store.Contents() == old(store.Contents())
      ensures var found := D.GetEnrollmentByNodeID(old(store.Contents()), nodeID);
        match found
        case Err(error) => r == Err(StoreFailure(error))
        case Ok(e) =>
          && (e.status != PendingApproval <==> r == Err(NotAdoptable))
          && (e.status == PendingApproval <==> r.Ok?)
          && (r.Ok? ==> Faithful(e.id, r.value) && r.value.status == Approved && e.nodeID in store.nodes)
    {
      var begin := BeginAdopt(0, nodeID);
      AloneChain(options, Quiet(store.Contents()), begin, "", now);
      var found := store.GetEnrollmentByNodeID(nodeID);
      if found.Err? {
        return Err(StoreFailure(found.error));
      }
      var e := found.value;
      if e.status != PendingApproval {
        return Err(NotAdoptable);
      }
      ghost var s1 := Apply(options, Quiet(store.Contents()), begin);
      assert s1.ops == map[0 := Approving(e)] && s1.db == store.Contents();
      ApproveChain(options, s1, e, now);
      r := Approve(e, now);
    }

    method Reject(nodeID: string) returns (r: Result<Reply, ServiceError>)
      requires store.Valid()
      modifies store
      ensures store.Valid()
      ensures store.Contents() == Perform(options, old(store.Contents()), BeginReject(0, nodeID), "", 0)
      ensures r.Err? ==> store.Contents() == old(store.Contents())
      ensures var found := D.GetEnrollmentByNodeID(old(store.Contents()), nodeID);
        && (found.Err? <==> r.Err?)
        && (r.Ok? ==> Faithful(found.value.id, r.value) && r.value.status == Rejected)
    {
      var begin := BeginReject(0, nodeID);
      AloneChain(options, Quiet(store.Contents()), begin, "", 0);
      var found := store.GetEnrollmentByNodeID(nodeID);
      if found.Err? {
        return Err(StoreFailure(found.error));
      }
      var e := found.value.(status := Rejected);
      ghost var s1 := Apply(options, Quiet(store.Contents()), begin);
      assert s1.ops == map[0 := Rejecting(e)];
      var updated := store.UpdateEnrollment(e);
      var reply := MakeReply(e);
      r := Ok(reply);
    }

    method Get(id: string) returns (r: Result<Reply, ServiceError>)
      requires store.Valid()
      ensures id !in store.enrollments <==> r == Err(StoreFailure(D.NotFound))
      ensures id in store.enrollments <==> r.Ok?
      ensures r.Ok? ==> Faithful(id, r.value)
    {
      var found := store.GetEnrollment(id);
      if found.Err? {
        return Err(StoreFailure(found.error));
      }
      var reply := MakeReply(found.value);
      r := Ok(reply);
    }

    method Ack(id: string) returns (r: Result<Reply, ServiceError>)
      requires store.Valid()
      modifies store
      ensures store.Valid()
      ensures store.Contents() == Perform(options, old(store.Contents()), BeginAck(0, id), "", 0)
      ensures old(id in store.enrollments) <==> r.Ok?
      ensures r.Ok? ==>
                && Faithful(id, r.value)
                && r.value.status == (if old(store.enrollments[id].status) == Approved then Active else old(store.enrollments[id].status))
    {
      var begin := BeginAck(0, id);
      AloneChain(options, Quiet(store.Contents()), begin, "", 0);
      var found := store.GetEnrollment(id);
      if found.Err? {
        return Err(StoreFailure(found.error));
      }
      var e := found.value;
      if e.status == Approved {
        e := e.(status := Active);
        ghost var s1 := Apply(options, Quiet(store.Contents()), begin);
        assert s1.ops == map[0 := Acking(e)];
        var updated := store.UpdateEnrollment(e);
      }
      var reply := MakeReply(e);
      r := Ok(reply);
    }

    // Creates the inventory record unless there is one, then marks the
    // enrollment approved.
    method Approve(e: Enrollment, now: int) returns (r: Result<Reply, ServiceError>)
      requires store.Valid() && e.id in store.enrollments
      modifies store
      ensures store.Valid()
      ensures store.Contents() == AfterApproval(options, old(store.Contents()), e, now)
      ensures r.Ok? && Faithful(e.id, r.value) && r.value.status == Approved
      ensures store.enrollments[e.id] == e.(status := Approved)
      ensures store.nodes == if e.nodeID in old(store.nodes) then old(store.nodes)
                             else old(store.nodes)[e.nodeID := Node(e.nodeID, e.serial, e.homeID, [e.homeID], now)]
    {
      var known := store.GetNode(e.nodeID);
      if known.Err? {
        store.CreateNode(Node(e.nodeID, e.serial, e.homeID, [e.homeID], now));
      }
      var approved := e.(status := Approved);
      var updated := store.UpdateEnrollment(approved);
      var reply := MakeReply(approved);
      r := Ok(reply);
    }

    method MakeReply(e: Enrollment) returns (reply: Reply)
      ensures reply.status == e.status && reply.homeID == e.homeID
      ensures reply.profile == if e.status in {Approved, Active} && e.homeID in store.profiles then Some(store.profiles[e.homeID]) else None
    {
      reply := Reply(e.status, e.homeID, None);
      if e.status == Approved || e.status == Active {
        if e.homeID in store.profiles {
          reply := reply.(profile := Some(store.profiles[e.homeID]));
        }
      }
    }
  }

  // What an approval alone leaves in the store.
  function AfterApproval(o: Options, db: D.Db, e: Enrollment, now: int): D.Db
    requires e.id in db.enrollments
  {
    var stocked := if e.nodeID in db.nodes then db
                   else D.CreateNode(db, Node(e.nodeID, e.serial, e.homeID, [e.homeID], now));
    D.UpdateEnrollment(stocked, e.(status := Approved)).value
  }

  lemma ApproveChain(o: Options, s: System, e: Enrollment, now: int)
    requires s.ops == map[0 := Approving(e)] && e.id in s.db.enrollments
    ensures var ev := Advance(0, "", now);
      var s3 := Apply(o, Apply(o, Apply(o, s, ev), ev), ev);
      s3.ops == map[] && s3.db == AfterApproval(o, s.db, e, now)
  {
    var ev, approved := Advance(0, "", now), e.(status := Approved);
    var s1 := Apply(o, s, ev);
    if e.nodeID in s.db.nodes {
      assert s1.ops == map[0 := Finishing(approved)];
    } else {
      var s2 := Apply(o, s1, ev);
      assert s2.ops == map[0 := Finishing(approved)];
    }
  }

  // ----- sequential histories -----

  // A service operation running alone, or a request of another handler.
  datatype Call =
    | Serve(begin: Event, newID: string, now: int)
    | Interlude(ev: Event)

  predicate IsOpening(ev: Event) {
    (ev.BeginRequest? || ev.BeginVerify? || ev.BeginAdopt? || ev.BeginReject? || ev.BeginAck?) && ev.tid == 0
  }

  predicate IsOtherHandler(ev: Event) {
    ev.NodeDeleted? || ev.HomeDeleted? || ev.StoreReset? || ev.NodeCreated? || ev.OtherBuckets?
  }

  ghost predicate WellFormed(call: Call) {
    match call
    case Serve(begin, newID, now) => IsOpening(begin)
    case Interlude(ev) => IsOtherHandler(ev)
  }

  function Script(call: Call): seq<Event> {
    match call
    case Serve(begin, newID, now) =>
      var ev := Advance(0, newID, now);
      [begin, ev, ev, ev, ev, Abandon(0)]
    case Interlude(ev) => [ev]
  }

  function History(calls: seq<Call>): seq<Event> {
    if calls == [] then [] else Script(calls[0]) + History(calls[1..])
  }

  lemma {:induction false} UnracedConcat(o: Options, s: System, a: seq<Event>, b: seq<Event>)
    requires UnracedRun(o, s, a) && UnracedRun(o, Run(o, s, a), b)
    ensures UnracedRun(o, s, a + b)
    decreases |a|
  {
    if a == [] {
      assert a + b == b;
    } else {
      assert (a + b)[1..] == a[1..] + b;
      UnracedConcat(o, Apply(o, s, a[0]), a[1..], b);
    }
  }

  // At most one operation in flight, and a record about to be created is for a
  // node without one.
  ghost predicate Calm(s: System) {
    && s.ops.Keys <= {0}
    && (0 in s.ops && s.ops[0].Creating? ==> s.ops[0].e.nodeID !in s.db.byNode)
  }

  lemma CalmStep(o: Options, s: System, newID: string, now: int)
    requires Safe(o, s) && Calm(s)
    ensures Unraced(s, Advance(0, newID, now)) && Calm(Apply(o, s, Advance(0, newID, now)))
  {
    if 0 in s.ops && s.ops[0].Requesting? {
      assert Sane(o, s, s.ops[0]);
    }
  }

  lemma {:induction false} CalmSteps(o: Options, s: System, newID: string, now: int, n: nat)
    requires Safe(o, s) && Calm(s)
    ensures UnracedRun(o, s, seq(n, _ => Advance(0, newID, now)) + [Abandon(0)])
    ensures Run(o, s, seq(n, _ => Advance(0, newID, now)) + [Abandon(0)]).ops == map[]
    decreases n
  {
    var ev := Advance(0, newID, now);
    var events := seq(n, _ => ev) + [Abandon(0)];
    if n > 0 {
      assert events[1..] == seq(n - 1, _ => ev) + [Abandon(0)];
      CalmStep(o, s, newID, now);
      SafeApply(o, s, ev);
      CalmSteps(o, Apply(o, s, ev), newID, now, n - 1);
    } else {
      assert Run(o, s, events) == Apply(o, s, Abandon(0)) by { RunTrace(o, [s, Apply(o, s, Abandon(0))], events); }
    }
  }

  lemma BeginIsCalm(o: Options, s: System, begin: Event)
    requires s.ops == map[] && IsOpening(begin)
    ensures Unraced(s, begin) && Calm(Apply(o, s, begin))
  {
  }

  lemma ServiceIsUnraced(o: Options, s: System, begin: Event, newID: string, now: int)
    requires Safe(o, s) && s.ops == map[] && IsOpening(begin)
    ensures var script := Script(Serve(begin, newID, now)); UnracedRun(o, s, script) && Run(o, s, script).ops == map[]
  {
    var script, rest := Script(Serve(begin, newID, now)), seq(4, _ => Advance(0, newID, now)) + [Abandon(0)];
    BeginIsCalm(o, s, begin);
    SafeApply(o, s, begin);
    CalmSteps(o, Apply(o, s, begin), newID, now, 4);
    assert script[0] == begin && script[1..] == rest;
  }

  lemma CallIsUnraced(o: Options, s: System, call: Call)
    requires Safe(o, s) && s.ops == map[] && WellFormed(call)
    ensures UnracedRun(o, s, Script(call)) && Run(o, s, Script(call)).ops == map[]
  {
    match call
    case Serve(begin, newID, now) => ServiceIsUnraced(o, s, begin, newID, now);
    case Interlude(ev) =>
      RunTrace(o, [s, Apply(o, s, ev)], [ev]);
  }

  lemma {:induction false} HistoryIsUnraced(o: Options, s: System, calls: seq<Call>)
    requires Safe(o, s) && s.ops == map[] && forall c :: c in calls ==> WellFormed(c)
    ensures UnracedRun(o, s, History(calls))
    decreases |calls|
  {
    if calls != [] {
      var script := Script(calls[0]);
      CallIsUnraced(o, s, calls[0]);
      SafeRun(o, s, script);
      HistoryIsUnraced(o, Run(o, s, script), calls[1..]);
      UnracedConcat(o, s, script, History(calls[1..]));
    }
  }

  // Main result. When service operations do not overlap, every approved or
  // active record has its node in the inventory in every reachable state, and
  // the node index is exact, whatever is deleted, re-requested or reset between.
  lemma SequentialInventory(o: Options, calls: seq<Call>)
    requires forall c :: c in calls ==> WellFormed(c)
    ensures var db := Run(o, INIT, History(calls)).db;
      RecordsStocked(db) && D.IndexExact(db)
  {
    HistoryIsUnraced(o, INIT, calls);
    StockedRun(o, INIT, History(calls));
  }

  // The same store and operations, and the same fresh id to come.
  ghost predicate Alike(s: System, t: System, newID: string) {
    && s.db == t.db && s.ops == t.ops && s.ops.Keys <= {0}
    && (0 in s.ops && s.ops[0].Requesting? ==> newID !in s.issued && newID !in t.issued)
  }

  lemma AlikeWrite(s: System, t: System, e: Enrollment, next: Option<Op>, newID: string)
    requires Alike(s, t, newID) && (next.Some? ==> !next.value.Requesting?)
    ensures Alike(Write(s, 0, e, next), Write(t, 0, e, next), newID)
  {
  }

  lemma AlikeStep(o: Options, s: System, t: System, newID: string, now: int)
    requires Alike(s, t, newID)
    ensures Alike(Apply(o, s, Advance(0, newID, now)), Apply(o, t, Advance(0, newID, now)), newID)
  {
    if 0 in s.ops {
      var s', t' := Step(o, s, 0, newID, now), Step(o, t, 0, newID, now);
      match s.ops[0]
      case Requesting(input, challenge) => assert s'.ops == t'.ops;
      case Verified(e, adopt) => AlikeWrite(s, t, e, if adopt then Some(Approving(e)) else None, newID);
      case Creating(e) =>
      case Approving(e) => assert s'.ops == t'.ops;
      case Inventorying(e, node) => assert s'.ops == t'.ops;
      case _ => AlikeWrite(s, t, s.ops[0].e, None, newID);
    }
  }

  // A method of the service, proved against Perform, is the same call in any
  // sequential history: what went before matters only through the store.
  lemma PerformInHistory(o: Options, s: System, begin: Event, newID: string, now: int)
    requires s.ops == map[] && newID !in s.issued && IsOpening(begin)
    ensures Alone(o, s, begin, newID, now).db == Perform(o, s.db, begin, newID, now)
  {
    var ev, t := Advance(0, newID, now), Quiet(s.db);
    AloneChain(o, s, begin, newID, now);
    AloneChain(o, t, begin, newID, now);
    var s1, t1 := Apply(o, s, begin), Apply(o, t, begin);
    AlikeStep(o, s1, t1, newID, now);
    var s2, t2 := Apply(o, s1, ev), Apply(o, t1, ev);
    AlikeStep(o, s2, t2, newID, now);
    var s3, t3 := Apply(o, s2, ev), Apply(o, t2, ev);
    AlikeStep(o, s3, t3, newID, now);
    AlikeStep(o, Apply(o, s3, ev), Apply(o, t3, ev), newID, now);
  }
}
