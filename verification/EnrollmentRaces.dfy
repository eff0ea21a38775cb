/**
 Runs of the enrollment protocol that show which promises need more than single
 transactions, and the sequential form of the protocol, in which each service
 operation runs alone.
 */
module EnrollmentRaces {
  import opened Wrappers
  import opened Models
  import opened EnrollmentProtocol
  import D = Database

  const KEY: Bytes := [1]
  function Challenge(): (c: Bytes)
    ensures |c| == CHALLENGE_BYTES
  {
    seq(CHALLENGE_BYTES, _ => 0)
  }

  function HashToN(key: Bytes): string {
    "n"
  }

  function CheckAll(key: Bytes, challenge: Bytes, signature: Bytes): Option<bool> {
    Some(true)
  }

  const TRUSTING := Options(Crypto(HashToN, CheckAll), "h", AdoptAlways)

  function Record(id: string, status: EnrollmentStatus): Enrollment {
    Enrollment(id, "n", "", KEY, Challenge(), status, "h", 0)
  }

  const INPUT := RequestInput("n", "", KEY)
  const IDS := map["a" := "n", "b" := "n"]

  // A store with the records a and b of node n, the latter or the former indexed.
  function Both(a: EnrollmentStatus, b: EnrollmentStatus, indexed: string, nodes: map<string, Node>): D.Db {
    D.EMPTY.(enrollments := map["a" := Record("a", a), "b" := Record("b", b)],
             byNode := map["n" := indexed], nodes := nodes)
  }

  const REQUESTED := System(Both(PendingVerification, PendingVerification, "b", map[]), map[], {}, IDS, {})

  const ASKING := Requesting(INPUT, Challenge())
  const CREATING_A := Creating(Record("a", PendingVerification))
  const CREATING_B := Creating(Record("b", PendingVerification))
  const BOTH_ASKING := INIT.(ops := map[0 := ASKING, 1 := ASKING])
  const BOTH_CREATING := INIT.(ops := map[0 := CREATING_A, 1 := CREATING_B], issued := IDS)

  // Both requests look the node up before either creates its record.
  lemma BothLookUp() returns (states: seq<System>, events: seq<Event>)
    ensures |states| == 5 && |events| == 4 && states[0] == INIT && states[4] == BOTH_CREATING
    ensures forall i :: 0 <= i < 4 ==> states[i + 1] == Apply(TRUSTING, states[i], events[i])
    ensures forall i :: 0 <= i < 5 ==> states[i].db == D.EMPTY
  {
    var one := INIT.(ops := map[0 := ASKING]);
    var mixed := INIT.(ops := map[0 := CREATING_A, 1 := ASKING], issued := map["a" := "n"]);
    states := [INIT, one, BOTH_ASKING, mixed, BOTH_CREATING];
    events := [BeginRequest(0, INPUT, Challenge()), BeginRequest(1, INPUT, Challenge()), Advance(0, "a", 0), Advance(1, "b", 0)];
    assert one == Apply(TRUSTING, INIT, events[0]);
    assert BOTH_ASKING == Apply(TRUSTING, one, events[1]);
    assert mixed == Apply(TRUSTING, BOTH_ASKING, events[2]);
    assert BOTH_CREATING == Apply(TRUSTING, mixed, events[3]);
  }

  lemma BothCreate() returns (states: seq<System>, events: seq<Event>)
    ensures |states| == 3 && |events| == 2 && states[0] == BOTH_CREATING && states[2] == REQUESTED
    ensures forall i :: 0 <= i < 2 ==> states[i + 1] == Apply(TRUSTING, states[i], events[i])
    ensures forall i :: 0 <= i < 3 ==> RecordsStocked(states[i].db)
  {
    var one := BOTH_CREATING.(ops := map[1 := CREATING_B],
                              db := D.EMPTY.(enrollments := map["a" := Record("a", PendingVerification)], byNode := map["n" := "a"]));
    states := [BOTH_CREATING, one, REQUESTED];
    events := [Advance(0, "", 0), Advance(1, "", 0)];
    assert one == Apply(TRUSTING, BOTH_CREATING, events[0]);
    assert REQUESTED == Apply(TRUSTING, one, events[1]);
  }

  lemma OverlappingRequests() returns (events: seq<Event>)
    ensures Run(TRUSTING, INIT, events) == REQUESTED && AlwaysStocked(TRUSTING, INIT, events)
  {
    var states, first := BothLookUp();
    RunTrace(TRUSTING, states, first);
    AlwaysStockedTrace(TRUSTING, states, first);
    var states', second := BothCreate();
    RunTrace(TRUSTING, states', second);
    AlwaysStockedTrace(TRUSTING, states', second);
    events := first + second;
    RunConcat(TRUSTING, INIT, first, second);
    AlwaysStockedConcat(TRUSTING, INIT, first, second);
  }

  // From the accepted signature to the approval.
  lemma VerifiedAlone(s: System, e: Enrollment)
    requires s.ops == map[0 := Verified(e, true)] && e.nodeID != ""
    requires e.id in s.db.enrollments && s.db.enrollments[e.id].nodeID == e.nodeID
    ensures var s' := Step(TRUSTING, s, 0, "", 0);
      && s'.ops == map[0 := Approving(e)]
      && s'.db == s.db.(enrollments := s.db.enrollments[e.id := e], byNode := s.db.byNode[e.nodeID := e.id])
  {
  }

  lemma ApprovedAlone(s: System, e: Enrollment)
    requires s.ops == map[0 := Finishing(e)] && e.nodeID != ""
    requires e.id in s.db.enrollments && s.db.enrollments[e.id].nodeID == e.nodeID
    ensures var s' := Step(TRUSTING, s, 0, "", 0);
      && s'.ops == map[]
      && s'.db == s.db.(enrollments := s.db.enrollments[e.id := e], byNode := s.db.byNode[e.nodeID := e.id])
  {
  }

  lemma ApprovingAlone(s: System, e: Enrollment)
    requires s.ops == map[0 := Approving(e)] && e.nodeID != ""
    requires e.id in s.db.enrollments && s.db.enrollments[e.id].nodeID == e.nodeID
    ensures var s' := Run(TRUSTING, s, seq(3, _ => Advance(0, "", 0)));
      && s'.ops == map[]
      && s'.db.enrollments == s.db.enrollments[e.id := e.(status := Approved)]
      && s'.db.byNode == s.db.byNode[e.nodeID := e.id]
      && s'.db.nodes.Keys == s.db.nodes.Keys + {e.nodeID}
  {
    var o, ev, approved := TRUSTING, Advance(0, "", 0), e.(status := Approved);
    var s2, last := ReachFinishing(s, e);
    ApprovedAlone(s2, approved);
    var s3 := Apply(o, s2, ev);
    if last == 1 {
      RunTrace(o, [s, s2, s3, Apply(o, s3, ev)], seq(3, _ => ev));
    } else {
      RunTrace(o, [s, Apply(o, s, ev), s2, s3], seq(3, _ => ev));
    }
  }

  // With its node in the inventory after one step or two.
  lemma ReachFinishing(s: System, e: Enrollment) returns (s': System, steps: nat)
    requires s.ops == map[0 := Approving(e)]
    ensures var ev := Advance(0, "", 0);
      s' == (if steps == 1 then Apply(TRUSTING, s, ev) else Apply(TRUSTING, Apply(TRUSTING, s, ev), ev))
    ensures s'.ops == map[0 := Finishing(e.(status := Approved))]
    ensures s'.db == s.db.(nodes := s'.db.nodes) && s'.db.nodes.Keys == s.db.nodes.Keys + {e.nodeID}
  {
    var ev := Advance(0, "", 0);
    var s1 := Apply(TRUSTING, s, ev);
    if e.nodeID in s.db.nodes {
      s', steps := s1, 1;
    } else {
      s', steps := Apply(TRUSTING, s1, ev), 2;
    }
  }

  // A record verified and adopted with nothing in between.
  function AdoptScript(id: string): seq<Event> {
    [BeginVerify(0, id, [], false), Advance(0, "", 0)] + seq(3, _ => Advance(0, "", 0))
  }

  lemma VerifyAlone(s: System, id: string) returns (s': System)
    requires id in s.db.enrollments && s.db.enrollments[id].id == id && s.db.enrollments[id].nodeID != ""
    requires s.ops == map[]
    ensures s' == Run(TRUSTING, s, [BeginVerify(0, id, [], false), Advance(0, "", 0)])
    ensures var e := s.db.enrollments[id].(status := PendingApproval);
      && s'.ops == map[0 := Approving(e)] && s'.db == D.UpdateEnrollment(s.db, e).value
  {
    var ev := [BeginVerify(0, id, [], false), Advance(0, "", 0)];
    var s1 := Apply(TRUSTING, s, ev[0]);
    s' := Apply(TRUSTING, s1, ev[1]);
    VerifiedAlone(s1, s.db.enrollments[id].(status := PendingApproval));
    RunTrace(TRUSTING, [s, s1, s'], ev);
  }

  lemma AdoptAlone(s: System, id: string)
    requires id in s.db.enrollments && s.db.enrollments[id].id == id && s.db.enrollments[id].nodeID != ""
    requires s.ops == map[]
    ensures var e, s' := s.db.enrollments[id], Run(TRUSTING, s, AdoptScript(id));
      && s'.ops == map[]
      && s'.db.enrollments == s.db.enrollments[id := e.(status := Approved)]
      && s'.db.byNode == s.db.byNode[e.nodeID := id]
      && s'.db.nodes.Keys == s.db.nodes.Keys + {e.nodeID}
  {
    var e := s.db.enrollments[id].(status := PendingApproval);
    var s2 := VerifyAlone(s, id);
    ApprovingAlone(s2, e);
    RunConcat(TRUSTING, s, [BeginVerify(0, id, [], false), Advance(0, "", 0)], seq(3, _ => Advance(0, "", 0)));
  }

  lemma DeleteStrands(s: System)
    requires s.db.enrollments.Keys == {"a", "b"} && s.db.byNode == map["n" := "b"] && "n" in s.db.nodes
    requires s.db.enrollments["a"].nodeID == "n" && s.db.enrollments["a"].status == Approved
    ensures !RecordsStocked(Run(TRUSTING, s, [NodeDeleted("n")]).db)
  {
    var after := Apply(TRUSTING, s, NodeDeleted("n"));
    assert after.db.enrollments["a"].status.Adopted() && "n" !in after.db.nodes;
    RunTrace(TRUSTING, [s, after], [NodeDeleted("n")]);
  }

  lemma AdoptBothThenDelete(s: System)
    requires s.ops == map[] && s.db.enrollments.Keys == {"a", "b"} && s.db.byNode == map["n" := "b"]
    requires s.db.enrollments["a"].id == "a" && s.db.enrollments["b"].id == "b"
    requires s.db.enrollments["a"].nodeID == "n" == s.db.enrollments["b"].nodeID
    ensures !RecordsStocked(Run(TRUSTING, s, AdoptScript("a") + AdoptScript("b") + [NodeDeleted("n")]).db)
  {
    AdoptAlone(s, "a");
    var s2 := Run(TRUSTING, s, AdoptScript("a"));
    AdoptAlone(s2, "b");
    DeleteStrands(Run(TRUSTING, s2, AdoptScript("b")));
    RunConcat(TRUSTING, s, AdoptScript("a"), AdoptScript("b"));
    RunConcat(TRUSTING, s, AdoptScript("a") + AdoptScript("b"), [NodeDeleted("n")]);
  }

  // Two requests of one node overlap, both records are verified and adopted,
  // and deleting the node removes only the indexed one: the other stays
  // approved with no node in the inventory.
  lemma DuplicateRequestsStrandARecord()
    ensures exists events :: !RecordsStocked(Run(TRUSTING, INIT, events).db)
  {
    var requests := OverlappingRequests();
    var rest := AdoptScript("a") + AdoptScript("b") + [NodeDeleted("n")];
    AdoptBothThenDelete(REQUESTED);
    RunConcat(TRUSTING, INIT, requests, rest);
  }

  // ----- a late write -----

  lemma {:induction false} AlwaysStockedTrace(o: Options, states: seq<System>, events: seq<Event>)
    requires |states| == |events| + 1
    requires forall i :: 0 <= i < |events| ==> states[i + 1] == Apply(o, states[i], events[i])
    requires forall i :: 0 <= i < |states| ==> RecordsStocked(states[i].db)
    ensures AlwaysStocked(o, states[0], events)
    decreases |events|
  {
    if events != [] {
      AlwaysStockedTrace(o, states[1..], events[1..]);
    }
  }

  lemma {:induction false} AlwaysStockedConcat(o: Options, s: System, a: seq<Event>, b: seq<Event>)
    requires AlwaysStocked(o, s, a) && AlwaysStocked(o, Run(o, s, a), b)
    ensures AlwaysStocked(o, s, a + b)
    decreases |a|
  {
    if a == [] {
      assert a + b == b;
    } else {
      assert (a + b)[1..] == a[1..] + b;
      AlwaysStockedConcat(o, Apply(o, s, a[0]), a[1..], b);
    }
  }

  const A_PENDING := Record("a", PendingApproval)
  const B_PENDING := Record("b", PendingApproval)
  const MEMBER := Node("n", "", "h", ["h"], 0)
  const SIGNED := {Presentation(KEY, Challenge(), [])}

  // The copy of a is about to be written as approved, its node deleted.
  const LATE := System(D.EMPTY.(enrollments := map["a" := A_PENDING]),
                       map[0 := A_APPROVED, 1 := Approving(B_PENDING)],
                       SIGNED, IDS, {"n"})

  const NODES := map["n" := MEMBER]
  const A_APPROVED := Finishing(Record("a", Approved))

  // The record a is verified and its node created.
  const STARTED := System(Both(PendingApproval, PendingVerification, "a", NODES), map[0 := A_APPROVED], SIGNED, IDS, {"n"})

  const A_VERIFYING := REQUESTED.(ops := map[0 := Verified(A_PENDING, true)], accepted := SIGNED)
  const A_APPROVING := System(Both(PendingApproval, PendingVerification, "a", map[]), map[0 := Approving(A_PENDING)], SIGNED, IDS, {})
  const A_INVENTORYING := A_APPROVING.(ops := map[0 := Inventorying(A_PENDING, MEMBER)])

  lemma FirstVerifies()
    ensures Apply(TRUSTING, REQUESTED, BeginVerify(0, "a", [], false)) == A_VERIFYING
    ensures Apply(TRUSTING, A_VERIFYING, Advance(0, "", 0)) == A_APPROVING
  {
    assert A_VERIFYING.db.enrollments["a" := A_PENDING] == A_APPROVING.db.enrollments;
    assert A_VERIFYING.db.byNode["n" := "a"] == A_APPROVING.db.byNode;
    assert D.UpdateEnrollment(A_VERIFYING.db, A_PENDING) == Ok(A_APPROVING.db);
  }

  lemma FirstIsInventoried()
    ensures Apply(TRUSTING, A_APPROVING, Advance(0, "", 0)) == A_INVENTORYING
    ensures Apply(TRUSTING, A_INVENTORYING, Advance(0, "", 0)) == STARTED
  {
  }

  lemma AdoptionStarted() returns (events: seq<Event>)
    ensures Run(TRUSTING, REQUESTED, events) == STARTED && AlwaysStocked(TRUSTING, REQUESTED, events)
  {
    var ev := Advance(0, "", 0);
    events := [BeginVerify(0, "a", [], false), ev, ev, ev];
    var states := [REQUESTED, A_VERIFYING, A_APPROVING, A_INVENTORYING, STARTED];
    FirstVerifies();
    FirstIsInventoried();
    RunTrace(TRUSTING, states, events);
    AlwaysStockedTrace(TRUSTING, states, events);
  }

  lemma DeletionLeavesA()
    ensures D.DeleteNode(Both(PendingApproval, PendingApproval, "b", NODES), "n")
         == Ok(D.EMPTY.(enrollments := map["a" := A_PENDING]))
  {
    var db := Both(PendingApproval, PendingApproval, "b", NODES);
    var after := D.DeleteNode(db, "n").value;
    assert after.nodes == map[] && after.byNode == map[];
    assert after.enrollments == map["a" := A_PENDING];
  }

  // Then b is verified, and the node deleted.
  const VERIFYING := STARTED.(ops := map[0 := A_APPROVED, 1 := Verified(B_PENDING, true)])
  const BOTH_VERIFIED := System(Both(PendingApproval, PendingApproval, "b", NODES), LATE.ops, SIGNED, IDS, {"n"})

  lemma SecondVerifies()
    ensures Apply(TRUSTING, STARTED, BeginVerify(1, "b", [], false)) == VERIFYING
    ensures Apply(TRUSTING, VERIFYING, Advance(1, "", 0)) == BOTH_VERIFIED
  {
    assert VERIFYING.db.enrollments["b" := B_PENDING] == BOTH_VERIFIED.db.enrollments;
    assert VERIFYING.db.byNode["n" := "b"] == BOTH_VERIFIED.db.byNode;
    assert D.UpdateEnrollment(VERIFYING.db, B_PENDING) == Ok(BOTH_VERIFIED.db);
    assert VERIFYING.ops[1 := Approving(B_PENDING)] == LATE.ops;
  }

  lemma AdoptionOvertaken() returns (events: seq<Event>)
    ensures Run(TRUSTING, STARTED, events) == LATE && AlwaysStocked(TRUSTING, STARTED, events)
  {
    events := [BeginVerify(1, "b", [], false), Advance(1, "", 0), NodeDeleted("n")];
    var states := [STARTED, VERIFYING, BOTH_VERIFIED, LATE];
    SecondVerifies();
    DeletionLeavesA();
    assert LATE == Apply(TRUSTING, BOTH_VERIFIED, NodeDeleted("n"));
    RunTrace(TRUSTING, states, events);
    AlwaysStockedTrace(TRUSTING, states, events);
  }

  lemma ReachLate() returns (events: seq<Event>)
    ensures Run(TRUSTING, INIT, events) == LATE && AlwaysStocked(TRUSTING, INIT, events)
  {
    var requests := OverlappingRequests();
    var started := AdoptionStarted();
    var overtaken := AdoptionOvertaken();
    RunConcat(TRUSTING, INIT, requests, started);
    AlwaysStockedConcat(TRUSTING, INIT, requests, started);
    RunConcat(TRUSTING, INIT, requests + started, overtaken);
    AlwaysStockedConcat(TRUSTING, INIT, requests + started, overtaken);
    events := requests + started + overtaken;
  }

  // The same two overlapping requests, and the promise holds in every state, the
  // deletion of the node included; then the copy of a, held since before, is
  // written back as approved.
  lemma LateWriteStrandsARecord()
    ensures exists events, last ::
      && AlwaysStocked(TRUSTING, INIT, events)
      && WritesStranded(Run(TRUSTING, INIT, events), last)
      && !RecordsStocked(Run(TRUSTING, INIT, events + [last]).db)
  {
    var events := ReachLate();
    var last := Advance(0, "", 0);
    RunSnoc(TRUSTING, INIT, events, last);
    assert Safe(TRUSTING, LATE) by { SafeRun(TRUSTING, INIT, events); }
    assert RecordsStocked(LATE.db) && WritesStranded(LATE, last);
    StepKeepsStockIff(TRUSTING, LATE, last);
  }
}
