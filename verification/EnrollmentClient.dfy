/**
 The node side of enrollment (internal/client/client.go): a lifecycle state
 machine driven by one exchange with the controller. What the network answers is
 an input; the controller's side of it is in EnrollmentService.dfy.
 */
module EnrollmentClient {
  import opened Wrappers
  import opened Models
  import opened EnrollmentService
  import D = Database
  import P = EnrollmentProtocol
  import R = EnrollmentReplies

  datatype State = Unclaimed | Enrolling | Waiting | Joined | Failed

  datatype Trigger = Enroll | Pending | Approve | Fail

  // The permitted transitions; Joined and Failed are final.
  function Permitted(state: State, trigger: Trigger): Option<State> {
    match (state, trigger)
    case (Unclaimed, Enroll) => Some(Enrolling)
    case (Unclaimed, Fail) => Some(Failed)
    case (Enrolling, Pending) => Some(Waiting)
    case (Enrolling, Approve) => Some(Joined)
    case (Enrolling, Fail) => Some(Failed)
    case (Waiting, Approve) => Some(Joined)
    case (Waiting, Fail) => Some(Failed)
    case _ => None
  }

  // A call over the network: an answer, or any failure.
  datatype Answer<+T> = Answered(value: T) | Broken

  // What the controller and the local key answer in one exchange. The polls end
  // where the caller's deadline does.
  datatype Exchange = Exchange(request: Answer<Ticket>, signed: bool, verify: Answer<Reply>,
                               polls: seq<Answer<Reply>>, ack: Answer<Reply>)

  predicate Undecided(a: Answer<Reply>) {
    a.Answered? && !a.value.status.Adopted() && a.value.status != Rejected
  }

  predicate Adopts(a: Answer<Reply>) {
    a.Answered? && a.value.status.Adopted()
  }

  // Some poll reports the adoption, and none before it ends the wait.
  ghost predicate AdoptedWhileWaiting(polls: seq<Answer<Reply>>) {
    exists i :: 0 <= i < |polls| && Adopts(polls[i]) && forall j :: 0 <= j < i ==> Undecided(polls[j])
  }

  ghost predicate Accepted(x: Exchange) {
    && x.request.Answered? && x.signed
    && (Adopts(x.verify)
        || (x.verify.Answered? && x.verify.value.status == PendingApproval && AdoptedWhileWaiting(x.polls)))
    && x.ack.Answered?
  }

  datatype ClientError = Refused | RequestFailed | SigningFailed | VerifyFailed | PollFailed | Expired
                       | UnexpectedStatus(status: EnrollmentStatus) | AckFailed | IllegalTransition

  class Client {
    var state: State

    constructor ()
      ensures state == Unclaimed
    {
      state := Unclaimed;
    }

    method Fire(trigger: Trigger) returns (ok: bool)
      modifies this
      ensures ok <==> Permitted(old(state), trigger).Some?
      ensures state == if ok then Permitted(old(state), trigger).value else old(state)
    {
      var next := Permitted(state, trigger);
      ok := next.Some?;
      if ok {
        state := next.value;
      }
    }

    // The whole exchange. A fresh client ends Joined or Failed; a client that
    // was already final stays as it is.
    method Enroll(x: Exchange) returns (r: Result<Reply, ClientError>)
      modifies this
      ensures old(state) == Unclaimed ==>
                && (r.Ok? <==> Accepted(x))
                && state == (if Accepted(x) then Joined else Failed)
                && (r.Ok? ==> r.value == x.ack.value)
      ensures old(state) in {Joined, Failed} ==> state == old(state) && r == Err(IllegalTransition)
    {
      r := Exchanged(x);
      if r.Err? {
        var _ := Fire(Fail);
      }
    }

    method Exchanged(x: Exchange) returns (r: Result<Reply, ClientError>)
      modifies this
      ensures old(state) != Unclaimed ==> state == old(state) && r == Err(IllegalTransition)
      ensures old(state) == Unclaimed ==>
                && (r.Ok? <==> Accepted(x))
                && (r.Ok? ==> state == Joined && r.value == x.ack.value)
                && (r.Err? ==> state in {Enrolling, Waiting})
    {
      var ok := Fire(Trigger.Enroll);
      if !ok {
        return Err(IllegalTransition);
      }
      if x.request.Broken? {
        return Err(RequestFailed);
      }
      if !x.signed {
        return Err(SigningFailed);
      }
      if x.verify.Broken? {
        return Err(VerifyFailed);
      }
      var result := x.verify.value;
      if result.status == PendingApproval {
        ok := Fire(Pending);
        var waited := WaitForApproval(x.polls);
        if waited.Err? {
          return waited;
        }
        result := waited.value;
      }
      if result.status != Approved && result.status != Active {
        return Err(UnexpectedStatus(result.status));
      }
      if x.ack.Broken? {
        return Err(AckFailed);
      }
      ok := Fire(Approve);
      r := Ok(x.ack.value);
    }

    method WaitForApproval(polls: seq<Answer<Reply>>) returns (r: Result<Reply, ClientError>)
      ensures r.Ok? <==> AdoptedWhileWaiting(polls)
      ensures r.Ok? ==> r.value.status in {Approved, Active}
    {
      for i := 0 to |polls|
        invariant forall j :: 0 <= j < i ==> Undecided(polls[j])
      {
        if polls[i].Broken? {
          return Err(PollFailed);
        }
        var result := polls[i].value;
        if result.status == Approved || result.status == Active {
          return Ok(result);
        }
        if result.status == Rejected {
          return Err(Refused);
        }
      }
      r := Err(Expired);
    }
  }

  // ----- an exchange inside a run of the controller -----

  // Where in the controller's run this client's calls begin, or its polls read.
  datatype Session = Session(input: P.RequestInput, requestAt: nat, requestTid: nat, challenge: Bytes,
                             verifyAt: nat, verifyTid: nat, signature: Bytes, onLink: bool, pollsAt: seq<nat>)

  function After(o: P.Options, events: seq<P.Event>, k: nat): P.System {
    P.Run(o, P.INIT, if k <= |events| then events[..k] else events)
  }

  // The answer to the operation that begins as event k, whatever else the
  // controller is doing.
  function AnswerTo(o: P.Options, events: seq<P.Event>, k: nat, tid: nat): Option<R.Out>
    requires k < |events|
  {
    if tid in After(o, events, k).ops then None else R.Outcome(o, After(o, events, k + 1), tid, events[k + 1..])
  }

  // The ticket is the controller's answer to this client's request,
  ghost predicate TicketIs(o: P.Options, events: seq<P.Event>, c: Session, t: Ticket) {
    && c.requestAt < |events|
    && events[c.requestAt] == P.BeginRequest(c.requestTid, c.input, c.challenge)
    && AnswerTo(o, events, c.requestAt, c.requestTid) == Some(R.Ticketed(t.enrollmentID, t.challenge))
  }

  // a reply to its verification is the answer to that, for the ticket's record,
  ghost predicate VerifyIs(o: P.Options, events: seq<P.Event>, c: Session, id: string, r: Reply) {
    && c.verifyAt < |events|
    && events[c.verifyAt] == P.BeginVerify(c.verifyTid, id, c.signature, c.onLink)
    && exists about :: AnswerTo(o, events, c.verifyAt, c.verifyTid) == Some(R.Replied(about, r.status, r.homeID))
  }

  // and a reply to a poll is what the record looked like then.
  ghost predicate PollIs(o: P.Options, events: seq<P.Event>, k: nat, id: string, r: Reply) {
    exists about :: R.Look(After(o, events, k), id) == R.Replied(about, r.status, r.homeID)
  }

  // The exchange is one the client has with the controller in this run.
  ghost predicate Plays(o: P.Options, events: seq<P.Event>, c: Session, x: Exchange) {
    && |c.pollsAt| == |x.polls|
    && (x.request.Answered? ==>
          var t := x.request.value;
          && TicketIs(o, events, c, t)
          && (x.verify.Answered? ==> VerifyIs(o, events, c, t.enrollmentID, x.verify.value))
          && (forall i :: 0 <= i < |x.polls| && x.polls[i].Answered? ==>
                PollIs(o, events, c.pollsAt[i], t.enrollmentID, x.polls[i].value)))
  }

  lemma AfterIsSafe(o: P.Options, events: seq<P.Event>, k: nat)
    ensures P.Safe(o, After(o, events, k))
  {
    P.EveryRunIsSafe(o, []);
    P.SafeRun(o, P.INIT, if k <= |events| then events[..k] else events);
  }

  lemma AfterNext(o: P.Options, events: seq<P.Event>, k: nat)
    requires k < |events|
    ensures After(o, events, k + 1) == P.Apply(o, After(o, events, k), events[k])
  {
    assert events[..k + 1] == events[..k] + [events[k]];
    P.RunSnoc(o, P.INIT, events[..k], events[k]);
  }

  lemma AfterMore(o: P.Options, events: seq<P.Event>, k: nat, j: nat)
    requires k <= |events| && j <= |events| - k
    ensures P.Run(o, After(o, events, k), events[k..][..j]) == After(o, events, k + j)
  {
    assert events[..k + j] == events[..k] + events[k..][..j];
    P.RunConcat(o, P.INIT, events[..k], events[k..][..j]);
  }

  lemma AfterAll(o: P.Options, events: seq<P.Event>, k: nat)
    requires k <= |events|
    ensures P.Run(o, After(o, events, k), events[k..]) == P.Run(o, P.INIT, events)
  {
    assert events == events[..k] + events[k..];
    P.RunConcat(o, P.INIT, events[..k], events[k..]);
  }

  // The ticket's id was issued for the node that this client presented,
  lemma TicketIsMine(o: P.Options, events: seq<P.Event>, c: Session, t: Ticket)
    requires TicketIs(o, events, c, t)
    ensures t.enrollmentID in P.Run(o, P.INIT, events).issued
    ensures P.Run(o, P.INIT, events).issued[t.enrollmentID] == c.input.nodeID
  {
    var k := c.requestAt;
    AfterNext(o, events, k);
    AfterIsSafe(o, events, k + 1);
    R.TicketIsIssued(o, After(o, events, k + 1), c.requestTid, events[k + 1..], c.input);
    AfterAll(o, events, k + 1);
  }

  // so the record under that id is that node's at every moment it is stored.
  lemma RecordIsMine(o: P.Options, events: seq<P.Event>, c: Session, t: Ticket, k: nat)
    requires TicketIs(o, events, c, t) && k <= |events| && t.enrollmentID in After(o, events, k).db.enrollments
    ensures var e := After(o, events, k).db.enrollments[t.enrollmentID];
      e.nodeID == c.input.nodeID == o.crypto.hash(e.publicKey)
  {
    TicketIsMine(o, events, c, t);
    AfterIsSafe(o, events, k);
    var s := After(o, events, k);
    assert P.Genuine(o, s, s.db.enrollments[t.enrollmentID]);
    R.IssuedGrowRun(o, s, events[k..]);
    AfterAll(o, events, k);
  }

  lemma VerifyUnderWay(o: P.Options, events: seq<P.Event>, c: Session, id: string, r: Reply)
    requires VerifyIs(o, events, c, id, r)
    ensures var s := After(o, events, c.verifyAt + 1);
      P.Safe(o, s) && c.verifyTid in s.ops && R.Verifies(s.ops[c.verifyTid], id)
  {
    var k := c.verifyAt;
    AfterNext(o, events, k);
    AfterIsSafe(o, events, k);
    R.VerifyBegins(o, After(o, events, k), c.verifyTid, id, c.signature, c.onLink);
  }

  lemma VerifyReports(o: P.Options, events: seq<P.Event>, c: Session, id: string, r: Reply) returns (m: nat)
    requires VerifyIs(o, events, c, id, r)
    ensures m <= |events| && id in After(o, events, m).db.enrollments
    ensures After(o, events, m).db.enrollments[id].status == r.status
  {
    var k := c.verifyAt;
    VerifyUnderWay(o, events, c, id, r);
    var j := R.VerifyReplyIsStored(o, After(o, events, k + 1), c.verifyTid, events[k + 1..], id);
    AfterMore(o, events, k + 1, j);
    m := k + 1 + j;
  }

  lemma PollReports(o: P.Options, events: seq<P.Event>, k: nat, id: string, r: Reply) returns (m: nat)
    requires PollIs(o, events, k, id, r)
    ensures m <= |events| && id in After(o, events, m).db.enrollments
    ensures After(o, events, m).db.enrollments[id].status == r.status
  {
    AfterIsSafe(o, events, k);
    R.LooksAreStored(o, After(o, events, k), id);
    m := if k <= |events| then k else |events|;
    assert events[..|events|] == events;
  }

  // Main result. A client that becomes active was adopted: at some moment of the
  // controller's run the record its ticket names was approved or active, for the
  // node the client presented. What the acknowledgement answers plays no part.
  lemma JoinedMeansAdopted(o: P.Options, events: seq<P.Event>, c: Session, x: Exchange) returns (m: nat)
    requires Accepted(x) && Plays(o, events, c, x)
    ensures m <= |events| && x.request.value.enrollmentID in After(o, events, m).db.enrollments
    ensures var e := After(o, events, m).db.enrollments[x.request.value.enrollmentID];
      e.status in {Approved, Active} && e.nodeID == c.input.nodeID == o.crypto.hash(e.publicKey)
    ensures forall other :: Accepted(x.(ack := Answered(other)))
  {
    var t := x.request.value;
    if Adopts(x.verify) {
      m := VerifyReports(o, events, c, t.enrollmentID, x.verify.value);
    } else {
      var i :| 0 <= i < |x.polls| && Adopts(x.polls[i]);
      m := PollReports(o, events, c.pollsAt[i], t.enrollmentID, x.polls[i].value);
    }
    RecordIsMine(o, events, c, t, m);
  }

  // And a signature had been accepted for exactly the key and challenge on that
  // record.
  lemma JoinedHasSigned(o: P.Options, events: seq<P.Event>, c: Session, x: Exchange)
    requires Accepted(x) && Plays(o, events, c, x)
    ensures exists m: nat, signature ::
              m <= |events| && SignedFor(o, After(o, events, m), x.request.value.enrollmentID, c.input.nodeID, signature)
  {
    var m := JoinedMeansAdopted(o, events, c, x);
    var s := After(o, events, m);
    var e := s.db.enrollments[x.request.value.enrollmentID];
    P.EveryRunIsSafe(o, events[..m]);
    var signature :| P.Presentation(e.publicKey, e.challenge, signature) in s.accepted
                  && o.crypto.check(e.publicKey, e.challenge, signature) == Some(true);
    assert SignedFor(o, s, x.request.value.enrollmentID, c.input.nodeID, signature);
  }

  ghost predicate SignedFor(o: P.Options, s: P.System, id: string, nodeID: string, signature: Bytes) {
    && id in s.db.enrollments
    && var e := s.db.enrollments[id];
       && e.status in {Approved, Active} && e.nodeID == nodeID == o.crypto.hash(e.publicKey)
       && P.Presentation(e.publicKey, e.challenge, signature) in s.accepted
       && o.crypto.check(e.publicKey, e.challenge, signature) == Some(true)
  }

  // A rejection seen first is final: no later poll can bring the client in.
  lemma RejectionIsFinal(x: Exchange, i: nat)
    requires i < |x.polls| && x.polls[i].Answered? && x.polls[i].value.status == Rejected
    requires forall j :: 0 <= j < i ==> !Adopts(x.polls[j])
    requires !Adopts(x.verify)
    ensures !Accepted(x)
  {
    forall k | 0 <= k < |x.polls| && Adopts(x.polls[k]) ensures exists j :: 0 <= j < k && !Undecided(x.polls[j]) {
      assert k > i && !Undecided(x.polls[i]);
    }
  }
}
