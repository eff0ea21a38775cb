/**
 What the controller answers over a run of the enrollment protocol
 (internal/enrollment/enrollment.go): the ticket or reply each operation ends
 with, however many others run in between, and what the store held when it was
 given.
 */
module EnrollmentReplies {
  import opened Wrappers
  import opened Models
  import opened EnrollmentProtocol
  import D = Database

  datatype Out =
    | Ticketed(id: string, challenge: Bytes)
    | Replied(id: string, status: EnrollmentStatus, homeID: string)
    | Refused

  function Report(e: Enrollment): Out {
    Replied(e.id, e.status, e.homeID)
  }

  // The answer that the next transaction of an operation ends it with.
  function Ends(s: System, op: Op): Option<Out> {
    match op
    case Creating(e) => Some(Ticketed(e.id, e.challenge))
    case Reissuing(e) => Some(if e.id in s.db.enrollments then Ticketed(e.id, e.challenge) else Refused)
    case Verified(e, adopt) =>
      if e.id !in s.db.enrollments then Some(Refused) else if adopt then None else Some(Report(e))
    case Finishing(e) => Some(if e.id in s.db.enrollments then Report(e) else Refused)
    case Rejecting(e) => Some(if e.id in s.db.enrollments then Report(e) else Refused)
    case Acking(e) => Some(if e.id in s.db.enrollments then Report(e) else Refused)
    case _ => None
  }

  // The answer an event gives to the caller of operation tid. An acknowledgement
  // of a record that is not approved is answered at once.
  function Answer(s: System, ev: Event, tid: nat): Option<Out> {
    if ev.Advance? && ev.tid == tid && tid in s.ops then Ends(s, s.ops[tid])
    else if ev.BeginAck? && ev.tid == tid && tid !in s.ops then
      match Look(s, ev.id)
      case Replied(id, status, homeID) => if status != Approved then Some(Replied(id, status, homeID)) else None
      case _ => Some(Refused)
    else None
  }

  // A poll reads the record in one transaction.
  function Look(s: System, id: string): Out {
    match D.GetEnrollment(s.db, id)
    case Ok(e) => Report(e)
    case Err(_) => Refused
  }

  // The record id as a reply reports it is the one stored.
  predicate Stores(s: System, out: Out) {
    out.Replied? ==>
      && out.id in s.db.enrollments
      && s.db.enrollments[out.id].status == out.status && s.db.enrollments[out.id].homeID == out.homeID
  }

  // Main result. Every reply, in every reachable state, reports the record as it
  // is stored the moment it is given, stale as the operation's copy may have been.
  lemma RepliesAreStored(o: Options, s: System, ev: Event, tid: nat)
    requires Safe(o, s) && Answer(s, ev, tid).Some?
    ensures Stores(Apply(o, s, ev), Answer(s, ev, tid).value)
  {
    if ev.Advance? {
      assert Sane(o, s, s.ops[tid]);
    }
  }

  lemma LooksAreStored(o: Options, s: System, id: string)
    requires Safe(o, s)
    ensures Stores(s, Look(s, id)) && (Look(s, id).Replied? ==> Look(s, id).id == id)
  {
  }

  // The answer to the caller of the operation tid in flight, once it comes.
  function Outcome(o: Options, s: System, tid: nat, events: seq<Event>): Option<Out>
    decreases |events|
  {
    if events == [] || tid !in s.ops then None
    else if Answer(s, events[0], tid).Some? then Answer(s, events[0], tid)
    else Outcome(o, Apply(o, s, events[0]), tid, events[1..])
  }

  // ----- whose record a ticket names -----

  lemma IssuedGrow(o: Options, s: System, ev: Event)
    ensures forall id :: id in s.issued ==> id in Apply(o, s, ev).issued && Apply(o, s, ev).issued[id] == s.issued[id]
  {
  }

  lemma {:induction false} IssuedGrowRun(o: Options, s: System, events: seq<Event>)
    ensures forall id :: id in s.issued ==> id in Run(o, s, events).issued && Run(o, s, events).issued[id] == s.issued[id]
    decreases |events|
  {
    if events != [] {
      IssuedGrow(o, s, events[0]);
      IssuedGrowRun(o, Apply(o, s, events[0]), events[1..]);
    }
  }

  // An operation that serves this request.
  predicate Serves(op: Op, input: RequestInput) {
    match op
    case Requesting(i, challenge) => i == input
    case Creating(e) => e.nodeID == input.nodeID && e.publicKey == input.publicKey
    case Reissuing(e) => e.nodeID == input.nodeID && e.publicKey == input.publicKey
    case _ => false
  }

  // An operation changes only when it advances.
  lemma OpStays(o: Options, s: System, tid: nat, ev: Event)
    requires tid in s.ops && !(ev.Advance? && ev.tid == tid)
    ensures tid in Apply(o, s, ev).ops ==> Apply(o, s, ev).ops[tid] == s.ops[tid]
    ensures Answer(s, ev, tid).None?
  {
  }

  lemma ServesNext(o: Options, s: System, tid: nat, newID: string, now: int, input: RequestInput)
    requires D.IndexSound(s.db) && tid in s.ops && Serves(s.ops[tid], input) && Sane(o, s, s.ops[tid])
    ensures tid in Step(o, s, tid, newID, now).ops ==> Serves(Step(o, s, tid, newID, now).ops[tid], input)
    ensures Ends(s, s.ops[tid]).Some? && Ends(s, s.ops[tid]).value.Ticketed? ==>
              var id := Ends(s, s.ops[tid]).value.id; id in s.issued && s.issued[id] == input.nodeID
  {
  }

  lemma ServesOn(o: Options, s: System, tid: nat, ev: Event, input: RequestInput)
    requires Safe(o, s) && tid in s.ops && Serves(s.ops[tid], input)
    ensures tid in Apply(o, s, ev).ops ==> Serves(Apply(o, s, ev).ops[tid], input)
    ensures Answer(s, ev, tid).Some? && Answer(s, ev, tid).value.Ticketed? ==>
              var id := Answer(s, ev, tid).value.id; id in s.issued && s.issued[id] == input.nodeID
  {
    if ev.Advance? && ev.tid == tid {
      ServesNext(o, s, tid, ev.newID, ev.now, input);
    } else {
      OpStays(o, s, tid, ev);
    }
  }

  // A ticket names an id that was issued for the node that asked.
  lemma {:induction false} TicketIsIssued(o: Options, s: System, tid: nat, events: seq<Event>, input: RequestInput)
    requires Safe(o, s) && tid in s.ops && Serves(s.ops[tid], input)
    requires Outcome(o, s, tid, events).Some? && Outcome(o, s, tid, events).value.Ticketed?
    ensures var id, end := Outcome(o, s, tid, events).value.id, Run(o, s, events);
      id in end.issued && end.issued[id] == input.nodeID
    decreases |events|
  {
    ServesOn(o, s, tid, events[0], input);
    if Answer(s, events[0], tid).Some? {
      IssuedGrowRun(o, s, events);
    } else {
      SafeApply(o, s, events[0]);
      TicketIsIssued(o, Apply(o, s, events[0]), tid, events[1..], input);
    }
  }

  // ----- what a verification answers -----

  // An operation that carries on the verification of this record.
  predicate Verifies(op: Op, id: string) {
    (op.Verified? || op.Approving? || op.Inventorying? || op.Finishing?) && op.e.id == id
  }

  lemma VerifyBegins(o: Options, s: System, tid: nat, id: string, signature: Bytes, onLink: bool)
    requires Safe(o, s) && tid !in s.ops
    ensures var s' := Apply(o, s, BeginVerify(tid, id, signature, onLink));
      Safe(o, s') && (tid in s'.ops ==> Verifies(s'.ops[tid], id))
  {
    SafeApply(o, s, BeginVerify(tid, id, signature, onLink));
  }

  lemma VerifiesNext(o: Options, s: System, tid: nat, newID: string, now: int, id: string)
    requires tid in s.ops && Verifies(s.ops[tid], id)
    ensures tid in Step(o, s, tid, newID, now).ops ==> Verifies(Step(o, s, tid, newID, now).ops[tid], id)
    ensures Ends(s, s.ops[tid]).Some? && Ends(s, s.ops[tid]).value.Replied? ==> Ends(s, s.ops[tid]).value.id == id
  {
  }

  lemma VerifiesOn(o: Options, s: System, tid: nat, ev: Event, id: string)
    requires tid in s.ops && Verifies(s.ops[tid], id)
    ensures tid in Apply(o, s, ev).ops ==> Verifies(Apply(o, s, ev).ops[tid], id)
    ensures Answer(s, ev, tid).Some? && Answer(s, ev, tid).value.Replied? ==> Answer(s, ev, tid).value.id == id
  {
    if ev.Advance? && ev.tid == tid {
      VerifiesNext(o, s, tid, ev.newID, ev.now, id);
    } else {
      OpStays(o, s, tid, ev);
    }
  }

  lemma PrefixOfTail<T>(xs: seq<T>, k: nat)
    requires k < |xs|
    ensures xs[..k + 1][0] == xs[0] && xs[..k + 1][1..] == xs[1..][..k]
  {
  }

  // A verify reply is about the record verified, and reports it as it is stored
  // after some of the events.
  lemma {:induction false} VerifyReplyIsStored(o: Options, s: System, tid: nat, events: seq<Event>, id: string)
    returns (k: nat)
    requires Safe(o, s) && tid in s.ops && Verifies(s.ops[tid], id)
    requires Outcome(o, s, tid, events).Some? && Outcome(o, s, tid, events).value.Replied?
    ensures k <= |events| && Outcome(o, s, tid, events).value.id == id
    ensures Stores(Run(o, s, events[..k]), Outcome(o, s, tid, events).value)
    decreases |events|
  {
    var s' := Apply(o, s, events[0]);
    VerifiesOn(o, s, tid, events[0], id);
    if Answer(s, events[0], tid).Some? {
      RepliesAreStored(o, s, events[0], tid);
      RunTrace(o, [s, s'], events[..1]);
      k := 1;
    } else {
      SafeApply(o, s, events[0]);
      k := VerifyReplyIsStored(o, s', tid, events[1..], id);
      PrefixOfTail(events, k);
      k := k + 1;
    }
  }
}
