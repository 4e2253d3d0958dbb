/** One delivery attempt of the sender, and the test Lab it talks to. */
module LabSender {
  import opened Wrappers
  import opened Runs
  import opened Outbox
  import P = OutboxProtocol

  datatype Reply =
    | Unreachable(timeout: bool)
    | Status(code: nat, ack: Option<set<Uuid>>)  // no ack: an oversized or malformed body

  /** Everything one attempt learns from outside: clock readings, statement failures, rows other
      transactions hold, the Lab's reply, and random draws. */
  datatype Exchange = Exchange(
    claimedAt: Time, claimOk: bool, locked: set<Uuid>,
    serializes: bool, reply: Reply,
    ackAt: Time, markOk: bool,
    backOffAt: Time, backOffOk: bool, random: map<Uuid, real>)

  datatype Reason = Db | Malformed | Timeout | Connect | Auth | BadStatus

  datatype Delivery =
    | Idle
    | Sent(delivered: nat, pending: nat)
    | Failed(reason: Reason, pending: nat)

  /** Why the whole batch failed, if it did. */
  function FailureOf(io: Exchange): Option<Reason> {
    if !io.serializes then Some(Malformed)
    else
      match io.reply
      case Unreachable(timeout) => Some(if timeout then Timeout else Connect)
      case Status(code, ack) =>
        if code == 401 then Some(Auth)
        else if code != 200 then Some(BadStatus)
        else if ack == None then Some(Malformed)
        else None
  }

  /** The ids of the batch the Lab acknowledged. */
  function Accepted(ids: set<Uuid>, io: Exchange): set<Uuid> {
    if FailureOf(io) == None then ids * io.reply.ack.value else {}
  }

  /** The outbox after an attempt that claimed `ids`. */
  function AfterAttempt(rows: Rows, ids: set<Uuid>, io: Exchange): Rows
    requires Draws(rows, io.random)
  {
    AfterSend(Leased(rows, ids, io.claimedAt + LEASE), ids, io)
  }

  /** What a claimed batch's exchange makes of the outbox. */
  function AfterSend(leased: Rows, ids: set<Uuid>, io: Exchange): Rows
    requires Draws(leased, io.random)
  {
    var done := Accepted(ids, io);
    var marked := if io.markOk then Marked(leased, done, io.ackAt) else leased;
    if io.backOffOk then Rescheduled(marked, ids - done, io.backOffAt, io.random) else marked
  }

  // ---------------------------------------------------------------- told by the exchange alone

  /** The batch was sent, the Lab answered 200 with a list, and `id` is on it. */
  predicate Listed(io: Exchange, id: Uuid) {
    && io.serializes && io.reply.Status? && io.reply.code == 200
    && io.reply.ack.Some? && id in io.reply.ack.value
  }

  /** What is reported of a batch `ids` that was not empty, for each way the exchange can go. */
  ghost predicate Reported(io: Exchange, ids: set<Uuid>, d: Delivery) {
    var answered := io.serializes && io.reply.Status?;
    && (d == Failed(Timeout, |ids|) <==> io.serializes && io.reply == Unreachable(true))
    && (d == Failed(Connect, |ids|) <==> io.serializes && io.reply == Unreachable(false))
    && (d == Failed(Auth, |ids|) <==> answered && io.reply.code == 401)
    && (d == Failed(BadStatus, |ids|) <==> answered && io.reply.code != 401 && io.reply.code != 200)
    && (d == Failed(Malformed, |ids|) <==> !io.serializes || io.reply == Status(200, None))
    && (d.Sent? <==> answered && io.reply.code == 200 && io.reply.ack.Some?)
    && (d.Sent? ==> d == Sent(|set id | id in ids && Listed(io, id)|, |set id | id in ids && !Listed(io, id)|))
  }

  /** What an attempt on the claimed rows `ids` does to a row. It is stamped exactly when it is claimed,
      listed in a 200 answer and the stamp goes through; it counts a failure exactly when it is
      claimed, not listed and the backoff goes through; a claimed row that does neither is left to
      its lease; no other row changes. */
  ghost predicate RowAttempted(io: Exchange, ids: set<Uuid>, id: Uuid, before: Row, after: Row) {
    var open := before.deliveredAt == None;
    && after.body == before.body && after.createdAt == before.createdAt
    && (id !in ids ==> after == before)
    && (!open ==> after.deliveredAt == before.deliveredAt && after.attempts == before.attempts)
    && (open ==> after.deliveredAt == if id in ids && Listed(io, id) && io.markOk then Some(io.ackAt) else None)
    && (open && id in ids && !Listed(io, id) && io.backOffOk ==> OnlyBackedOff(before, after, io.backOffAt))
    && (id in ids && (Listed(io, id) || !io.backOffOk) ==>
          after.attempts == before.attempts && after.nextAttempt == io.claimedAt + 30.0)
  }

  lemma ReasonExactly(io: Exchange)
    ensures FailureOf(io) == None <==> io.serializes && io.reply.Status? && io.reply.code == 200 && io.reply.ack.Some?
    ensures FailureOf(io) == Some(Timeout) <==> io.serializes && io.reply == Unreachable(true)
    ensures FailureOf(io) == Some(Connect) <==> io.serializes && io.reply == Unreachable(false)
    ensures FailureOf(io) == Some(Auth) <==> io.serializes && io.reply.Status? && io.reply.code == 401
    ensures FailureOf(io) == Some(BadStatus)
       <==> io.serializes && io.reply.Status? && io.reply.code != 401 && io.reply.code != 200
    ensures FailureOf(io) == Some(Malformed) <==> !io.serializes || io.reply == Status(200, None)
  {
  }

  lemma AcceptedIsListed(ids: set<Uuid>, io: Exchange)
    ensures Accepted(ids, io) == set id | id in ids && Listed(io, id)
    ensures ids - Accepted(ids, io) == set id | id in ids && !Listed(io, id)
  {
    ReasonExactly(io);
  }

  lemma AttemptExactly(rows: Rows, ids: set<Uuid>, io: Exchange, id: Uuid)
    requires Draws(rows, io.random) && id in rows
    ensures id in AfterAttempt(rows, ids, io) && RowAttempted(io, ids, id, rows[id], AfterAttempt(rows, ids, io)[id])
  {
    AcceptedIsListed(ids, io);
    var done := Accepted(ids, io);
    var leased := Leased(rows, ids, io.claimedAt + LEASE);
    var marked := if io.markOk then Marked(leased, done, io.ackAt) else leased;
    if Undelivered(marked, id) && id in ids - done {
      RescheduledSoon(marked, ids - done, io.backOffAt, io.random, id);
    }
  }

  lemma AttemptOnNothing(rows: Rows, io: Exchange)
    requires Draws(rows, io.random)
    ensures AfterAttempt(rows, {}, io) == rows == Leased(rows, {}, io.claimedAt + LEASE)
  {
  }

  lemma SendFailed(rows: Rows, ids: set<Uuid>, io: Exchange)
    requires Draws(rows, io.random) && FailureOf(io) != None
    ensures AfterSend(rows, ids, io) == if io.backOffOk then Rescheduled(rows, ids, io.backOffAt, io.random) else rows
  {
    NothingToMark(rows, io.ackAt);
    assert ids - {} == ids;
  }

  lemma NothingToMark(rows: Rows, now: Time)
    ensures Marked(rows, {}, now) == rows
  {
  }

  lemma NothingToReschedule(rows: Rows, now: Time, random: map<Uuid, real>)
    requires Draws(rows, random)
    ensures Rescheduled(rows, {}, now, random) == rows
  {
  }

  lemma AllAttempted(rows: Rows, ids: set<Uuid>, io: Exchange)
    requires Draws(rows, io.random)
    ensures var after := AfterAttempt(rows, ids, io);
            && after.Keys == rows.Keys
            && forall id :: id in rows ==> RowAttempted(io, ids, id, rows[id], after[id])
  {
    forall id | id in rows {
      AttemptExactly(rows, ids, io, id);
    }
  }

  class LabSender {
    const repo: LabEventRepo

    constructor (repo: LabEventRepo)
      ensures this.repo == repo
    {
      this.repo := repo;
    }

    /** Back the whole batch off. A failed statement changes nothing: the lease still expires. */
    method Fail(ids: set<Uuid>, reason: Reason, io: Exchange) returns (d: Delivery)
      requires Draws(repo.rows, io.random)
      modifies repo
      ensures repo.rows == if io.backOffOk then Rescheduled(old(repo.rows), ids, io.backOffAt, io.random)
                else old(repo.rows)
      ensures d == Failed(reason, |ids|)
    {
      if io.backOffOk {
        repo.Reschedule(ids, io.backOffAt, io.random);
      }
      d := Failed(reason, |ids|);
    }

    /** Mark what the Lab acknowledged and back the rest off. */
    method Settle(ids: set<Uuid>, io: Exchange) returns (d: Delivery)
      requires Draws(repo.rows, io.random) && FailureOf(io) == None
      modifies repo
      ensures repo.rows == AfterSend(old(repo.rows), ids, io)
      ensures d == Sent(|Accepted(ids, io)|, |ids - Accepted(ids, io)|)
    {
      var done := ids * io.reply.ack.value;
      var rest := ids - done;
      if io.markOk {
        var n := repo.MarkDelivered(done, io.ackAt);
      }
      NothingToReschedule(repo.rows, io.backOffAt, io.random);
      if rest != {} && io.backOffOk {
        repo.Reschedule(rest, io.backOffAt, io.random);
      }
      d := Sent(|done|, |rest|);
    }

    method DeliverOnce(io: Exchange) returns (d: Delivery, ghost ids: set<Uuid>)
      requires Draws(repo.rows, io.random)
      modifies repo
      ensures !io.claimOk ==> d == Failed(Db, 0) && repo.rows == old(repo.rows)
      ensures io.claimOk ==>
                && OldestDue(old(repo.rows), io.claimedAt, io.locked, BATCH_SIZE, ids) && |ids| <= 500
                && repo.rows == AfterAttempt(old(repo.rows), ids, io)
                && d == (if ids == {} then Idle
                         else if FailureOf(io) != None then Failed(FailureOf(io).value, |ids|)
                         else Sent(|Accepted(ids, io)|, |ids - Accepted(ids, io)|))
      ensures io.claimOk && ids != {} ==> Reported(io, ids, d)
      ensures io.claimOk ==> repo.rows.Keys == old(repo.rows).Keys
      ensures io.claimOk ==>
                forall id :: id in repo.rows ==> RowAttempted(io, ids, id, old(repo.rows)[id], repo.rows[id])
    {
      ReasonExactly(io);
      ids := {};
      if !io.claimOk {
        return Failed(Db, 0), ids;
      }
      var batch := repo.ClaimDue(BATCH_SIZE, LEASE, io.claimedAt, io.locked);
      var claimed := BatchIds(batch);
      ids := claimed;
      if batch == [] {
        AttemptOnNothing(old(repo.rows), io);
        AllAttempted(old(repo.rows), ids, io);
        return Idle, ids;
      }
      AllAttempted(old(repo.rows), ids, io);
      AcceptedIsListed(ids, io);
      assert batch[0].id in claimed;
      if FailureOf(io) != None {
        SendFailed(repo.rows, ids, io);
        d := Fail(claimed, FailureOf(io).value, io);
      } else {
        d := Settle(claimed, io);
      }
    }

    /** Hourly: old delivered rows go, then undelivered rows the Lab never acknowledged in 24 h.
        Each statement reads its own clock, and the second runs even when the first fails. */
    method Maintain(purgeOk: bool, purgedAt: Time, dropOk: bool, droppedAt: Time) returns (dropped: set<Uuid>)
      modifies repo
      ensures var purged := if purgeOk then Purged(old(repo.rows), purgedAt, RETENTION) else old(repo.rows);
              repo.rows == if dropOk then StaleDropped(purged, droppedAt, STALE_AFTER) else purged
      ensures dropped == UndeliveredIds(old(repo.rows)) - UndeliveredIds(repo.rows)
      ensures dropped == set id | id in old(repo.rows) && dropOk && old(repo.rows)[id].deliveredAt == None
                               && old(repo.rows)[id].createdAt < droppedAt - 86400.0
      ensures forall id :: id in old(repo.rows) && id !in repo.rows && id !in dropped ==>
                purgeOk && old(repo.rows)[id].deliveredAt.Some?
                    && old(repo.rows)[id].deliveredAt.value < purgedAt - 604800.0
    {
      if purgeOk {
        var n := repo.PurgeDelivered(RETENTION, purgedAt);
      }
      dropped := {};
      if dropOk {
        dropped := repo.DropStale(STALE_AFTER, droppedAt);
      }
    }
  }

  // ---------------------------------------------------------------- an attempt is a run

  /** An attempt that claims `ids` changes the outbox as a run of the protocol does in which this
      sender claims, hears from the Lab or not, marks and backs off. A failed statement is a step
      that fails. What the Lab acknowledges it stores. */
  lemma AttemptIsARun(w: P.World, s: P.SenderId, ids: set<Uuid>, io: Exchange)
      returns (acts: seq<P.Action>, w': P.World)
    requires P.At(w, s).Idle? && w.now == io.claimedAt <= io.ackAt <= io.backOffAt
    requires Draws(w.rows, io.random)
    requires 0 < |ids| <= BATCH_SIZE && forall id :: id in ids ==> Due(w.rows, w.now, id)
    ensures Leads(P.Step, w, acts, w') && P.At(w', s).Idle?
    ensures w'.rows == AfterAttempt(w.rows, ids, io)
    ensures w'.lab.Keys == w.lab.Keys + Accepted(ids, io)
  {
    var m: P.World;
    acts, m := UpToMark(w, s, ids, io);
    acts, w' := Finish(w, acts, m, s, ids - Accepted(ids, io), io);
  }

  /** Where claim, exchange and mark lead. */
  ghost predicate MarkedAt(w: P.World, m: P.World, s: P.SenderId, ids: set<Uuid>, io: Exchange) {
    var rest := ids - Accepted(ids, io);
    var leased := Leased(w.rows, ids, io.claimedAt + LEASE);
    && m.now == io.ackAt
    && P.At(m, s) == (if rest == {} then P.Idle else P.BackingOff(rest, w.now))
    && m.rows == (if io.markOk then Marked(leased, Accepted(ids, io), io.ackAt) else leased)
    && m.lab.Keys == w.lab.Keys + Accepted(ids, io)
  }

  lemma UpToMark(w: P.World, s: P.SenderId, ids: set<Uuid>, io: Exchange) returns (acts: seq<P.Action>, m: P.World)
    requires P.At(w, s).Idle? && w.now == io.claimedAt <= io.ackAt
    requires 0 < |ids| <= BATCH_SIZE && forall id :: id in ids ==> Due(w.rows, w.now, id)
    ensures Leads(P.Step, w, acts, m) && MarkedAt(w, m, s, ids, io)
  {
    acts, m := Further(P.Step, w, [], w, P.Claim(s, ids));
    if FailureOf(io) == None {
      acts, m := Answered(w, acts, s, ids, io);
    } else {
      acts, m := Unanswered(w, acts, s, ids, io);
    }
  }

  /** The last half: what is left is backed off. */
  lemma Finish(w: P.World, acts: seq<P.Action>, c: P.World, s: P.SenderId, rest: set<Uuid>, io: Exchange)
    returns (acts': seq<P.Action>, w': P.World)
    requires Leads(P.Step, w, acts, c) && c.now == io.ackAt <= io.backOffAt && Draws(c.rows, io.random)
    requires P.At(c, s) == if rest == {} then P.Idle else P.BackingOff(rest, w.now)
    ensures Leads(P.Step, w, acts', w') && P.At(w', s).Idle? && w'.lab == c.lab
    ensures w'.rows == if io.backOffOk then Rescheduled(c.rows, rest, io.backOffAt, io.random) else c.rows
  {
    if rest == {} {
      NothingToReschedule(c.rows, io.backOffAt, io.random);
      acts', w' := acts, c;
    } else {
      acts', w' := Further(P.Step, w, acts, c, P.Tick(io.backOffAt));
      acts', w' := Further(P.Step, w, acts', w', P.BackOff(s, io.backOffOk, io.random));
    }
  }

  /** The unacknowledged half: no usable reply arrives. */
  lemma Unanswered(w: P.World, acts: seq<P.Action>, s: P.SenderId, ids: set<Uuid>, io: Exchange)
    returns (acts': seq<P.Action>, w': P.World)
    requires P.At(w, s).Idle? && w.now == io.claimedAt <= io.ackAt && FailureOf(io) != None
    requires 0 < |ids| <= BATCH_SIZE && forall id :: id in ids ==> Due(w.rows, w.now, id)
    requires Leads(P.Step, w, acts, P.Do(w, P.Claim(s, ids)))
    ensures Leads(P.Step, w, acts', w') && MarkedAt(w, w', s, ids, io)
  {
    acts', w' := GivenUp(w, acts, s, ids, io);
    NothingToMark(w'.rows, io.ackAt);
    assert ids - {} == ids;
  }

  lemma GivenUp(w: P.World, acts: seq<P.Action>, s: P.SenderId, ids: set<Uuid>, io: Exchange)
    returns (acts': seq<P.Action>, w': P.World)
    requires P.At(w, s).Idle? && w.now == io.claimedAt <= io.ackAt
    requires 0 < |ids| <= BATCH_SIZE && forall id :: id in ids ==> Due(w.rows, w.now, id)
    requires Leads(P.Step, w, acts, P.Do(w, P.Claim(s, ids)))
    ensures Leads(P.Step, w, acts', w') && w'.now == io.ackAt && w'.lab == w.lab
    ensures P.At(w', s) == P.BackingOff(ids, w.now)
    ensures w'.rows == Leased(w.rows, ids, io.claimedAt + LEASE)
  {
    acts', w' := Further(P.Step, w, acts, P.Do(w, P.Claim(s, ids)), P.Tick(io.ackAt));
    assert P.At(w', s).batch.Keys == ids;
    acts', w' := Further(P.Step, w, acts', w', P.NoReply(s));
  }

  /** The acknowledged half: the Lab stores what it lists, the reply arrives, the rows are marked. */
  lemma Answered(w: P.World, acts: seq<P.Action>, s: P.SenderId, ids: set<Uuid>, io: Exchange)
    returns (acts': seq<P.Action>, w': P.World)
    requires P.At(w, s).Idle? && w.now == io.claimedAt <= io.ackAt && FailureOf(io) == None
    requires 0 < |ids| <= BATCH_SIZE && forall id :: id in ids ==> Due(w.rows, w.now, id)
    requires Leads(P.Step, w, acts, P.Do(w, P.Claim(s, ids)))
    ensures Leads(P.Step, w, acts', w') && MarkedAt(w, w', s, ids, io)
  {
    acts', w' := Replied(w, acts, s, ids, io);
    acts', w' := Further(P.Step, w, acts', w', P.Mark(s, io.markOk));
  }

  lemma Replied(w: P.World, acts: seq<P.Action>, s: P.SenderId, ids: set<Uuid>, io: Exchange)
    returns (acts': seq<P.Action>, w': P.World)
    requires P.At(w, s).Idle? && w.now == io.claimedAt <= io.ackAt && FailureOf(io) == None
    requires 0 < |ids| <= BATCH_SIZE && forall id :: id in ids ==> Due(w.rows, w.now, id)
    requires Leads(P.Step, w, acts, P.Do(w, P.Claim(s, ids)))
    ensures Leads(P.Step, w, acts', w') && w'.now == io.ackAt
    ensures P.At(w', s) == P.Marking(Accepted(ids, io), ids - Accepted(ids, io), w.now)
    ensures w'.rows == Leased(w.rows, ids, io.claimedAt + LEASE)
    ensures w'.lab.Keys == w.lab.Keys + Accepted(ids, io)
  {
    var c := P.Do(w, P.Claim(s, ids));
    var accepted := io.reply.ack.value;
    var p := P.At(c, s);
    assert p.batch.Keys == ids;
    acts', w' := Further(P.Step, w, acts, c, P.LabTakes(P.Request(p.ticket, p.batch), accepted, accepted));
    acts', w' := Further(P.Step, w, acts', w', P.Tick(io.ackAt));
    acts', w' := Further(P.Step, w, acts', w', P.Reply(s, P.Answer(p.ticket, accepted)));
    assert ids - accepted == ids - ids * accepted;
  }

  // ---------------------------------------------------------------- the receiving side

  datatype PostedEvent = PostedEvent(id: Uuid, body: Body, isV2: bool)

  function Bodies(events: seq<PostedEvent>): seq<(Uuid, Body)> {
    seq(|events|, k requires 0 <= k < |events| => (events[k].id, events[k].body))
  }

  const EVENTS_PATH := "/internal/events"

  lemma StoredNext(lab: map<Uuid, Body>, m: map<Uuid, Body>, id: Uuid, body: Body)
    ensures WithFirst(P.Stored(lab, m, m.Keys), id, body) == var n := WithFirst(m, id, body); P.Stored(lab, n, n.Keys)
  {
  }

  class FakeLab {
    var events: map<Uuid, Body>

    constructor ()
      ensures events == map[]
    {
      events := map[];
    }

    /** Store once by id, acknowledge every id. */
    method StoreAll(b: seq<PostedEvent>) returns (accepted: seq<Uuid>)
      modifies this
      ensures events == P.Stored(old(events), FirstBodies(Bodies(b)), events.Keys)
      ensures |accepted| == |b|
      ensures forall k :: 0 <= k < |accepted| ==> accepted[k] == b[k].id && accepted[k] in events
    {
      accepted := [];
      ghost var bodies := Bodies(b);
      for k := 0 to |b|
        invariant |accepted| == k
        invariant forall j :: 0 <= j < k ==> accepted[j] == b[j].id && accepted[j] in events
        invariant events == P.Stored(old(events), FirstBodies(bodies[..k]), FirstBodies(bodies[..k]).Keys)
      {
        FirstBodiesNext(bodies, k);
        StoredNext(old(events), FirstBodies(bodies[..k]), b[k].id, b[k].body);
        if b[k].id !in events {
          events := events[b[k].id := b[k].body];
        }
        accepted := accepted + [b[k].id];
      }
      assert bodies[..|b|] == bodies;
    }

    /** `hasLength` tells whether the length header is a number, `signed` covers the instance id,
        the timestamp and the signature, and `batch` is the parsed body. Stores each event once by id
        and acknowledges every id, or rejects the batch whole. */
    method DoPost(hasLength: bool, path: string, signed: bool, batch: Option<seq<PostedEvent>>)
      returns (status: nat, accepted: seq<Uuid>)
      modifies this
      ensures status in {200, 400, 401, 404}
      ensures status == 404 <==> hasLength && path != EVENTS_PATH
      ensures status == 401 <==> hasLength && path == EVENTS_PATH && !signed
      ensures status == 200 <==>
                hasLength && path == EVENTS_PATH && signed && batch.Some? && forall e :: e in batch.value ==> e.isV2
      ensures status != 200 ==> events == old(events) && accepted == []
      ensures status == 200 ==>
                && events == P.Stored(old(events), FirstBodies(Bodies(batch.value)), events.Keys)
                && |accepted| == |batch.value|
                && (forall k :: 0 <= k < |accepted| ==> accepted[k] == batch.value[k].id)
                && Elements(accepted) <= events.Keys
    {
      accepted := [];
      if !hasLength {
        return 400, [];
      }
      if path != EVENTS_PATH {
        return 404, [];
      }
      if !signed {
        return 401, [];
      }
      if batch == None {
        return 400, [];
      }
      var b := batch.value;
      for k := 0 to |b|
        invariant forall j :: 0 <= j < k ==> b[j].isV2
      {
        if !b[k].isV2 {
          return 400, [];
        }
      }
      accepted := StoreAll(b);
      status := 200;
    }
  }
}
