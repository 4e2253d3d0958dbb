/** The outbox table of Lab billing events, and the statements that run on it. Times are
    seconds; each statement is atomic and reads the clock once. */
module Outbox {
  import opened Wrappers

  type Uuid = nat
  type Body = string
  type Time = real

  const BATCH_SIZE: nat := 500
  const LEASE: Time := 30.0
  const RETENTION: Time := 604800.0
  const STALE_AFTER: Time := 86400.0

  datatype Row = Row(body: Body, createdAt: Time, attempts: nat, nextAttempt: Time, deliveredAt: Option<Time>)

  type Rows = map<Uuid, Row>

  datatype PendingEvent = PendingEvent(id: Uuid, body: Body, attempts: nat)

  // ---------------------------------------------------------------- the statements, on values

  predicate Undelivered(rows: Rows, id: Uuid) {
    id in rows && rows[id].deliveredAt == None
  }

  predicate Due(rows: Rows, now: Time, id: Uuid) {
    Undelivered(rows, id) && rows[id].nextAttempt <= now
  }

  function NewRow(body: Body, now: Time): Row {
    Row(body, now, 0, now, None)
  }

  function Inserted(rows: Rows, id: Uuid, body: Body, now: Time): Rows {
    if id in rows then rows else rows[id := NewRow(body, now)]
  }

  function Leased(rows: Rows, ids: set<Uuid>, until: Time): Rows {
    map id | id in rows :: if id in ids then rows[id].(nextAttempt := until) else rows[id]
  }

  function Marked(rows: Rows, ids: set<Uuid>, now: Time): Rows {
    map id | id in rows ::
      if id in ids && rows[id].deliveredAt == None then rows[id].(deliveredAt := Some(now)) else rows[id]
  }

  /** Two to the power of the failure count, the exponent clamped at 9, at most 300 s. */
  function Backoff(attempts: nat): Time {
    var p := Power2(if attempts < 9 then attempts else 9);
    if p < 300 then p as real else 300.0
  }

  function Power2(n: nat): nat {
    if n == 0 then 1 else 2 * Power2(n - 1)
  }

  /** `random` is drawn per row from [0, 1). */
  function Rescheduled(rows: Rows, ids: set<Uuid>, now: Time, random: map<Uuid, real>): Rows
    requires Draws(rows, random)
  {
    map id | id in rows ::
      if id in ids && rows[id].deliveredAt == None then
        rows[id].(attempts := rows[id].attempts + 1,
                  nextAttempt := now + Backoff(rows[id].attempts + 1) * (0.8 + random[id] * 0.4))
      else rows[id]
  }

  predicate Draws(rows: Rows, random: map<Uuid, real>) {
    forall id :: id in rows ==> id in random && 0.0 <= random[id] < 1.0
  }

  /** The rows still to deliver. */
  function UndeliveredIds(rows: Rows): set<Uuid> {
    set id | id in rows && rows[id].deliveredAt == None
  }

  /** 2, 4, 8 seconds and so on, and 300 from the ninth failure. */
  lemma {:induction false} BackoffDoubles(n: nat)
    ensures Backoff(1) == 2.0 && (1 <= n < 8 ==> Backoff(n + 1) == 2.0 * Backoff(n)) && (n >= 9 ==> Backoff(n) == 300.0)
  {
    BackoffBounds(n);
    assert Power2(1) == 2 && Power2(2) == 4 && Power2(3) == 8 && Power2(4) == 16;
    assert Power2(5) == 32 && Power2(6) == 64 && Power2(7) == 128 && Power2(8) == 256;
    assert n in {1, 2, 3, 4, 5, 6, 7} || n < 1 || n >= 8;
  }

  lemma BackoffBounds(n: nat)
    ensures 1.0 <= Backoff(n) <= 300.0
    ensures n >= 9 ==> Backoff(n) == 300.0
  {
    assert Power2(9) == 512 by {
      assert Power2(4) == 16 && Power2(8) == 256;
    }
    Power2Positive(if n < 9 then n else 9);
  }

  lemma {:induction false} Power2Positive(n: nat)
    ensures Power2(n) >= 1
  {
    if n > 0 {
      Power2Positive(n - 1);
    }
  }

  /** A backoff ends between 0.8 times its base and six minutes from now. */
  lemma RescheduledSoon(rows: Rows, ids: set<Uuid>, now: Time, random: map<Uuid, real>, id: Uuid)
    requires Draws(rows, random) && Undelivered(rows, id) && id in ids
    ensures now + 0.8 * Backoff(rows[id].attempts + 1)
         <= Rescheduled(rows, ids, now, random)[id].nextAttempt < now + 360.0
  {
    var b, f := Backoff(rows[id].attempts + 1), 0.8 + random[id] * 0.4;
    BackoffBounds(rows[id].attempts + 1);
    ScaleBounds(b, f);
  }

  lemma ScaleBounds(b: real, f: real)
    requires 1.0 <= b <= 300.0 && 0.8 <= f < 1.2
    ensures 0.8 * b <= b * f < 360.0
  {
    assert b * f <= 300.0 * f;
  }

  function Purged(rows: Rows, now: Time, olderThan: Time): Rows {
    map id | id in rows && !(rows[id].deliveredAt.Some? && rows[id].deliveredAt.value < now - olderThan) :: rows[id]
  }

  predicate Stale(rows: Rows, now: Time, olderThan: Time, id: Uuid) {
    Undelivered(rows, id) && rows[id].createdAt < now - olderThan
  }

  function StaleDropped(rows: Rows, now: Time, olderThan: Time): Rows {
    map id | id in rows && !Stale(rows, now, olderThan, id) :: rows[id]
  }

  /** `ids` are due rows no other transaction holds, at most `limit` of them, fewer only when
      there are no more, and none of those left is older. */
  ghost predicate OldestDue(rows: Rows, now: Time, locked: set<Uuid>, limit: nat, ids: set<Uuid>) {
    var free := set id | id in rows && Due(rows, now, id) && id !in locked;
    && ids <= free && |ids| <= limit
    && (|ids| < limit ==> ids == free)
    && forall a, b :: a in ids && b in free - ids ==> rows[a].createdAt <= rows[b].createdAt
  }

  /** The bodies of the first event under each id. */
  function FirstBodies(events: seq<(Uuid, Body)>): map<Uuid, Body> {
    if events == [] then map[]
    else
      var (id, body) := events[|events| - 1];
      WithFirst(FirstBodies(events[..|events| - 1]), id, body)
  }

  function InsertedAll(rows: Rows, bodies: map<Uuid, Body>, now: Time): Rows {
    map id | id in rows.Keys + bodies.Keys :: if id in rows then rows[id] else NewRow(bodies[id], now)
  }

  function WithFirst(m: map<Uuid, Body>, id: Uuid, body: Body): map<Uuid, Body> {
    if id in m then m else m[id := body]
  }

  lemma FirstBodiesNext(events: seq<(Uuid, Body)>, k: nat)
    requires k < |events|
    ensures FirstBodies(events[..k + 1]) == WithFirst(FirstBodies(events[..k]), events[k].0, events[k].1)
  {
    assert events[..k + 1][..k] == events[..k];
  }

  /** Under each id the first event posted counts. */
  lemma {:induction false} FirstBodiesExactly(events: seq<(Uuid, Body)>, k: nat)
    requires k < |events| && forall j :: 0 <= j < k ==> events[j].0 != events[k].0
    ensures events[k].0 in FirstBodies(events) && FirstBodies(events)[events[k].0] == events[k].1
    decreases |events|
  {
    var init := events[..|events| - 1];
    if k < |init| {
      assert init[k] == events[k] && forall j :: 0 <= j < k ==> init[j] == events[j];
      FirstBodiesExactly(init, k);
    } else {
      OnlyTheirIds(init, events[k].0);
    }
  }

  lemma {:induction false} OnlyTheirIds(events: seq<(Uuid, Body)>, id: Uuid)
    ensures id in FirstBodies(events) <==> exists k :: 0 <= k < |events| && events[k].0 == id
    decreases |events|
  {
    if events != [] {
      var init := events[..|events| - 1];
      OnlyTheirIds(init, id);
      assert forall k :: 0 <= k < |init| ==> init[k] == events[k];
    }
  }

  lemma InsertedNext(rows: Rows, m: map<Uuid, Body>, id: Uuid, body: Body, now: Time)
    ensures Inserted(InsertedAll(rows, m, now), id, body, now) == InsertedAll(rows, WithFirst(m, id, body), now)
  {
  }

  /** The oldest of some rows. */
  lemma OldestExists(rows: Rows, s: set<Uuid>) returns (x: Uuid)
    requires s != {} && s <= rows.Keys
    ensures x in s && forall y :: y in s ==> rows[x].createdAt <= rows[y].createdAt
  {
    x :| x in s;
    if s != {x} {
      var y := OldestExists(rows, s - {x});
      if rows[y].createdAt < rows[x].createdAt {
        x := y;
      }
    }
  }

  predicate Pending(rows: Rows, e: PendingEvent) {
    e.id in rows && e == PendingEvent(e.id, rows[e.id].body, rows[e.id].attempts)
  }

  ghost predicate NoneOlder(rows: Rows, ids: set<Uuid>, rest: set<Uuid>)
    requires ids + rest <= rows.Keys
  {
    forall a, b :: a in ids && b in rest ==> rows[a].createdAt <= rows[b].createdAt
  }

  /** `ORDER BY created_at LIMIT limit` over the rows `free`. */
  method Oldest(rows: Rows, free: set<Uuid>, limit: nat) returns (ids: seq<Uuid>)
    requires free <= rows.Keys
    ensures Distinct(ids) && Elements(ids) <= free && |ids| <= limit
    ensures |ids| < limit ==> Elements(ids) == free
    ensures NoneOlder(rows, Elements(ids), free - Elements(ids))
  {
    var rest := free;
    ids := [];
    while |ids| < limit && rest != {}
      invariant rest == free - Elements(ids) && Elements(ids) <= free
      invariant Distinct(ids) && |ids| <= limit
      invariant NoneOlder(rows, Elements(ids), rest)
      decreases rest
    {
      ghost var w := OldestExists(rows, rest);
      var x :| x in rest && forall y :: y in rest ==> rows[x].createdAt <= rows[y].createdAt;
      assert x !in ids && Elements(ids + [x]) == Elements(ids) + {x};
      ids := ids + [x];
      rest := rest - {x};
    }
  }

  /** The inner SELECT of a claim: oldest first, rows other transactions hold skipped. */
  method SelectDue(rows: Rows, limit: nat, now: Time, locked: set<Uuid>) returns (batch: seq<PendingEvent>)
    ensures OldestDue(rows, now, locked, limit, BatchIds(batch))
    ensures |BatchIds(batch)| == |batch|
    ensures forall e :: e in batch ==> Pending(rows, e)
  {
    var free := set id | id in rows && Due(rows, now, id) && id !in locked;
    var ids := Oldest(rows, free, limit);
    forall k | 0 <= k < |ids| ensures ids[k] in rows {
      assert ids[k] in Elements(ids);
    }
    batch := seq(|ids|, k requires 0 <= k < |ids| => PendingEvent(ids[k], rows[ids[k]].body, rows[ids[k]].attempts));
    DistinctSize(ids);
    assert BatchIds(batch) == Elements(ids) by {
      forall id | id in ids ensures id in BatchIds(batch) {
        var k :| 0 <= k < |ids| && ids[k] == id;
        assert batch[k] in batch;
      }
    }
  }

  /** A row that was there is as it was; a new one is due now and was never tried. */
  predicate KeptOrNew(before: Rows, after: Rows, id: Uuid, now: Time)
    requires id in after
  {
    var r := after[id];
    if id in before then r == before[id]
    else r.createdAt == r.nextAttempt == now && r.attempts == 0 && r.deliveredAt == None
  }

  /** Nothing but the stamp of a row may have changed, and that at most from none to now. */
  predicate OnlyStamped(before: Row, after: Row, now: Time) {
    after == before || (before.deliveredAt == None && after == before.(deliveredAt := Some(now)))
  }

  /** One failure more, and a wait of 0.8 to 1.2 times its backoff, six minutes at most. */
  predicate OnlyBackedOff(before: Row, after: Row, now: Time) {
    && after == before.(attempts := after.attempts, nextAttempt := after.nextAttempt)
    && after.attempts == before.attempts + 1
    && now + 0.8 * Backoff(after.attempts) <= after.nextAttempt < now + 360.0
  }

  lemma SizeOfDifference<T>(s: set<T>, t: set<T>)
    requires t <= s
    ensures |s - t| == |s| - |t|
  {
    assert s == t + (s - t);
  }

  class LabEventRepo {
    var rows: Rows

    constructor ()
      ensures rows == map[]
    {
      rows := map[];
    }

    /** Every event needs a well-formed id, or nothing is inserted. */
    method InsertMany(events: seq<(Option<Uuid>, Body)>, now: Time) returns (r: Result<nat, ()>)
      modifies this
      ensures r.Failure? <==> exists e :: e in events && e.0 == None
      ensures r.Failure? ==> rows == old(rows)
      ensures r.Success? ==>
                && (forall k :: 0 <= k < |events| ==> events[k].0.Some?)
                && rows == InsertedAll(old(rows), FirstBodies(Ided(events)), now)
                && |rows| == |old(rows)| + r.value
      ensures r.Success? ==> forall id :: id in rows ==> KeptOrNew(old(rows), rows, id, now)
    {
      var ok := AllIded(events);
      if !ok {
        return Failure(());
      }
      var ids := Ided(events);
      var inserted := 0;
      for k := 0 to |ids|
        invariant rows == InsertedAll(old(rows), FirstBodies(ids[..k]), now)
        invariant |rows| == |old(rows)| + inserted
      {
        var (id, body) := ids[k];
        FirstBodiesNext(ids, k);
        InsertedNext(old(rows), FirstBodies(ids[..k]), id, body, now);
        if id !in rows {
          inserted := inserted + 1;
        }
        rows := Inserted(rows, id, body, now);
      }
      assert ids[..|ids|] == ids;
      r := Success(inserted);
    }

    static method AllIded(events: seq<(Option<Uuid>, Body)>) returns (ok: bool)
      ensures ok <==> forall k :: 0 <= k < |events| ==> events[k].0.Some?
      ensures !ok <==> exists e :: e in events && e.0 == None
    {
      for k := 0 to |events|
        invariant forall j :: 0 <= j < k ==> events[j].0.Some?
      {
        if events[k].0 == None {
          assert events[k] in events;
          return false;
        }
      }
      ok := true;
    }

    static function Ided(events: seq<(Option<Uuid>, Body)>): seq<(Uuid, Body)>
      requires forall k :: 0 <= k < |events| ==> events[k].0.Some?
    {
      seq(|events|, k requires 0 <= k < |events| => (events[k].0.value, events[k].1))
    }

    method ClaimDue(limit: nat, lease: Time, now: Time, locked: set<Uuid>) returns (batch: seq<PendingEvent>)
      modifies this
      ensures OldestDue(old(rows), now, locked, limit, BatchIds(batch))
      ensures rows == Leased(old(rows), BatchIds(batch), now + lease)
      ensures |BatchIds(batch)| == |batch|
      ensures forall e :: e in batch ==> Pending(old(rows), e)
    {
      batch := SelectDue(rows, limit, now, locked);
      rows := Leased(rows, BatchIds(batch), now + lease);
    }

    method MarkDelivered(ids: set<Uuid>, now: Time) returns (n: nat)
      modifies this
      ensures rows == Marked(old(rows), ids, now)
      ensures rows.Keys == old(rows).Keys && UndeliveredIds(rows) == UndeliveredIds(old(rows)) - ids
      ensures n == |UndeliveredIds(old(rows))| - |UndeliveredIds(rows)|
      ensures forall id :: id in rows ==> OnlyStamped(old(rows)[id], rows[id], now)
    {
      var stamped := set id | id in ids && Undelivered(rows, id);
      n := |stamped|;
      SizeOfDifference(UndeliveredIds(rows), stamped);
      rows := Marked(rows, ids, now);
      assert UndeliveredIds(rows) == UndeliveredIds(old(rows)) - stamped;
    }

    method Reschedule(ids: set<Uuid>, now: Time, random: map<Uuid, real>)
      requires Draws(rows, random)
      modifies this
      ensures rows == Rescheduled(old(rows), ids, now, random)
      ensures rows.Keys == old(rows).Keys && UndeliveredIds(rows) == UndeliveredIds(old(rows))
      ensures forall id :: id in rows ==>
                if id in ids && id in UndeliveredIds(old(rows)) then OnlyBackedOff(old(rows)[id], rows[id], now)
                else rows[id] == old(rows)[id]
    {
      forall id | id in ids && id in UndeliveredIds(rows) {
        RescheduledSoon(rows, ids, now, random, id);
      }
      rows := Rescheduled(rows, ids, now, random);
    }

    method PurgeDelivered(olderThan: Time, now: Time) returns (n: nat)
      modifies this
      ensures rows == Purged(old(rows), now, olderThan)
      ensures rows.Items <= old(rows).Items && UndeliveredIds(rows) == UndeliveredIds(old(rows))
      ensures n == |old(rows)| - |rows|
      ensures forall id :: id in old(rows) && id !in rows ==>
                old(rows)[id].deliveredAt.Some? && old(rows)[id].deliveredAt.value < now - olderThan
      ensures forall id :: id in rows && rows[id].deliveredAt.Some? ==> rows[id].deliveredAt.value >= now - olderThan
    {
      var expired := set id | id in rows && rows[id].deliveredAt.Some? && rows[id].deliveredAt.value < now - olderThan;
      n := |expired|;
      SizeOfDifference(rows.Keys, expired);
      rows := Purged(rows, now, olderThan);
      assert rows.Keys == old(rows).Keys - expired;
      assert |rows| == |rows.Keys|;
    }

    method DropStale(olderThan: Time, now: Time) returns (dropped: set<Uuid>)
      modifies this
      ensures rows == StaleDropped(old(rows), now, olderThan)
      ensures dropped == old(rows).Keys - rows.Keys
    {
      dropped := set id | id in rows && Stale(rows, now, olderThan, id);
      rows := StaleDropped(rows, now, olderThan);
    }
  }

  function BatchIds(batch: seq<PendingEvent>): set<Uuid> {
    set e | e in batch :: e.id
  }
}
