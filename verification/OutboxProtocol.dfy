/** Any number of senders delivering the outbox to the Lab, step by step: rows are posted,
    leased, sent, acknowledged, marked, backed off and deleted in any interleaving, requests and
    answers are delayed, repeated or lost, statements fail and senders crash. */
module OutboxProtocol {
  import opened Wrappers
  import opened Outbox

  type SenderId = nat

  /** Where one sender is in delivering one batch. `since` is when it claimed the batch. */
  datatype Phase =
    | Idle
    | Sending(batch: map<Uuid, Body>, since: Time, ticket: nat)
    | Marking(done: set<Uuid>, rest: set<Uuid>, since: Time)
    | BackingOff(rest: set<Uuid>, since: Time)

  datatype Request = Request(ticket: nat, batch: map<Uuid, Body>)

  datatype Answer = Answer(ticket: nat, accepted: set<Uuid>)

  /** `wire` and `answers` hold everything ever sent: a message may arrive late, again or never. */
  datatype World = World(
    now: Time,
    rows: Rows,
    lab: map<Uuid, Body>,
    senders: map<SenderId, Phase>,
    wire: set<Request>,
    answers: set<Answer>,
    tickets: nat)

  datatype Action =
    | Tick(to: Time)
    | Post(id: Uuid, body: Body)
    | Claim(s: SenderId, ids: set<Uuid>)
    | LabTakes(request: Request, kept: set<Uuid>, accepted: set<Uuid>)
    | Reply(s: SenderId, answer: Answer)
    | NoReply(s: SenderId)
    | Mark(s: SenderId, ok: bool)
    | BackOff(s: SenderId, ok: bool, random: map<Uuid, real>)
    | Crash(s: SenderId)
    | Purge
    | DropStale

  function At(w: World, s: SenderId): Phase {
    if s in w.senders then w.senders[s] else Idle
  }

  function To(w: World, s: SenderId, p: Phase): World {
    w.(senders := w.senders[s := p])
  }

  /** The rows a sender may still act on. */
  function Held(p: Phase): set<Uuid> {
    match p
    case Idle => {}
    case Sending(batch, _, _) => batch.Keys
    case Marking(done, rest, _) => done + rest
    case BackingOff(rest, _) => rest
  }

  /** The Lab stores the events it keeps, once per id. */
  function Stored(lab: map<Uuid, Body>, batch: map<Uuid, Body>, kept: set<Uuid>): map<Uuid, Body> {
    map id | id in lab.Keys + (kept * batch.Keys) :: if id in lab then lab[id] else batch[id]
  }

  predicate Enabled(w: World, a: Action) {
    match a
    case Tick(to) => w.now <= to
    case Post(_, _) => true
    case Claim(s, ids) => At(w, s).Idle? && 0 < |ids| <= BATCH_SIZE && forall id :: id in ids ==> Due(w.rows, w.now, id)
    case LabTakes(request, kept, accepted) =>
      // An acknowledged event of the batch is stored.
      request in w.wire && accepted * request.batch.Keys <= Stored(w.lab, request.batch, kept).Keys
    case Reply(s, answer) => At(w, s).Sending? && answer in w.answers && answer.ticket == At(w, s).ticket
    case NoReply(s) => At(w, s).Sending?
    case Mark(s, _) => At(w, s).Marking?
    case BackOff(s, _, random) => At(w, s).BackingOff? && Draws(w.rows, random)
    case Crash(_) => true
    case Purge => true
    case DropStale => true
  }

  function Do(w: World, a: Action): World
    requires Enabled(w, a)
  {
    match a
    case Tick(to) => w.(now := to)
    case Post(id, body) => w.(rows := Inserted(w.rows, id, body, w.now))
    case Claim(s, ids) =>
      var batch := map id | id in ids :: w.rows[id].body;
      To(w, s, Sending(batch, w.now, w.tickets)).(
        rows := Leased(w.rows, ids, w.now + LEASE),
        wire := w.wire + {Request(w.tickets, batch)},
        tickets := w.tickets + 1)
    case LabTakes(request, kept, accepted) =>
      w.(lab := Stored(w.lab, request.batch, kept), answers := w.answers + {Answer(request.ticket, accepted)})
    case Reply(s, answer) =>
      var p := At(w, s);
      To(w, s, Marking(p.batch.Keys * answer.accepted, p.batch.Keys - answer.accepted, p.since))
    case NoReply(s) => To(w, s, BackingOff(At(w, s).batch.Keys, At(w, s).since))
    case Mark(s, ok) =>
      var p := At(w, s);
      To(w, s, if p.rest == {} then Idle else BackingOff(p.rest, p.since)).(
        rows := if ok then Marked(w.rows, p.done, w.now) else w.rows)
    case BackOff(s, ok, random) =>
      To(w, s, Idle).(rows := if ok then Rescheduled(w.rows, At(w, s).rest, w.now, random) else w.rows)
    case Crash(s) => To(w, s, Idle)
    case Purge => w.(rows := Purged(w.rows, w.now, RETENTION))
    case DropStale => w.(rows := StaleDropped(w.rows, w.now, STALE_AFTER))
  }

  /** A step as one function. */
  function Step(w: World, a: Action): Option<World> {
    if Enabled(w, a) then Some(Do(w, a)) else None
  }

  predicate Start(w: World) {
    w.rows == map[] && w.lab == map[] && w.senders == map[] && w.wire == {} && w.answers == {}
  }

  ghost predicate Next(w: World, a: Action, w': World) {
    Enabled(w, a) && w' == Do(w, a)
  }

  /** A run: `ws[i + 1]` comes out of `ws[i]` by `acts[i]`. */
  ghost predicate Run(ws: seq<World>, acts: seq<Action>) {
    && |ws| == |acts| + 1 && Start(ws[0])
    && forall i :: 0 <= i < |acts| ==> Next(ws[i], acts[i], ws[i + 1])
  }

  // ---------------------------------------------------------------- delivered means stored

  /** What an acknowledgement on its way to a sender vouches for is stored. */
  ghost predicate Vouched(w: World) {
    && (forall q :: q in w.wire ==> q.ticket < w.tickets)
    && (forall q, q' :: q in w.wire && q' in w.wire && q.ticket == q'.ticket ==> q == q')
    && (forall n, q :: n in w.answers && q in w.wire && n.ticket == q.ticket
         ==> n.accepted * q.batch.Keys <= w.lab.Keys)
    && (forall n :: n in w.answers ==> n.ticket < w.tickets)
  }

  ghost predicate SendersVouched(w: World) {
    forall s :: s in w.senders ==>
      match w.senders[s]
      case Sending(batch, _, ticket) => Request(ticket, batch) in w.wire
      case Marking(done, _, _) => done <= w.lab.Keys
      case _ => true
  }

  ghost predicate DeliveredStored(w: World) {
    forall id :: id in w.rows && w.rows[id].deliveredAt.Some? ==> id in w.lab
  }

  ghost predicate Sound(w: World) {
    Vouched(w) && SendersVouched(w) && DeliveredStored(w)
  }

  lemma StepKeepsVouched(w: World, a: Action)
    requires Enabled(w, a) && Vouched(w)
    ensures Vouched(Do(w, a))
  {
  }

  lemma StepKeepsSendersVouched(w: World, a: Action)
    requires Enabled(w, a) && Vouched(w) && SendersVouched(w)
    ensures SendersVouched(Do(w, a))
  {
    if a.Reply? {
      var p := At(w, a.s);
      assert Request(p.ticket, p.batch) in w.wire;
    }
  }

  lemma StepKeepsDeliveredStored(w: World, a: Action)
    requires Enabled(w, a) && SendersVouched(w) && DeliveredStored(w)
    ensures DeliveredStored(Do(w, a))
  {
  }

  /** In every run, a row marked delivered is stored at the Lab. */
  lemma {:induction false} DeliveredIsStored(ws: seq<World>, acts: seq<Action>, i: nat)
    requires Run(ws, acts) && i < |ws|
    ensures Sound(ws[i])
    decreases i
  {
    if i > 0 {
      DeliveredIsStored(ws, acts, i - 1);
      assert Next(ws[i - 1], acts[i - 1], ws[i - 1 + 1]);
      StepKeepsVouched(ws[i - 1], acts[i - 1]);
      StepKeepsSendersVouched(ws[i - 1], acts[i - 1]);
      StepKeepsDeliveredStored(ws[i - 1], acts[i - 1]);
    }
  }

  // ---------------------------------------------------------------- nothing is invented

  ghost predicate Posted(acts: seq<Action>, id: Uuid, body: Body) {
    Post(id, body) in acts
  }

  /** Every body in the outbox, on the wire or at the Lab was posted under its id. */
  ghost predicate AllPosted(w: World, acts: seq<Action>) {
    && (forall id :: id in w.rows ==> Posted(acts, id, w.rows[id].body))
    && (forall q, id :: q in w.wire && id in q.batch ==> Posted(acts, id, q.batch[id]))
    && (forall id :: id in w.lab ==> Posted(acts, id, w.lab[id]))
  }

  lemma StepKeepsPosted(w: World, a: Action, acts: seq<Action>)
    requires Enabled(w, a) && AllPosted(w, acts)
    ensures AllPosted(Do(w, a), acts + [a])
  {
    assert forall x :: x in acts ==> x in acts + [a];
    assert a in acts + [a];
  }

  lemma {:induction false} NothingInvented(ws: seq<World>, acts: seq<Action>, i: nat)
    requires Run(ws, acts) && i < |ws|
    ensures AllPosted(ws[i], acts[..i])
    decreases i
  {
    if i > 0 {
      NothingInvented(ws, acts, i - 1);
      assert Next(ws[i - 1], acts[i - 1], ws[i - 1 + 1]);
      StepKeepsPosted(ws[i - 1], acts[i - 1], acts[..i - 1]);
      assert acts[..i] == acts[..i - 1] + [acts[i - 1]];
    }
  }

  // ---------------------------------------------------------------- how a row ends

  /** A delivered row stays as it is until a purge, past the retention. */
  lemma StepOnDelivered(w: World, a: Action, id: Uuid)
    requires Enabled(w, a) && id in w.rows && w.rows[id].deliveredAt.Some?
    ensures id in Do(w, a).rows ==> Do(w, a).rows[id].deliveredAt == w.rows[id].deliveredAt
    ensures id !in Do(w, a).rows ==> a == Purge && w.rows[id].deliveredAt.value < w.now - RETENTION
  {
  }

  ghost predicate PurgedAt(ws: seq<World>, acts: seq<Action>, k: nat, at: Time) {
    k < |acts| < |ws| && acts[k] == Purge && at < ws[k].now - 604800.0
  }

  /** Over a run, a delivered row is still there with the same stamp, or was purged more than
      seven days after it. It is never sent again. */
  lemma {:induction false} DeliveredForGood(ws: seq<World>, acts: seq<Action>, i: nat, j: nat, id: Uuid)
    requires Run(ws, acts) && i <= j < |ws|
    requires id in ws[i].rows && ws[i].rows[id].deliveredAt.Some?
    ensures (id in ws[j].rows && ws[j].rows[id].deliveredAt == ws[i].rows[id].deliveredAt)
         || (exists k: nat :: i <= k < j && PurgedAt(ws, acts, k, ws[i].rows[id].deliveredAt.value))
    decreases j
  {
    if i < j {
      DeliveredForGood(ws, acts, i, j - 1, id);
      assert Next(ws[j - 1], acts[j - 1], ws[j - 1 + 1]);
      if id in ws[j - 1].rows && ws[j - 1].rows[id].deliveredAt == ws[i].rows[id].deliveredAt {
        StepOnDelivered(ws[j - 1], acts[j - 1], id);
        assert id !in ws[j].rows ==> PurgedAt(ws, acts, j - 1, ws[i].rows[id].deliveredAt.value);
      }
    }
  }

  /** The same undelivered event is still in the outbox. */
  predicate Kept(before: Rows, rows: Rows, id: Uuid)
    requires id in before
  {
    Undelivered(rows, id) && rows[id].body == before[id].body && rows[id].createdAt == before[id].createdAt
  }

  /** An undelivered row stays, is marked delivered by a sender that saw it acknowledged, or is
      dropped as stale. */
  lemma StepOnUndelivered(w: World, a: Action, id: Uuid)
    requires Enabled(w, a) && SendersVouched(w) && Undelivered(w.rows, id)
    ensures Kept(w.rows, Do(w, a).rows, id) || Acknowledges(w, a, id)
              || (a == DropStale && Stale(w.rows, w.now, STALE_AFTER, id))
    ensures id !in Do(w, a).rows ==> a == DropStale && w.rows[id].createdAt < w.now - STALE_AFTER
    ensures Acknowledges(w, a, id) ==> id in Do(w, a).rows && Do(w, a).rows[id].deliveredAt == Some(w.now)
  {
    match a {
      case Mark(s, ok) =>
        if ok && id in At(w, s).done {
          assert s in w.senders;
        }
      case DropStale =>
      case _ =>
    }
  }

  /** `a` marks `id` delivered, as listed in an acknowledgement, and the Lab has stored it. */
  ghost predicate Acknowledges(w: World, a: Action, id: Uuid) {
    a.Mark? && a.ok && At(w, a.s).Marking? && id in At(w, a.s).done && id in w.lab
  }

  ghost predicate AcknowledgedAt(ws: seq<World>, acts: seq<Action>, k: nat, id: Uuid) {
    k < |acts| < |ws| && Acknowledges(ws[k], acts[k], id)
  }

  ghost predicate DroppedAt(ws: seq<World>, acts: seq<Action>, k: nat, createdAt: Time) {
    k < |acts| < |ws| && acts[k] == DropStale && createdAt < ws[k].now - 86400.0
  }

  /** Over a run, no event is lost: it is in the outbox until a sender marks it delivered that was
      told so by the Lab, which has stored it, or it is dropped more than 24 h after it was created. */
  lemma {:induction false} NoEventLost(ws: seq<World>, acts: seq<Action>, i: nat, j: nat, id: Uuid)
    requires Run(ws, acts) && i <= j < |ws| && Undelivered(ws[i].rows, id)
    ensures Kept(ws[i].rows, ws[j].rows, id)
         || (exists k: nat :: i <= k < j && AcknowledgedAt(ws, acts, k, id))
         || (exists k: nat :: i <= k < j && DroppedAt(ws, acts, k, ws[i].rows[id].createdAt))
    decreases j
  {
    if i < j {
      NoEventLost(ws, acts, i, j - 1, id);
      if Kept(ws[i].rows, ws[j - 1].rows, id) {
        KeptOneMore(ws, acts, i, j - 1, id);
      }
    }
  }

  lemma KeptOneMore(ws: seq<World>, acts: seq<Action>, i: nat, k: nat, id: Uuid)
    requires Run(ws, acts) && i < |ws| && k < |acts| && Undelivered(ws[i].rows, id) && Kept(ws[i].rows, ws[k].rows, id)
    ensures Kept(ws[i].rows, ws[k + 1].rows, id) || AcknowledgedAt(ws, acts, k, id)
         || DroppedAt(ws, acts, k, ws[i].rows[id].createdAt)
  {
    assert Next(ws[k], acts[k], ws[k + 1]);
    DeliveredIsStored(ws, acts, k);
    StepOnUndelivered(ws[k], acts[k], id);
  }

  /** The steps a sender takes after its claim. */
  predicate AfterClaim(a: Action, s: SenderId) {
    match a
    case Reply(s', _) => s == s'
    case NoReply(s') => s == s'
    case Mark(s', _) => s == s'
    case BackOff(s', _, _) => s == s'
    case Crash(s') => s == s'
    case _ => false
  }

  predicate SameRow(before: Rows, after: Rows, id: Uuid) {
    (id in before <==> id in after) && (id in before ==> after[id] == before[id])
  }

  /** Whatever the Lab lists, a sender changes no row outside the batch it claimed, and no other
      sender's state. */
  lemma OnlyTheBatchChanges(w: World, a: Action, s: SenderId)
    requires Enabled(w, a) && AfterClaim(a, s)
    ensures Held(At(Do(w, a), s)) <= Held(At(w, s))
    ensures forall id :: id !in Held(At(w, s)) ==> SameRow(w.rows, Do(w, a).rows, id)
    ensures forall s' :: s' != s ==> At(Do(w, a), s') == At(w, s')
  {
  }

  /** From a claim to the next, no step a sender takes touches a row outside the batch it held at
      first, whatever the Lab lists and whatever the others do in between. */
  lemma ForeignRowsUntouched(ws: seq<World>, acts: seq<Action>, i: nat, j: nat, s: SenderId, id: Uuid)
    requires Run(ws, acts) && i <= j < |acts|
    requires forall k :: i <= k <= j ==> !(acts[k].Claim? && acts[k].s == s)
    requires id !in Held(At(ws[i], s))
    ensures AfterClaim(acts[j], s) ==> SameRow(ws[j].rows, ws[j + 1].rows, id)
  {
    NeverHeld(ws, acts, i, j, s, id);
    assert Next(ws[j], acts[j], ws[j + 1]);
    if AfterClaim(acts[j], s) {
      OnlyTheBatchChanges(ws[j], acts[j], s);
    }
  }

  lemma {:induction false} NeverHeld(ws: seq<World>, acts: seq<Action>, i: nat, j: nat, s: SenderId, id: Uuid)
    requires Run(ws, acts) && i <= j < |acts|
    requires forall k :: i <= k <= j ==> !(acts[k].Claim? && acts[k].s == s)
    requires id !in Held(At(ws[i], s))
    ensures id !in Held(At(ws[j], s))
    decreases j
  {
    if i < j {
      NeverHeld(ws, acts, i, j - 1, s, id);
      assert Next(ws[j - 1], acts[j - 1], ws[j - 1 + 1]);
      HeldShrinks(ws[j - 1], acts[j - 1], s);
    }
  }

  lemma HeldShrinks(w: World, a: Action, s: SenderId)
    requires Enabled(w, a) && !(a.Claim? && a.s == s)
    ensures Held(At(Do(w, a), s)) <= Held(At(w, s))
  {
  }

  /** Two acknowledgements that agree on the batch have the same effect. */
  lemma ForeignIdsIgnored(w: World, s: SenderId, a: Answer, b: Answer)
    requires Enabled(w, Reply(s, a)) && Enabled(w, Reply(s, b))
    requires forall id :: id in At(w, s).batch ==> (id in a.accepted <==> id in b.accepted)
    ensures Do(w, Reply(s, a)) == Do(w, Reply(s, b))
  {
    var ids := At(w, s).batch.Keys;
    assert ids * a.accepted == ids * b.accepted && ids - a.accepted == ids - b.accepted;
  }
}
