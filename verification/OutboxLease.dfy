/** What the lease gives over whole runs. */
module OutboxLease {
  import opened Wrappers
  import opened Outbox
  import opened OutboxProtocol

  // ---------------------------------------------------------------- one holder per row

  /** Every sender that holds a batch is still within its lease. */
  ghost predicate InLease(w: World) {
    forall s :: s in w.senders && !w.senders[s].Idle? ==> w.now < w.senders[s].since + LEASE
  }

  /** `a` does not post an id that a sender still holds and whose row is gone. Posting an id whose
      row is there changes nothing. */
  ghost predicate NoRepostOfHeld(w: World, a: Action) {
    a.Post? ==> a.id in w.rows || forall s :: s in w.senders ==> a.id !in Held(w.senders[s])
  }

  ghost predicate DisciplinedRun(ws: seq<World>, acts: seq<Action>) {
    && Run(ws, acts)
    && (forall i :: 0 <= i < |ws| ==> InLease(ws[i]))
    && forall i :: 0 <= i < |acts| ==> NoRepostOfHeld(ws[i], acts[i])
  }

  /** `s` may still send, mark or reschedule the undelivered row `id`. */
  predicate Holds(w: World, s: SenderId, id: Uuid) {
    s in w.senders && id in Held(w.senders[s]) && Undelivered(w.rows, id)
  }

  ghost predicate OneHolder(w: World) {
    forall s, s', id :: Holds(w, s, id) && Holds(w, s', id) ==> s == s'
  }

  /** A held row is not due before its holder's lease ends. */
  ghost predicate HeldNotDue(w: World) {
    forall s, id :: Holds(w, s, id) ==> w.rows[id].nextAttempt == w.senders[s].since + LEASE
  }

  lemma OthersDoNot(w: World, s: SenderId, s': SenderId, id: Uuid)
    requires OneHolder(w) && Holds(w, s, id) && s' != s
    ensures id !in Held(At(w, s'))
  {
    assert id in Held(At(w, s')) ==> Holds(w, s', id);
  }

  lemma StepOfHolder(w: World, a: Action, s: SenderId, id: Uuid)
    requires Enabled(w, a) && InLease(w) && NoRepostOfHeld(w, a) && OneHolder(w) && HeldNotDue(w)
    requires Holds(Do(w, a), s, id)
    ensures Holds(w, s, id) || (a.Claim? && a.s == s && id in a.ids)
    ensures Do(w, a).rows[id].nextAttempt == Do(w, a).senders[s].since + LEASE
  {
    match a {
      case Post(p, _) =>
        if p == id && p !in w.rows {
          assert s in w.senders;
        }
      case Claim(c, ids) =>
        if c != s {
          assert Holds(w, s, id);
        }
      case Reply(c, _) => assert Holds(w, s, id);
      case NoReply(c) => assert Holds(w, s, id);
      case Mark(c, _) => assert Holds(w, s, id);
      case BackOff(c, _, _) =>
        assert Holds(w, s, id);
        if c != s {
          OthersDoNot(w, s, c, id);
        }
      case Crash(c) => assert Holds(w, s, id);
      case Purge => assert Holds(w, s, id);
      case DropStale => assert Holds(w, s, id);
      case Tick(_) => assert Holds(w, s, id);
      case LabTakes(_, _, _) => assert Holds(w, s, id);
    }
  }

  lemma StepKeepsOneHolder(w: World, a: Action)
    requires Enabled(w, a) && InLease(w) && NoRepostOfHeld(w, a) && OneHolder(w) && HeldNotDue(w)
    ensures OneHolder(Do(w, a)) && HeldNotDue(Do(w, a))
  {
    var w' := Do(w, a);
    forall s, id | Holds(w', s, id) {
      StepOfHolder(w, a, s, id);
    }
  }

  /** With batches finished within their lease, and no id posted again while held once its row is
      gone, no two of any number of senders ever hold the same undelivered row. */
  lemma {:induction false} NoTwoHolders(ws: seq<World>, acts: seq<Action>, i: nat)
    requires DisciplinedRun(ws, acts) && i < |ws|
    ensures OneHolder(ws[i]) && HeldNotDue(ws[i])
    decreases i
  {
    if i > 0 {
      NoTwoHolders(ws, acts, i - 1);
      assert Next(ws[i - 1], acts[i - 1], ws[i - 1 + 1]);
      StepKeepsOneHolder(ws[i - 1], acts[i - 1]);
    }
  }

  /** A run from the empty outbox to `w`, its senders within their leases all along. */
  ghost predicate InLeaseRun(ws: seq<World>, acts: seq<Action>, w: World) {
    Run(ws, acts) && ws[|ws| - 1] == w && forall i :: 0 <= i < |ws| ==> InLease(ws[i])
  }

  lemma Extend(ws: seq<World>, acts: seq<Action>, w: World, a: Action) returns (ws': seq<World>, acts': seq<Action>)
    requires InLeaseRun(ws, acts, w) && Enabled(w, a) && InLease(Do(w, a))
    ensures InLeaseRun(ws', acts', Do(w, a))
  {
    ws', acts' := ws + [Do(w, a)], acts + [a];
    forall i | 0 <= i < |acts'| ensures Next(ws'[i], acts'[i], ws'[i + 1]) {
      if i < |acts| {
        assert Next(ws[i], acts[i], ws[i + 1]);
      }
    }
  }

  /** The lease alone is not enough: a row dropped as stale while a sender holds it, posted again
      under the same id and claimed by another sender, has two holders. */
  lemma RepostBreaksTheLease() returns (ws: seq<World>, acts: seq<Action>, w: World)
    ensures InLeaseRun(ws, acts, w) && Holds(w, 1, 7) && Holds(w, 2, 7)
  {
    w := World(0.0, map[], map[], map[], {}, {}, 0);
    ws, acts := [w], [];
    ws, acts := Extend(ws, acts, w, Post(7, "event"));
    w := Do(w, Post(7, "event"));
    ws, acts := Extend(ws, acts, w, Tick(86390.0));
    w := Do(w, Tick(86390.0));
    ws, acts, w := ClaimedThenDropped(ws, acts, w);
    ws, acts := Extend(ws, acts, w, Post(7, "event"));
    w := Do(w, Post(7, "event"));
    ClaimAlone(w, 2, 7);
    ws, acts := Extend(ws, acts, w, Claim(2, {7}));
    w := Do(w, Claim(2, {7}));
  }

  lemma ClaimedThenDropped(ws: seq<World>, acts: seq<Action>, w: World)
      returns (ws': seq<World>, acts': seq<Action>, w': World)
    requires InLeaseRun(ws, acts, w) && w.now == 86390.0 && w.senders == map[]
    requires Due(w.rows, w.now, 7) && w.rows[7].createdAt == 0.0
    ensures InLeaseRun(ws', acts', w') && w'.now == 86401.0 && 7 !in w'.rows
    ensures w'.senders.Keys == {1} && 7 in Held(w'.senders[1]) && w'.senders[1].since == 86390.0 && !w'.senders[1].Idle?
  {
    ClaimAlone(w, 1, 7);
    ws', acts' := Extend(ws, acts, w, Claim(1, {7}));
    w' := Do(w, Claim(1, {7}));
    ws', acts' := Extend(ws', acts', w', Tick(86401.0));
    w' := Do(w', Tick(86401.0));
    ws', acts' := Extend(ws', acts', w', DropStale);
    w' := Do(w', DropStale);
  }

  /** A due row on its own can be claimed. */
  lemma ClaimAlone(w: World, s: SenderId, id: Uuid)
    requires At(w, s).Idle? && Due(w.rows, w.now, id)
    ensures Enabled(w, Claim(s, {id}))
    ensures var w' := Do(w, Claim(s, {id}));
            && Holds(w', s, id) && w'.senders[s].since == w.now && w'.now == w.now
            && (forall s' :: s' != s ==> (s' in w'.senders <==> s' in w.senders) && At(w', s') == At(w, s'))
            && (forall x :: x in w.rows <==> x in w'.rows)
            && w'.rows[id] == w.rows[id].(nextAttempt := w.now + LEASE)
  {
  }

  /** What may follow `w` with every sender within its lease and no such post. */
  ghost predicate LeadsInLease(w: World, acts: seq<Action>, w': World)
    decreases |acts|
  {
    InLease(w) &&
    if acts == [] then w == w'
    else Enabled(w, acts[0]) && NoRepostOfHeld(w, acts[0]) && LeadsInLease(Do(w, acts[0]), acts[1..], w')
  }

  /** Whatever disciplined steps follow, no row gets two holders. */
  ghost predicate StaysSafe(w: World) {
    forall acts, w' :: LeadsInLease(w, acts, w') ==> OneHolder(w')
  }

  lemma {:induction false} LeadsToOneHolder(w: World, acts: seq<Action>, w': World)
    requires LeadsInLease(w, acts, w') && OneHolder(w) && HeldNotDue(w)
    ensures OneHolder(w')
    decreases |acts|
  {
    if acts != [] {
      StepKeepsOneHolder(w, acts[0]);
      LeadsToOneHolder(Do(w, acts[0]), acts[1..], w');
    }
  }

  /** A single post decides it: from any state that a disciplined run may reach, everything that
      may follow the post is safe if and only if its row is there already or no sender holds the id. */
  lemma PostSafeExactly(w: World, id: Uuid, body: Body)
    requires InLease(w) && OneHolder(w) && HeldNotDue(w)
    ensures StaysSafe(Do(w, Post(id, body))) <==> NoRepostOfHeld(w, Post(id, body))
  {
    var w1 := Do(w, Post(id, body));
    if NoRepostOfHeld(w, Post(id, body)) {
      StepKeepsOneHolder(w, Post(id, body));
      forall acts, w' | LeadsInLease(w1, acts, w') ensures OneHolder(w') {
        LeadsToOneHolder(w1, acts, w');
      }
    } else {
      var s :| s in w.senders && id in Held(w.senders[s]);
      SecondHolder(w1, s, id);
    }
  }

  /** A held row that is due is claimed by one more sender. */
  lemma SecondHolder(w: World, s: SenderId, id: Uuid)
    requires InLease(w) && Holds(w, s, id) && Due(w.rows, w.now, id)
    ensures !StaysSafe(w)
  {
    var s' := NewId(w.senders.Keys);
    ClaimAlone(w, s', id);
    var a := Claim(s', {id});
    var w' := Do(w, a);
    assert InLease(w');
    assert At(w', s) == At(w, s) && Holds(w', s, id);
    assert [a][1..] == [];
    assert LeadsInLease(w', [], w');
    assert LeadsInLease(w, [a], w');
  }

  // ---------------------------------------------------------------- how soon

  /** No undelivered row waits more than six minutes. */
  ghost predicate DueWithin360(w: World) {
    forall id :: Undelivered(w.rows, id) ==> w.rows[id].nextAttempt <= w.now + 360.0
  }

  lemma StepKeepsDue(w: World, a: Action)
    requires Enabled(w, a) && DueWithin360(w)
    ensures DueWithin360(Do(w, a))
  {
    var w' := Do(w, a);
    forall id | Undelivered(w'.rows, id) ensures w'.rows[id].nextAttempt <= w'.now + 360.0 {
      if a.BackOff? && a.ok && id in At(w, a.s).rest {
        RescheduledSoon(w.rows, At(w, a.s).rest, w.now, a.random, id);
      }
    }
  }

  lemma {:induction false} AlwaysDueWithin360(ws: seq<World>, acts: seq<Action>, i: nat)
    requires Run(ws, acts) && i < |ws|
    ensures DueWithin360(ws[i])
    decreases i
  {
    if i > 0 {
      AlwaysDueWithin360(ws, acts, i - 1);
      assert Next(ws[i - 1], acts[i - 1], ws[i - 1 + 1]);
      StepKeepsDue(ws[i - 1], acts[i - 1]);
    }
  }
}
