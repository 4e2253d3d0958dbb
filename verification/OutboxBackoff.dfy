/** How often a row can fail before it is dropped. */
module OutboxBackoff {
  import opened Wrappers
  import opened Outbox
  import opened OutboxProtocol
  import opened OutboxLease

  /** The least time `n` backoffs take. */
  ghost function MinAge(n: nat): Time {
    if n == 0 then 0.0 else MinAge(n - 1) + 0.8 * Backoff(n)
  }

  lemma {:induction false} MinAgeFrom8(n: nat)
    requires n >= 8
    ensures MinAge(n) == 0.8 * (510.0 + 300.0 * (n - 8) as real)
  {
    if n == 8 {
      assert Power2(1) == 2 && Power2(2) == 4 && Power2(3) == 8 && Power2(4) == 16;
      assert Power2(5) == 32 && Power2(6) == 64 && Power2(7) == 128 && Power2(8) == 256;
      assert MinAge(4) == 0.8 * 30.0;
    } else {
      MinAgeFrom8(n - 1);
      BackoffBounds(n);
    }
  }

  lemma {:induction false} MinAgeGrows(m: nat, n: nat)
    requires m <= n
    ensures MinAge(m) <= MinAge(n)
  {
    if m < n {
      MinAgeGrows(m, n - 1);
      BackoffBounds(n);
    }
  }

  // ---------------------------------------------------------------- failures that follow their own claims

  /** Step `i` counts a failure of `id`. */
  ghost predicate FailsAt(ws: seq<World>, acts: seq<Action>, i: nat, id: Uuid) {
    && i < |acts| < |ws| && Undelivered(ws[i].rows, id) && id in ws[i + 1].rows
    && ws[i + 1].rows[id].attempts == ws[i].rows[id].attempts + 1
  }

  /** Step `k` claims `id`, and from there to state `i` no failure of it is counted and its row stays
      in the table. */
  ghost predicate ClaimedSince(ws: seq<World>, acts: seq<Action>, k: nat, i: nat, id: Uuid) {
    && k < i <= |acts| < |ws| && acts[k].Claim? && id in acts[k].ids
    && forall m: nat :: k < m <= i ==> id in ws[m].rows && (m < i ==> !FailsAt(ws, acts, m, id))
  }

  /** Each failure of `id` counted in the first `n` steps follows a claim of its own. */
  ghost predicate FailuresClaimed(ws: seq<World>, acts: seq<Action>, n: nat, id: Uuid) {
    forall i: nat :: i < n && FailsAt(ws, acts, i, id) ==> exists k: nat :: ClaimedSince(ws, acts, k, i, id)
  }

  lemma StepOnRow(w: World, a: Action, id: Uuid)
    requires Enabled(w, a) && id in w.rows && id in Do(w, a).rows
    ensures var r, r' := w.rows[id], Do(w, a).rows[id];
            && r'.createdAt == r.createdAt
            && (r'.attempts == r.attempts || (r'.attempts == r.attempts + 1 && Undelivered(w.rows, id)))
    ensures w.now <= Do(w, a).now
  {
  }

  /** From its claim to its failure a row keeps its age and its count. */
  lemma {:induction false} SameSinceClaim(ws: seq<World>, acts: seq<Action>, k: nat, i: nat, id: Uuid)
    requires Run(ws, acts) && ClaimedSince(ws, acts, k, i, id)
    ensures Due(ws[k].rows, ws[k].now, id) && ws[k].now <= ws[i].now
    ensures ws[i].rows[id].createdAt == ws[k].rows[id].createdAt && ws[i].rows[id].attempts == ws[k].rows[id].attempts
    decreases i
  {
    assert Next(ws[i - 1], acts[i - 1], ws[i - 1 + 1]);
    if k < i - 1 {
      assert ClaimedSince(ws, acts, k, i - 1, id);
      SameSinceClaim(ws, acts, k, i - 1, id);
      StepOnRow(ws[i - 1], acts[i - 1], id);
      assert !FailsAt(ws, acts, i - 1, id);
    }
  }

  /** The row is due, and its last failure was counted, no earlier than its backoffs allow. */
  ghost predicate RowSpaced(w: World, id: Uuid) {
    Undelivered(w.rows, id) ==>
      var r := w.rows[id];
      && r.nextAttempt >= r.createdAt + MinAge(r.attempts)
      && (r.attempts > 0 ==> w.now >= r.createdAt + MinAge(r.attempts - 1))
  }

  /** A step that counts no failure. */
  lemma StepKeepsSpaced(w: World, a: Action, id: Uuid)
    requires Enabled(w, a) && RowSpaced(w, id) && Undelivered(Do(w, a).rows, id)
    requires Undelivered(w.rows, id) ==> Do(w, a).rows[id].attempts != w.rows[id].attempts + 1
    ensures RowSpaced(Do(w, a), id)
  {
    if id in w.rows {
      StepOnRow(w, a, id);
    }
    if a.Claim? && id in a.ids {
      assert Due(w.rows, w.now, id);
    }
  }

  /** A step that counts a failure of a row claimed late enough. */
  lemma FailureKeepsSpaced(w: World, a: Action, id: Uuid)
    requires Enabled(w, a) && Undelivered(w.rows, id) && id in Do(w, a).rows
    requires Do(w, a).rows[id].attempts == w.rows[id].attempts + 1
    requires w.now >= w.rows[id].createdAt + MinAge(w.rows[id].attempts)
    ensures RowSpaced(Do(w, a), id)
  {
    assert a.BackOff? && a.ok && id in At(w, a.s).rest;
    RescheduledSoon(w.rows, At(w, a.s).rest, w.now, a.random, id);
  }

  lemma {:induction false} AlwaysSpaced(ws: seq<World>, acts: seq<Action>, i: nat, id: Uuid)
    requires Run(ws, acts) && i < |ws| && FailuresClaimed(ws, acts, i, id)
    ensures RowSpaced(ws[i], id)
    decreases i
  {
    if i > 0 && Undelivered(ws[i].rows, id) {
      var w, a := ws[i - 1], acts[i - 1];
      AlwaysSpaced(ws, acts, i - 1, id);
      assert Next(w, a, ws[i - 1 + 1]);
      if FailsAt(ws, acts, i - 1, id) {
        OldEnough(ws, acts, i - 1, id);
        FailureKeepsSpaced(w, a, id);
      } else {
        StepKeepsSpaced(w, a, id);
      }
    }
  }

  lemma {:induction false} OldEnough(ws: seq<World>, acts: seq<Action>, i: nat, id: Uuid)
    requires Run(ws, acts) && FailsAt(ws, acts, i, id) && FailuresClaimed(ws, acts, i + 1, id)
    ensures ws[i].now >= ws[i].rows[id].createdAt + MinAge(ws[i].rows[id].attempts)
    decreases i, 0
  {
    var k: nat :| ClaimedSince(ws, acts, k, i, id);
    AlwaysSpaced(ws, acts, k, id);
    SameSinceClaim(ws, acts, k, i, id);
  }

  /** When a row's failure number `n` is counted, the row is at least as old as the first `n - 1`
      backoffs are long, if each of its failures followed a claim of its own. */
  lemma AgeAtFailure(ws: seq<World>, acts: seq<Action>, i: nat, id: Uuid)
    requires Run(ws, acts) && FailsAt(ws, acts, i, id) && FailuresClaimed(ws, acts, i + 1, id)
    ensures ws[i].now - ws[i].rows[id].createdAt >= MinAge(ws[i + 1].rows[id].attempts - 1)
  {
    OldEnough(ws, acts, i, id);
  }

  /** Such a row, no older than the drop age, has failed at most 367 times. */
  lemma AtMost367Failures(ws: seq<World>, acts: seq<Action>, i: nat, id: Uuid)
    requires Run(ws, acts) && i < |ws| && FailuresClaimed(ws, acts, i, id)
    requires Undelivered(ws[i].rows, id) && ws[i].now - ws[i].rows[id].createdAt <= STALE_AFTER
    ensures ws[i].rows[id].attempts <= 367
  {
    AlwaysSpaced(ws, acts, i, id);
    var n := ws[i].rows[id].attempts;
    if n > 367 {
      MinAgeGrows(367, n - 1);
      MinAgeFrom8(367);
    }
  }

  // ---------------------------------------------------------------- within leases

  /** Within leases a held row was claimed since its last failure. */
  lemma {:induction false} HeldWasClaimed(ws: seq<World>, acts: seq<Action>, i: nat, s: SenderId, id: Uuid)
      returns (k: nat)
    requires DisciplinedRun(ws, acts) && i < |ws| && Holds(ws[i], s, id)
    ensures ClaimedSince(ws, acts, k, i, id)
    decreases i
  {
    var w, a := ws[i - 1], acts[i - 1];
    assert Next(w, a, ws[i - 1 + 1]);
    NoTwoHolders(ws, acts, i - 1);
    StepOfHolder(w, a, s, id);
    if Holds(w, s, id) {
      k := HeldWasClaimed(ws, acts, i - 1, s, id);
      NotFailed(w, a, s, id);
    } else {
      k := i - 1;
    }
  }

  /** A row that its one holder keeps holding does not fail. */
  lemma NotFailed(w: World, a: Action, s: SenderId, id: Uuid)
    requires Enabled(w, a) && OneHolder(w) && Holds(w, s, id) && Holds(Do(w, a), s, id)
    ensures Do(w, a).rows[id].attempts == w.rows[id].attempts
  {
    if a.BackOff? && a.s != s {
      OthersDoNot(w, s, a.s, id);
    }
  }

  /** With batches finished within their lease, and no id posted again while held once its row is
      gone, every failure follows a claim of its own. */
  lemma InLeaseFailuresClaimed(ws: seq<World>, acts: seq<Action>, n: nat, id: Uuid)
    requires DisciplinedRun(ws, acts) && n <= |acts|
    ensures FailuresClaimed(ws, acts, n, id)
  {
    forall i: nat | i < n && FailsAt(ws, acts, i, id) ensures exists k: nat :: ClaimedSince(ws, acts, k, i, id) {
      assert Next(ws[i], acts[i], ws[i + 1]);
      var a := acts[i];
      assert a.BackOff? && Holds(ws[i], a.s, id);
      var k := HeldWasClaimed(ws, acts, i, a.s, id);
    }
  }

  lemma InLeaseAgeAtFailure(ws: seq<World>, acts: seq<Action>, i: nat, id: Uuid)
    requires DisciplinedRun(ws, acts) && FailsAt(ws, acts, i, id)
    ensures ws[i].now - ws[i].rows[id].createdAt >= MinAge(ws[i + 1].rows[id].attempts - 1)
  {
    InLeaseFailuresClaimed(ws, acts, i + 1, id);
    AgeAtFailure(ws, acts, i, id);
  }

  lemma InLeaseAtMost367Failures(ws: seq<World>, acts: seq<Action>, i: nat, id: Uuid)
    requires DisciplinedRun(ws, acts) && i < |ws|
    requires Undelivered(ws[i].rows, id) && ws[i].now - ws[i].rows[id].createdAt <= STALE_AFTER
    ensures ws[i].rows[id].attempts <= 367
  {
    InLeaseFailuresClaimed(ws, acts, i, id);
    AtMost367Failures(ws, acts, i, id);
  }

  // ---------------------------------------------------------------- without it

  /** A run to `w` in which `n` senders have claimed row 7, posted at 0, each as the lease before it
      ran out, and none is done with it. */
  ghost predicate Overrun(ws: seq<World>, acts: seq<Action>, w: World, n: nat) {
    && Run(ws, acts) && ws[|ws| - 1] == w && w.now == 30.0 * n as real
    && w.rows.Keys == {7} && Due(w.rows, w.now, 7) && w.rows[7].createdAt == 0.0 && w.rows[7].attempts == 0
    && forall s: nat :: if s < n then At(w, s).Sending? && At(w, s).batch.Keys == {7} else At(w, s).Idle?
  }

  lemma ExtendRun(ws: seq<World>, acts: seq<Action>, a: Action) returns (ws': seq<World>, acts': seq<Action>, w': World)
    requires Run(ws, acts) && Enabled(ws[|ws| - 1], a)
    ensures Run(ws', acts') && ws'[|ws'| - 1] == w' == Do(ws[|ws| - 1], a)
    ensures acts' == acts + [a] && ws' == ws + [w']
  {
    w' := Do(ws[|ws| - 1], a);
    ws', acts' := ws + [w'], acts + [a];
    forall i | 0 <= i < |acts'| ensures Next(ws'[i], acts'[i], ws'[i + 1]) {
      if i < |acts| {
        assert Next(ws[i], acts[i], ws[i + 1]);
      }
    }
  }

  lemma {:induction false} OverrunRun(n: nat) returns (ws: seq<World>, acts: seq<Action>, w: World)
    ensures Overrun(ws, acts, w, n)
  {
    if n == 0 {
      w := World(0.0, map[], map[], map[], {}, {}, 0);
      ws, acts, w := ExtendRun([w], [], Post(7, "event"));
    } else {
      ws, acts, w := OverrunRun(n - 1);
      ClaimAlone(w, n - 1, 7);
      ws, acts, w := ExtendRun(ws, acts, Claim(n - 1, {7}));
      ws, acts, w := ExtendRun(ws, acts, Tick(30.0 * n as real));
    }
  }

  /** The first `m` of `n` such senders back off. */
  ghost predicate BackedOff(ws: seq<World>, acts: seq<Action>, w: World, n: nat, m: nat) {
    && Run(ws, acts) && ws[|ws| - 1] == w && w.now == 30.0 * n as real
    && w.rows.Keys == {7} && Undelivered(w.rows, 7) && w.rows[7].createdAt == 0.0 && w.rows[7].attempts == m
    && forall s: nat :: m <= s < n ==> At(w, s).Sending? && At(w, s).batch.Keys == {7}
  }

  lemma {:induction false} BackOffRun(n: nat, m: nat) returns (ws: seq<World>, acts: seq<Action>, w: World)
    requires m <= n
    ensures BackedOff(ws, acts, w, n, m)
    ensures m > 0 ==> FailsAt(ws, acts, |acts| - 1, 7) && ws[|acts| - 1].now == w.now
    decreases m
  {
    if m == 0 {
      ws, acts, w := OverrunRun(n);
    } else {
      ws, acts, w := BackOffRun(n, m - 1);
      var w0 := w;
      ws, acts, w := ExtendRun(ws, acts, NoReply(m - 1));
      ws, acts, w := ExtendRun(ws, acts, BackOff(m - 1, true, map[7 := 0.0]));
      forall s: nat | m <= s < n ensures At(w, s) == At(w0, s) {
      }
    }
  }

  /** Without that condition the bound fails: nine senders that overrun their leases count nine
      failures of a row 270 seconds old, and its first eight backoffs take 408. */
  lemma OverrunsBreakTheAge() returns (ws: seq<World>, acts: seq<Action>)
    ensures Run(ws, acts) && |acts| > 0 && FailsAt(ws, acts, |acts| - 1, 7)
    ensures ws[|acts| - 1].now - ws[|acts| - 1].rows[7].createdAt < MinAge(ws[|acts|].rows[7].attempts - 1)
  {
    var w: World;
    ws, acts, w := BackOffRun(9, 9);
    MinAgeFrom8(8);
    assert Next(ws[|acts| - 1], acts[|acts| - 1], ws[|acts| - 1 + 1]);
    StepOnRow(ws[|acts| - 1], acts[|acts| - 1], 7);
  }
}
