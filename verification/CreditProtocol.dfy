/** Any number of credit checks at once over one cache, step by step: the cache read, the backoff
    read, the request, the two writes and the fallback read of each interleave freely. */
module CreditProtocol {
  import opened Wrappers
  import opened Runs
  import opened CreditCache

  type CallId = nat

  datatype Phase =
    | Begun
    | Missed
    | Asking
    | Answered(lookup: Lookup)
    | Failed
    | Storing(lookup: Lookup)
    | Falling
    | Done(found: Option<Lookup>)

  /** A check of `account` that read the clock at `start`. */
  datatype Check = Check(account: string, start: Time, phase: Phase)

  /** What the Lab said about an account, and when that arrived. */
  datatype Answer = Answer(account: string, lookup: Lookup, at: Time)

  datatype World = World(
    now: Time, accounts: Accounts, lastFailure: Option<Time>, checks: map<CallId, Check>, answers: set<Answer>)

  datatype Action =
    | Tick(to: Time)
    | Begin(c: CallId, account: string)
    | ReadCache(c: CallId)
    | ReadBackoff(c: CallId)
    | LabAnswers(c: CallId, lookup: Lookup)
    | LabFails(c: CallId)
    | NoteOutcome(c: CallId)
    | Store(c: CallId)
    | ReadStale(c: CallId)

  predicate Enabled(w: World, a: Action) {
    match a
    case Tick(to) => w.now <= to
    case Begin(c, account) => c !in w.checks && IsLabAccount(account)
    case ReadCache(c) => c in w.checks && w.checks[c].phase.Begun?
    case ReadBackoff(c) => c in w.checks && w.checks[c].phase.Missed?
    case LabAnswers(c, _) => c in w.checks && w.checks[c].phase.Asking?
    case LabFails(c) => c in w.checks && w.checks[c].phase.Asking?
    case NoteOutcome(c) => c in w.checks && (w.checks[c].phase.Answered? || w.checks[c].phase.Failed?)
    case Store(c) => c in w.checks && w.checks[c].phase.Storing?
    case ReadStale(c) => c in w.checks && w.checks[c].phase.Falling?
  }

  function Go(w: World, c: CallId, p: Phase): World
    requires c in w.checks
  {
    w.(checks := w.checks[c := w.checks[c].(phase := p)])
  }

  function Do(w: World, a: Action): World
    requires Enabled(w, a)
  {
    match a
    case Tick(to) => w.(now := to)
    case Begin(c, account) => w.(checks := w.checks[c := Check(account, w.now, Begun)])
    case ReadCache(c) =>
      var k := w.checks[c];
      Go(w, c, if Usable(w.accounts, k.account, k.start, FRESH_FOR) then Done(Some(w.accounts[k.account].lookup))
          else Missed)
    case ReadBackoff(c) => Go(w, c, if BackingOff(w.lastFailure, w.checks[c].start) then Falling else Asking)
    case LabAnswers(c, l) => Go(w, c, Answered(l)).(answers := w.answers + {Answer(w.checks[c].account, l, w.now)})
    case LabFails(c) => Go(w, c, Failed)
    case NoteOutcome(c) =>
      var p := w.checks[c].phase;
      if p.Answered? then Go(w, c, Storing(p.lookup)).(lastFailure := None)
      else Go(w, c, Falling).(lastFailure := Some(w.now))
    case Store(c) =>
      var k := w.checks[c];
      Go(w, c, Done(Some(k.phase.lookup))).(accounts := w.accounts[k.account := Cached(k.start, k.phase.lookup)])
    case ReadStale(c) =>
      var k := w.checks[c];
      Go(w, c, Done(if Usable(w.accounts, k.account, k.start, STALE_FOR) then Some(w.accounts[k.account].lookup)
          else None))
  }

  /** A step as one function. */
  function Step(w: World, a: Action): Option<World> {
    if Enabled(w, a) then Some(Do(w, a)) else None
  }

  ghost predicate Run(ws: seq<World>, acts: seq<Action>) {
    && |ws| == |acts| + 1
    && ws[0].accounts == map[] && ws[0].checks == map[] && ws[0].answers == {}
    && forall i :: 0 <= i < |acts| ==> Enabled(ws[i], acts[i]) && ws[i + 1] == Do(ws[i], acts[i])
  }

  // ---------------------------------------------------------------- a lookup is a run

  /** What the cache remembers after a lookup with no other in between is what these steps leave, and
      the lookup finds the same. */
  lemma LookupIsARun(w: World, c: CallId, account: string, answer: Option<Lookup>, seenAt: Time)
      returns (acts: seq<Action>, w': World)
    requires c !in w.checks && IsLabAccount(account) && w.now <= seenAt
    ensures Leads(Step, w, acts, w') && c in w'.checks
    ensures w'.checks[c].phase.Done?
    ensures Outcome(w'.checks[c].phase.found, w'.accounts, w'.lastFailure)
         == LookedUp(w.accounts, w.lastFailure, account, w.now, answer, seenAt)
  {
    acts, w' := Further(Step, w, [], w, Begin(c, account));
    acts, w' := Further(Step, w, acts, w', ReadCache(c));
    if w'.checks[c].phase.Missed? {
      acts, w' := Further(Step, w, acts, w', ReadBackoff(c));
      if w'.checks[c].phase.Asking? {
        var rest, noted := AskingRun(w', c, answer, seenAt);
        LeadsJoin(Step, w, acts, w', rest, noted);
        acts, w' := acts + rest, noted;
      }
      acts, w' := Further(Step, w, acts, w', if w'.checks[c].phase.Storing? then Store(c) else ReadStale(c));
    }
  }

  /** The request, and the note of how it went. */
  lemma AskingRun(w: World, c: CallId, answer: Option<Lookup>, seenAt: Time) returns (acts: seq<Action>, w': World)
    requires c in w.checks && w.checks[c].phase.Asking? && w.now <= seenAt
    ensures Leads(Step, w, acts, w') && c in w'.checks && w'.accounts == w.accounts
    ensures w'.checks[c] == w.checks[c].(phase := if answer.Some? then Storing(answer.value) else Falling)
    ensures w'.lastFailure == if answer.Some? then None else Some(seenAt)
  {
    acts, w' := Further(Step, w, [], w, Tick(seenAt));
    acts, w' := Further(Step, w, acts, w', if answer.Some? then LabAnswers(c, answer.value) else LabFails(c));
    acts, w' := Further(Step, w, acts, w', NoteOutcome(c));
  }

  // ---------------------------------------------------------------- what backs a decision

  /** The Lab gave this lookup of the account, no earlier than `from`. */
  ghost predicate Backed(w: World, account: string, l: Lookup, from: Time) {
    exists n :: n in w.answers && n.account == account && n.lookup == l && from <= n.at <= w.now
  }

  ghost predicate CacheBacked(w: World) {
    forall a :: a in w.accounts ==> Backed(w, a, w.accounts[a].lookup, w.accounts[a].fetchedAt)
  }

  ghost predicate CheckBacked(w: World, k: Check) {
    match k.phase
    case Answered(l) => Backed(w, k.account, l, k.start)
    case Storing(l) => Backed(w, k.account, l, k.start)
    case Done(Some(l)) => Backed(w, k.account, l, k.start - STALE_FOR)
    case _ => true
  }

  ghost predicate ChecksBacked(w: World) {
    forall c :: c in w.checks ==> CheckBacked(w, w.checks[c]) && w.checks[c].start <= w.now
  }

  lemma BackedStays(w: World, a: Action, account: string, l: Lookup, from: Time, from': Time)
    requires Enabled(w, a) && Backed(w, account, l, from) && from' <= from
    ensures Backed(Do(w, a), account, l, from')
  {
    var n :| n in w.answers && n.account == account && n.lookup == l && from <= n.at <= w.now;
    assert n in Do(w, a).answers;
  }

  lemma StepKeepsCacheBacked(w: World, a: Action)
    requires Enabled(w, a) && CacheBacked(w) && ChecksBacked(w)
    ensures CacheBacked(Do(w, a))
  {
    var w' := Do(w, a);
    forall x | x in w'.accounts ensures Backed(w', x, w'.accounts[x].lookup, w'.accounts[x].fetchedAt) {
      var from := w'.accounts[x].fetchedAt;
      if a.Store? && x == w.checks[a.c].account {
        assert CheckBacked(w, w.checks[a.c]);
      }
      BackedStays(w, a, x, w'.accounts[x].lookup, from, from);
    }
  }

  /** A usable entry backs the result of the check that reads it. */
  lemma UsableBacks(w: World, a: Action, k: Check, window: Time)
    requires Enabled(w, a) && CacheBacked(w) && window <= STALE_FOR
    requires Usable(w.accounts, k.account, k.start, window)
    ensures Backed(Do(w, a), k.account, w.accounts[k.account].lookup, k.start - STALE_FOR)
  {
    var e := w.accounts[k.account];
    BackedStays(w, a, k.account, e.lookup, e.fetchedAt, k.start - STALE_FOR);
  }

  lemma StepKeepsCheckBacked(w: World, a: Action, c: CallId)
    requires Enabled(w, a) && CacheBacked(w) && ChecksBacked(w) && c in Do(w, a).checks
    ensures CheckBacked(Do(w, a), Do(w, a).checks[c]) && Do(w, a).checks[c].start <= Do(w, a).now
  {
    if c in w.checks {
      var k := w.checks[c];
      assert CheckBacked(w, k);
      match k.phase {
        case Answered(l) => BackedStays(w, a, k.account, l, k.start, k.start);
        case Storing(l) =>
          BackedStays(w, a, k.account, l, k.start, k.start);
          BackedStays(w, a, k.account, l, k.start, k.start - STALE_FOR);
        case Done(Some(l)) => BackedStays(w, a, k.account, l, k.start - STALE_FOR, k.start - STALE_FOR);
        case Begun =>
          if a == ReadCache(c) && Usable(w.accounts, k.account, k.start, FRESH_FOR) {
            UsableBacks(w, a, k, FRESH_FOR);
          }
        case Falling =>
          if a == ReadStale(c) && Usable(w.accounts, k.account, k.start, STALE_FOR) {
            UsableBacks(w, a, k, STALE_FOR);
          }
        case Asking =>
          if a.LabAnswers? && a.c == c {
            assert Answer(k.account, a.lookup, w.now) in Do(w, a).answers;
          }
        case _ =>
      }
    }
  }

  lemma {:induction false} AlwaysBacked(ws: seq<World>, acts: seq<Action>, i: nat)
    requires Run(ws, acts) && i < |ws|
    ensures CacheBacked(ws[i]) && ChecksBacked(ws[i])
    decreases i
  {
    if i > 0 {
      AlwaysBacked(ws, acts, i - 1);
      var w, a := ws[i - 1], acts[i - 1];
      assert Enabled(w, a) && ws[i - 1 + 1] == Do(w, a);
      StepKeepsCacheBacked(w, a);
      forall c | c in Do(w, a).checks {
        StepKeepsCheckBacked(w, a, c);
      }
    }
  }

  /** In every interleaving, work is allowed only on the Lab's word for that very account, that it
      can spend, received no earlier than 300 s before the check began. */
  lemma AllowedIsBacked(ws: seq<World>, acts: seq<Action>, i: nat, c: CallId)
    requires Run(ws, acts) && i < |ws| && c in ws[i].checks
    requires ws[i].checks[c].phase.Done? && DecisionOf(ws[i].checks[c].phase.found) == Allowed
    ensures exists n :: n in ws[i].answers && n.account == ws[i].checks[c].account && n.lookup.CanSpend()
                     && n.at >= ws[i].checks[c].start - STALE_FOR
  {
    AlwaysBacked(ws, acts, i);
    assert CheckBacked(ws[i], ws[i].checks[c]);
  }

  // ---------------------------------------------------------------- a Lab that is down

  /** This step of a check decides to ask, between `from` and `to`. */
  predicate DecidesToAsk(w: World, a: Action, from: Time, to: Time) {
    && a.ReadBackoff? && Enabled(w, a) && !BackingOff(w.lastFailure, w.checks[a.c].start) && from <= w.now <= to
  }

  /** So does step `i` of the run. */
  ghost predicate AskedAt(ws: seq<World>, acts: seq<Action>, i: nat, from: Time, to: Time) {
    i < |acts| < |ws| && DecidesToAsk(ws[i], acts[i], from, to)
  }

  /** How many of the first `n` steps are. */
  ghost function AskedIn(ws: seq<World>, acts: seq<Action>, n: nat, from: Time, to: Time): nat {
    if n == 0 then 0 else AskedIn(ws, acts, n - 1, from, to) + if AskedAt(ws, acts, n - 1, from, to) then 1 else 0
  }

  /** The Lab answers nothing. */
  ghost predicate LabDown(acts: seq<Action>) {
    forall a :: a in acts ==> !a.LabAnswers?
  }

  function InFlight(w: World): set<CallId> {
    set c | c in w.checks && !w.checks[c].phase.Done?
  }

  /** At most `most` checks are ever in flight at once. */
  ghost predicate AtOnce(ws: seq<World>, most: nat) {
    forall w :: w in ws ==> |InFlight(w)| <= most
  }

  /** What holds of the clock, the last failure and the checks while the Lab is down. */
  ghost predicate Down(w: World) {
    && (w.lastFailure.Some? ==> w.lastFailure.value <= w.now)
    && forall c :: c in w.checks
         ==> w.checks[c].start <= w.now && !w.checks[c].phase.Answered? && !w.checks[c].phase.Storing?
  }

  lemma StepKeepsDown(w: World, a: Action)
    requires Enabled(w, a) && Down(w) && !a.LabAnswers?
    ensures Down(Do(w, a)) && w.now <= Do(w, a).now
  {
  }

  /** `rounds` noted failures ended rounds of requests made since `from`; the requests of the round
      that is still open are those of `open`. */
  ghost predicate Rounds(w: World, rounds: nat, open: set<CallId>, from: Time, to: Time) {
    && open <= w.checks.Keys
    && (forall c :: c in open ==> w.checks[c].phase.Asking? || w.checks[c].phase.Failed?)
    && (rounds > 0 ==> w.lastFailure.Some? && RoundStart(from, rounds - 1) <= w.lastFailure.value)
    && (rounds > 0 ==> RoundStart(from, rounds - 1) <= to)
    && (open != {} ==> RoundStart(from, rounds) <= w.now && RoundStart(from, rounds) <= to)
  }

  /** The earliest that a round after `k` others can begin. */
  function RoundStart(from: Time, k: nat): Time {
    from + FAILURE_BACKOFF * k as real
  }

  lemma OpenFits(w: World, open: set<CallId>, most: nat)
    requires |InFlight(w)| <= most && open <= w.checks.Keys
    requires forall c :: c in open ==> w.checks[c].phase.Asking? || w.checks[c].phase.Failed?
    ensures |open| <= most
  {
    assert open <= InFlight(w);
    SubsetSize(open, InFlight(w));
  }

  /** A request that comes after a noted failure is at least a backoff later. */
  lemma AskOpens(w: World, a: Action, rounds: nat, open: set<CallId>, from: Time, to: Time)
    requires Down(w) && Rounds(w, rounds, open, from, to) && DecidesToAsk(w, a, from, to)
    ensures a.c !in open && Rounds(Do(w, a), rounds, open + {a.c}, from, to)
  {
    assert rounds > 0 ==> RoundStart(from, rounds - 1) + FAILURE_BACKOFF == RoundStart(from, rounds);
  }

  /** A noted failure ends the open round. */
  lemma FailureCloses(w: World, a: Action, rounds: nat, open: set<CallId>, from: Time, to: Time)
    requires Down(w) && Rounds(w, rounds, open, from, to) && Enabled(w, a) && a.NoteOutcome?
    ensures Rounds(Do(w, a), if open == {} then rounds else rounds + 1, {}, from, to)
  {
  }

  lemma OtherStepKeepsRounds(w: World, a: Action, rounds: nat, open: set<CallId>, from: Time, to: Time)
    requires Down(w) && Rounds(w, rounds, open, from, to) && Enabled(w, a) && !a.LabAnswers? && !a.NoteOutcome?
    ensures Rounds(Do(w, a), rounds, open, from, to)
  {
  }

  lemma {:induction false} AskedInRounds(ws: seq<World>, acts: seq<Action>, n: nat, from: Time, to: Time, most: nat)
    returns (rounds: nat, open: set<CallId>)
    requires Run(ws, acts) && LabDown(acts) && AtOnce(ws, most) && n <= |acts|
    requires ws[0].lastFailure == None
    ensures Down(ws[n]) && Rounds(ws[n], rounds, open, from, to)
    ensures AskedIn(ws, acts, n, from, to) <= most * rounds + |open|
  {
    if n == 0 {
      rounds, open := 0, {};
    } else {
      rounds, open := AskedInRounds(ws, acts, n - 1, from, to, most);
      var w, a := ws[n - 1], acts[n - 1];
      assert Enabled(w, a) && ws[n - 1 + 1] == Do(w, a) && a in acts && w in ws;
      rounds, open := NextRounds(w, a, rounds, open, from, to, most);
    }
  }

  lemma NextRounds(w: World, a: Action, rounds: nat, open: set<CallId>, from: Time, to: Time, most: nat)
    returns (rounds': nat, open': set<CallId>)
    requires Down(w) && Rounds(w, rounds, open, from, to) && Enabled(w, a) && !a.LabAnswers? && |InFlight(w)| <= most
    ensures Down(Do(w, a)) && Rounds(Do(w, a), rounds', open', from, to)
    ensures most * rounds + |open| + (if DecidesToAsk(w, a, from, to) then 1 else 0) <= most * rounds' + |open'|
  {
    StepKeepsDown(w, a);
    rounds', open' := rounds, open;
    if DecidesToAsk(w, a, from, to) {
      AskOpens(w, a, rounds, open, from, to);
      open' := open + {a.c};
    } else if a.NoteOutcome? {
      FailureCloses(w, a, rounds, open, from, to);
      OpenFits(w, open, most);
      RoundMore(most, rounds);
      rounds', open' := if open == {} then rounds else rounds + 1, {};
    } else {
      OtherStepKeepsRounds(w, a, rounds, open, from, to);
    }
  }

  lemma RoundMore(most: nat, rounds: nat)
    ensures most * rounds + most == most * (rounds + 1)
  {
  }

  /** While the Lab is down, a window of time sees at most one request per check in flight for each ten
      seconds and one more, over all accounts and however the checks interleave. */
  lemma InterleavedBudget(ws: seq<World>, acts: seq<Action>, n: nat, from: Time, to: Time, most: nat)
    requires Run(ws, acts) && LabDown(acts) && AtOnce(ws, most) && n <= |acts| && from <= to
    requires ws[0].lastFailure == None
    ensures AskedIn(ws, acts, n, from, to) <= most * (((to - from) / FAILURE_BACKOFF).Floor + 1)
  {
    var rounds, open := AskedInRounds(ws, acts, n, from, to, most);
    var w := ws[n];
    assert w in ws;
    OpenFits(w, open, most);
    var all := if open == {} then rounds else rounds + 1;
    RoundMore(most, rounds);
    if all > 0 {
      assert FAILURE_BACKOFF * (all - 1) as real <= to - from;
      assert (all - 1) as real <= (to - from) / FAILURE_BACKOFF;
    }
    RoundsFit(most, all, ((to - from) / FAILURE_BACKOFF).Floor + 1);
  }

  lemma RoundsFit(most: nat, a: nat, b: nat)
    requires a <= b
    ensures most * a <= most * b
  {
  }

  /** `n` checks that began together have all decided to ask. */
  ghost predicate AllAsked(ws: seq<World>, acts: seq<Action>, n: nat) {
    && Run(ws, acts) && LabDown(acts) && AtOnce(ws, n) && (forall w :: w in ws ==> w.now == 0.0)
    && ws[0].lastFailure == None && AskedIn(ws, acts, |acts|, 0.0, 0.0) == n
    && var w := ws[|acts|];
       w.lastFailure == None && w.accounts == map[] && forall c: CallId :: c in w.checks <==> c < n
  }

  lemma {:induction false} AskedInPrefix(ws: seq<World>, acts: seq<Action>, w: World, a: Action, n: nat, from: Time,
      to: Time)
    requires |ws| == |acts| + 1 && n <= |acts|
    ensures AskedIn(ws + [w], acts + [a], n, from, to) == AskedIn(ws, acts, n, from, to)
  {
    if n > 0 {
      AskedInPrefix(ws, acts, w, a, n - 1, from, to);
      assert AskedAt(ws + [w], acts + [a], n - 1, from, to) == AskedAt(ws, acts, n - 1, from, to);
    }
  }

  lemma FewChecks(w: World, n: nat)
    requires forall c: CallId :: c in w.checks ==> c < n
    ensures |InFlight(w)| <= n
  {
    assert InFlight(w) <= UpTo(n);
    SubsetSize(InFlight(w), UpTo(n));
  }

  /** One more step at time 0, with checks below `n` only. */
  lemma OneMore(ws: seq<World>, acts: seq<Action>, a: Action, n: nat) returns (ws': seq<World>, acts': seq<Action>)
    requires Run(ws, acts) && LabDown(acts) && AtOnce(ws, n) && (forall w :: w in ws ==> w.now == 0.0)
    requires Enabled(ws[|acts|], a) && !a.Tick? && !a.LabAnswers?
    requires forall c: CallId :: c in Do(ws[|acts|], a).checks ==> c < n
    ensures Run(ws', acts') && LabDown(acts') && AtOnce(ws', n) && (forall w :: w in ws' ==> w.now == 0.0)
    ensures ws' == ws + [Do(ws[|acts|], a)] && acts' == acts + [a]
    ensures AskedIn(ws', acts', |acts'|, 0.0, 0.0)
         == AskedIn(ws, acts, |acts|, 0.0, 0.0) + if AskedAt(ws', acts', |acts|, 0.0, 0.0) then 1 else 0
  {
    var w' := Do(ws[|acts|], a);
    ws', acts' := ws + [w'], acts + [a];
    assert ws[|acts|] in ws;
    FewChecks(w', n);
    AskedInPrefix(ws, acts, w', a, |acts|, 0.0, 0.0);
  }

  /** The bound is met: any number of checks may ask at one instant, where one after the other would
      make a single request. */
  lemma {:induction false} TogetherTheyAllAsk(account: string, n: nat) returns (ws: seq<World>, acts: seq<Action>)
    requires IsLabAccount(account)
    ensures AllAsked(ws, acts, n)
  {
    if n == 0 {
      ws, acts := [World(0.0, map[], None, map[], {})], [];
    } else {
      ws, acts := TogetherTheyAllAsk(account, n - 1);
      ws, acts := OneMore(ws, acts, Begin(n - 1, account), n);
      ws, acts := OneMore(ws, acts, ReadCache(n - 1), n);
      ws, acts := OneMore(ws, acts, ReadBackoff(n - 1), n);
    }
  }
}
