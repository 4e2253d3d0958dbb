/** Any number of calls for Gateway targets at once over one cache, step by step. The read, the drop
    of a rejected key, the request, the write and the fallback read of each interleave freely. */
module AiTargetProtocol {
  import opened Wrappers
  import opened Runs
  import opened CreditCache
  import opened AiTargetCache

  type CallId = nat

  datatype Phase =
    | Begun
    | Dropping
    | Asking
    | Storing(target: Target)
    | Removing
    | Falling
    | Done(found: AiLookup)

  /** A call that read the clock at `start`. */
  datatype Getting = Getting(account: string, rejected: Option<string>, refresh: bool, start: Time, phase: Phase)

  datatype World = World(now: Time, targets: Targets, calls: map<CallId, Getting>)

  datatype Action =
    | Tick(to: Time)
    | Begin(c: CallId, account: string, rejected: Option<string>, refresh: bool)
    | ReadCache(c: CallId)
    | Drop(c: CallId)
    | LabAnswers(c: CallId, target: Target)
    | LabKnowsNone(c: CallId)
    | LabFails(c: CallId)
    | Store(c: CallId)
    | Remove(c: CallId)
    | ReadStale(c: CallId)

  predicate Enabled(w: World, a: Action) {
    match a
    case Tick(to) => w.now <= to
    case Begin(c, account, _, _) => c !in w.calls && IsLabAccount(account)
    case ReadCache(c) => c in w.calls && w.calls[c].phase.Begun?
    case Drop(c) => c in w.calls && w.calls[c].phase.Dropping?
    case LabAnswers(c, _) => c in w.calls && w.calls[c].phase.Asking?
    case LabKnowsNone(c) => c in w.calls && w.calls[c].phase.Asking?
    case LabFails(c) => c in w.calls && w.calls[c].phase.Asking?
    case Store(c) => c in w.calls && w.calls[c].phase.Storing?
    case Remove(c) => c in w.calls && w.calls[c].phase.Removing?
    case ReadStale(c) => c in w.calls && w.calls[c].phase.Falling?
  }

  function Go(w: World, c: CallId, p: Phase): World
    requires c in w.calls
  {
    w.(calls := w.calls[c := w.calls[c].(phase := p)])
  }

  /** Where the first read of the cache leads. */
  function AfterRead(targets: Targets, g: Getting): Phase {
    if ServesCached(targets, g.account, g.rejected, g.refresh, g.start) then Done(Found(targets[g.account].target))
    else if HoldsRejected(targets, g.account, g.rejected) then Dropping
    else Asking
  }

  function Do(w: World, a: Action): World
    requires Enabled(w, a)
  {
    match a
    case Tick(to) => w.(now := to)
    case Begin(c, account, rejected, refresh) =>
      w.(calls := w.calls[c := Getting(account, rejected, refresh, w.now, Begun)])
    case ReadCache(c) => Go(w, c, AfterRead(w.targets, w.calls[c]))
    case Drop(c) => Go(w, c, Asking).(targets := w.targets - {w.calls[c].account})
    case LabAnswers(c, t) => Go(w, c, Storing(t))
    case LabKnowsNone(c) => Go(w, c, Removing)
    case LabFails(c) => Go(w, c, Falling)
    case Store(c) =>
      var g := w.calls[c];
      Go(w, c, Done(Found(g.phase.target))).(targets := w.targets[g.account := AiCached(g.start, g.phase.target)])
    case Remove(c) => Go(w, c, Done(NoGateway)).(targets := w.targets - {w.calls[c].account})
    case ReadStale(c) =>
      var g := w.calls[c];
      Go(w, c, Done(AfterFetch(w.targets, g.account, g.start, Error).0))
  }

  /** A step as one function. */
  function Step(w: World, a: Action): Option<World> {
    if Enabled(w, a) then Some(Do(w, a)) else None
  }

  ghost predicate Next(w: World, a: Action, w': World) {
    Enabled(w, a) && w' == Do(w, a)
  }

  ghost predicate Run(ws: seq<World>, acts: seq<Action>) {
    && |ws| == |acts| + 1 && ws[0].targets == map[] && ws[0].calls == map[]
    && forall i :: 0 <= i < |acts| ==> Next(ws[i], acts[i], ws[i + 1])
  }

  // ---------------------------------------------------------------- a call is a run

  /** A call with no other in between takes these steps, and gives what the sequential call gives. */
  lemma CallIsARun(w: World, c: CallId, call: Query) returns (acts: seq<Action>, w': World)
    requires c !in w.calls && IsLabAccount(call.account) && call.now == w.now
    ensures Leads(Step, w, acts, w') && c in w'.calls
    ensures (Done(Serve(w.targets, call).0), Serve(w.targets, call).1) == (w'.calls[c].phase, w'.targets)
    ensures w'.now == w.now && w'.calls.Keys == w.calls.Keys + {c}
    ensures forall x :: x in w.calls ==> w'.calls[x] == w.calls[x]
  {
    var w0 := Do(w, Begin(c, call.account, call.rejected, call.refresh));
    var w1 := Do(w0, ReadCache(c));
    if w1.calls[c].phase.Done? {
      acts, w' := [Begin(c, call.account, call.rejected, call.refresh), ReadCache(c)], w1;
      LeadsTwo(w, acts[0], acts[1]);
    } else {
      var w2 := if w1.calls[c].phase.Dropping? then Do(w1, Drop(c)) else w1;
      assert w2.targets == BeforeFetch(w.targets, call.account, call.rejected);
      var rest;
      rest, w' := AnsweredRun(w2, c, call.answer);
      var middle := if w1.calls[c].phase.Dropping? then [Drop(c)] else [];
      assert [Drop(c)][1..] == [];
      assert Leads(Step, w1, middle, w2);
      LeadsJoin(Step, w1, middle, w2, rest, w');
      var head := [Begin(c, call.account, call.rejected, call.refresh), ReadCache(c)];
      LeadsTwo(w, head[0], head[1]);
      LeadsJoin(Step, w, head, w1, middle + rest, w');
      acts := head + (middle + rest);
    }
  }

  lemma AnsweredRun(w: World, c: CallId, answer: Fetched) returns (acts: seq<Action>, w': World)
    requires c in w.calls && w.calls[c].phase.Asking?
    ensures Leads(Step, w, acts, w') && c in w'.calls
    ensures (w'.calls[c].phase, w'.targets)
         == var f := AfterFetch(w.targets, w.calls[c].account, w.calls[c].start, answer); (Done(f.0), f.1)
    ensures w'.now == w.now && w'.calls.Keys == w.calls.Keys
    ensures forall x :: x in w.calls && x != c ==> w'.calls[x] == w.calls[x]
  {
    acts := match answer
      case Fresh(t) => [LabAnswers(c, t), Store(c)]
      case NotFound => [LabKnowsNone(c), Remove(c)]
      case Error => [LabFails(c), ReadStale(c)];
    w' := Do(Do(w, acts[0]), acts[1]);
    LeadsTwo(w, acts[0], acts[1]);
  }

  lemma LeadsTwo(w: World, a: Action, b: Action)
    requires Enabled(w, a) && Enabled(Do(w, a), b)
    ensures Leads(Step, w, [a, b], Do(Do(w, a), b))
  {
    assert [a, b][1..] == [b] && [b][1..] == [];
    assert Leads(Step, Do(Do(w, a), b), [], Do(Do(w, a), b));
    assert Leads(Step, Do(w, a), [b], Do(Do(w, a), b));
  }

  // ---------------------------------------------------------------- the rejected key over a run

  /** `a` writes the cached entry of the account. */
  predicate Touches(w: World, a: Action, account: string) {
    match a
    case Drop(c) => c in w.calls && w.calls[c].account == account
    case Store(c) => c in w.calls && w.calls[c].account == account
    case Remove(c) => c in w.calls && w.calls[c].account == account
    case _ => false
  }

  /** At step `i` some call stores an answer for the account that holds the key, asked for less than
      300 s before `start`, and nothing touches it until step `j`. */
  ghost predicate PutBack(ws: seq<World>, acts: seq<Action>, i: nat, j: nat, account: string, key: string,
      start: Time) {
    && i < j <= |acts| < |ws|
    && acts[i].Store? && Enabled(ws[i], acts[i])
    && (var g := ws[i].calls[acts[i].c];
        && g.account == account && g.phase.target.keyId == key && Since(start, g.start) < STALE_FOR)
    && forall m :: i < m < j ==> !Touches(ws[m], acts[m], account)
  }

  /** The same for an answer of any age. */
  ghost predicate PutAt(ws: seq<World>, acts: seq<Action>, i: nat, j: nat, account: string, e: AiCached) {
    && i < j <= |acts| < |ws|
    && acts[i].Store? && Enabled(ws[i], acts[i])
    && (var g := ws[i].calls[acts[i].c]; g.account == account && e == AiCached(g.start, g.phase.target))
    && forall m :: i < m < j ==> !Touches(ws[m], acts[m], account)
  }

  /** What never changes about a call. */
  predicate SameCall(g: Getting, h: Getting) {
    g.account == h.account && g.rejected == h.rejected && g.refresh == h.refresh && g.start == h.start
  }

  lemma {:induction false} CallsStay(ws: seq<World>, acts: seq<Action>, i: nat, j: nat, c: CallId)
    requires Run(ws, acts) && i <= j < |ws| && c in ws[i].calls
    ensures c in ws[j].calls && SameCall(ws[i].calls[c], ws[j].calls[c])
    ensures ws[i].calls[c].phase.Done? ==> ws[j].calls[c].phase.Done?
    decreases j
  {
    if i < j {
      CallsStay(ws, acts, i, j - 1, c);
      assert Next(ws[j - 1], acts[j - 1], ws[j - 1 + 1]);
    }
  }

  /** Once a call has read the cache, and dropped what it had to, a rejected key is only there if it
      was stored since. */
  lemma {:induction false} OnlyPutBack(ws: seq<World>, acts: seq<Action>, r: nat, j: nat, c: CallId, key: string)
    requires Run(ws, acts) && r < j <= |acts| && acts[r] == ReadCache(c)
    requires c in ws[r].calls && ws[r].calls[c].rejected == Some(key)
    ensures c in ws[j].calls && SameCall(ws[r].calls[c], ws[j].calls[c])
    ensures ws[j].calls[c].phase.Dropping? || !HoldsRejected(ws[j].targets, ws[r].calls[c].account, Some(key))
         || exists i: nat :: r < i
              && PutAt(ws, acts, i, j, ws[r].calls[c].account, ws[j].targets[ws[r].calls[c].account])
    decreases j
  {
    var w, a := ws[j - 1], acts[j - 1];
    var account := ws[r].calls[c].account;
    assert Next(ws[j - 1], acts[j - 1], ws[j - 1 + 1]);
    CallsStay(ws, acts, r, j, c);
    if r < j - 1 && !ws[j].calls[c].phase.Dropping? && HoldsRejected(ws[j].targets, account, Some(key)) {
      OnlyPutBack(ws, acts, r, j - 1, c, key);
      if Touches(w, a, account) {
        assert PutAt(ws, acts, j - 1, j, account, ws[j].targets[account]);
      } else {
        SameEntry(w, a, account, c);
        var i: nat :| r < i && PutAt(ws, acts, i, j - 1, account, w.targets[account]);
        assert PutAt(ws, acts, i, j, account, ws[j].targets[account]);
      }
    }
  }

  lemma SameEntry(w: World, a: Action, account: string, c: CallId)
    requires Enabled(w, a) && !Touches(w, a, account) && c in w.calls
    ensures account in Do(w, a).targets <==> account in w.targets
    ensures account in w.targets ==> Do(w, a).targets[account] == w.targets[account]
    ensures w.calls[c].account == account && w.calls[c].phase.Dropping? ==> Do(w, a).calls[c].phase.Dropping?
  {
  }

  lemma {:induction false} PutStays(ws: seq<World>, acts: seq<Action>, i: nat, j: nat, account: string, e: AiCached)
    requires Run(ws, acts) && PutAt(ws, acts, i, j, account, e)
    ensures account in ws[j].targets && ws[j].targets[account] == e
    decreases j
  {
    assert Next(ws[j - 1], acts[j - 1], ws[j - 1 + 1]);
    if i < j - 1 {
      PutStays(ws, acts, i, j - 1, account, e);
    }
  }

  /** In every run, a call whose own request failed serves the key that was rejected if and only if,
      since it read the cache, another call stored an answer of the Lab holding that key, still in
      place and recent enough. */
  lemma RejectedKeyServed(ws: seq<World>, acts: seq<Action>, r: nat, j: nat, c: CallId, key: string)
    requires Run(ws, acts) && r < j < |acts| && acts[r] == ReadCache(c) && acts[j] == ReadStale(c)
    requires c in ws[r].calls && ws[r].calls[c].rejected == Some(key)
    ensures c in ws[j].calls && c in ws[j + 1].calls
    ensures (exists t: Target :: t.keyId == key && ws[j + 1].calls[c].phase == Done(Found(t)))
       <==> exists i: nat :: r < i < j && acts[i] != Store(c)
                          && PutBack(ws, acts, i, j, ws[r].calls[c].account, key, ws[r].calls[c].start)
  {
    var account, start := ws[r].calls[c].account, ws[r].calls[c].start;
    CallsStay(ws, acts, r, j, c);
    assert Next(ws[j], acts[j], ws[j + 1]);
    if t: Target :| t.keyId == key && ws[j + 1].calls[c].phase == Done(Found(t)) {
      OnlyPutBack(ws, acts, r, j, c, key);
      var i: nat :| r < i && PutAt(ws, acts, i, j, account, ws[j].targets[account]);
      NotItsOwn(ws, acts, i, j, c);
      assert PutBack(ws, acts, i, j, account, key, start);
    }
    if i: nat :| r < i && PutBack(ws, acts, i, j, account, key, start) {
      var g := ws[i].calls[acts[i].c];
      var e := AiCached(g.start, g.phase.target);
      assert PutAt(ws, acts, i, j, account, e);
      PutStays(ws, acts, i, j, account, e);
      assert ws[j + 1].calls[c].phase == Done(Found(e.target));
    }
  }

  lemma NotItsOwn(ws: seq<World>, acts: seq<Action>, i: nat, j: nat, c: CallId)
    requires Run(ws, acts) && i < j < |acts| && Enabled(ws[j], ReadStale(c))
    ensures acts[i] != Store(c)
  {
    if acts[i] == Store(c) {
      assert Next(ws[i], acts[i], ws[i + 1]);
      CallsStay(ws, acts, i + 1, j, c);
    }
  }

  const EMPTY := World(0.0, map[], map[])

  /** It happens: one call was answered with the key, a second is answered with it again while a third
      has it rejected, drops it and gets no answer; the second stores it and the third serves it. */
  lemma RejectedKeyComesBack(account: string, t: Target) returns (acts: seq<Action>, w: World)
    requires IsLabAccount(account)
    ensures Leads(Step, EMPTY, acts, w) && Drop(2) in acts
    ensures 2 in w.calls && w.calls[2].rejected == Some(t.keyId) && w.calls[2].phase == Done(Found(t))
  {
    acts, w := DroppedMeanwhile(account, t);
    acts, w := Further(Step, EMPTY, acts, w, LabFails(2));
    acts, w := Further(Step, EMPTY, acts, w, Store(1));
    acts, w := Further(Step, EMPTY, acts, w, ReadStale(2));
  }

  lemma DroppedMeanwhile(account: string, t: Target) returns (acts: seq<Action>, w: World)
    requires IsLabAccount(account)
    ensures Leads(Step, EMPTY, acts, w) && Drop(2) in acts && w.targets == map[] && {1, 2} <= w.calls.Keys
    ensures w.calls[1] == Getting(account, None, true, 0.0, Storing(t))
    ensures w.calls[2] == Getting(account, Some(t.keyId), false, 0.0, Asking)
  {
    acts, w := AnsweredTwice(account, t);
    acts, w := Further(Step, EMPTY, acts, w, Begin(2, account, Some(t.keyId), false));
    acts, w := Further(Step, EMPTY, acts, w, ReadCache(2));
    acts, w := Further(Step, EMPTY, acts, w, Drop(2));
    assert acts[|acts| - 1] == Drop(2);
  }

  lemma AnsweredTwice(account: string, t: Target) returns (acts: seq<Action>, w: World)
    requires IsLabAccount(account)
    ensures Leads(Step, EMPTY, acts, w) && w.now == 0.0 && w.calls.Keys == {0, 1}
    ensures w.targets == map[account := AiCached(0.0, t)]
    ensures w.calls[1] == Getting(account, None, true, 0.0, Storing(t))
  {
    acts, w := CallIsARun(EMPTY, 0, Query(account, None, false, 0.0, Fresh(t)));
    assert w.now == 0.0;
    acts, w := Further(Step, EMPTY, acts, w, Begin(1, account, None, true));
    acts, w := Further(Step, EMPTY, acts, w, ReadCache(1));
    acts, w := Further(Step, EMPTY, acts, w, LabAnswers(1, t));
  }

  // ---------------------------------------------------------------- the rejected key, told beforehand

  /** Another call about the account of `c`. */
  predicate Rival(w: World, c: CallId, p: CallId) {
    c in w.calls && p in w.calls && p != c && w.calls[p].account == w.calls[c].account
  }

  /** It has not read the cache yet, and may be served from it. */
  predicate Plain(g: Getting) {
    g.phase.Begun? && g.rejected == None && !g.refresh
  }

  /** It asks for sure, or is about to store the key. */
  predicate MayStore(g: Getting, key: string) {
    match g.phase
    case Begun => !Plain(g)
    case Dropping => true
    case Asking => true
    case Storing(t) => t.keyId == key
    case _ => false
  }

  /** What `q` may do to the cache can make a plain call ask. */
  ghost predicate Opens(w: World, c: CallId, q: CallId, key: string)
    requires Rival(w, c, q)
  {
    var g := w.calls[q];
    match g.phase
    case Begun => !Plain(g) || !IsFresh(w.targets, g.account, g.start)
    case Dropping => true
    case Asking => true
    case Removing => true
    case Storing(t) => t.keyId == key || exists p :: Rival(w, c, p) && StaleFor(w, p, g.start, t)
    case _ => false
  }

  /** `p` is plain and would not be served a target that was asked for at `at`. */
  predicate StaleFor(w: World, p: CallId, at: Time, t: Target)
    requires p in w.calls
  {
    Plain(w.calls[p]) && Since(w.calls[p].start, at) >= Ttl(t)
  }

  ghost predicate Opening(w: World, c: CallId, key: string)
    requires c in w.calls
  {
    || HoldsRejected(w.targets, w.calls[c].account, Some(key))
    || w.calls[c].phase.Dropping?
    || exists q :: Rival(w, c, q) && Opens(w, c, q, key)
  }

  /** A call in flight, begun less than 300 s before `c`, that can still store the key: it asks the
      Lab, or holds the key already, or will ask once something makes the cache miss. */
  ghost predicate Putter(w: World, c: CallId, p: CallId, key: string) {
    && Rival(w, c, p) && Since(w.calls[c].start, w.calls[p].start) < STALE_FOR
    && (MayStore(w.calls[p], key) || (Plain(w.calls[p]) && Opening(w, c, key)))
  }

  /** Call `c` is about to serve the key from the cache. */
  predicate AboutToServe(w: World, c: CallId, key: string) {
    && c in w.calls && w.calls[c].phase.Falling?
    && HoldsRejected(w.targets, w.calls[c].account, Some(key))
         && IsStale(w.targets, w.calls[c].account, w.calls[c].start)
  }

  /** Its next step serves the key, and at no other time does a read of the cache do so once its own
      request failed. */
  lemma AboutToServeExactly(w: World, c: CallId, key: string)
    requires Enabled(w, ReadStale(c))
    ensures AboutToServe(w, c, key)
       <==> exists t: Target :: t.keyId == key && Do(w, ReadStale(c)).calls[c].phase == Done(Found(t))
  {
    if AboutToServe(w, c, key) {
      assert Do(w, ReadStale(c)).calls[c].phase == Done(Found(w.targets[w.calls[c].account].target));
    }
  }

  predicate BeginsAbout(a: Action, account: string) {
    a.Begin? && a.account == account
  }

  /** Some continuation in which no call about the account begins has `c` serve the key. */
  ghost predicate CanServe(w: World, c: CallId, key: string)
    requires c in w.calls
  {
    exists acts, w' :: Leads(Step, w, acts, w') && AboutToServe(w', c, key)
      && forall a :: a in acts ==> !BeginsAbout(a, w.calls[c].account)
  }

  // ------------------------------------------- it can happen

  lemma ServeLater(w: World, a: Action, c: CallId, key: string)
    requires c in w.calls && Enabled(w, a) && !a.Begin? && CanServe(Do(w, a), c, key)
    ensures CanServe(w, c, key)
  {
    var acts, w' :| Leads(Step, Do(w, a), acts, w') && AboutToServe(w', c, key)
                    && forall x :: x in acts ==> !BeginsAbout(x, Do(w, a).calls[c].account);
    assert ([a] + acts)[1..] == acts;
    assert Leads(Step, w, [a] + acts, w');
  }

  lemma ServeNow(w: World, c: CallId, key: string)
    requires AboutToServe(w, c, key)
    ensures CanServe(w, c, key)
  {
    assert Leads(Step, w, [], w);
  }

  /** `c` has not asked, or got no answer yet. */
  predicate Early(w: World, c: CallId, key: string) {
    c in w.calls && w.calls[c].rejected == Some(key) && (w.calls[c].phase.Begun? || w.calls[c].phase.Asking?)
  }

  predicate Recent(w: World, c: CallId, p: CallId) {
    Rival(w, c, p) && Since(w.calls[c].start, w.calls[p].start) < STALE_FOR
  }

  /** `c` reads the cache and drops the key if it is there. */
  function Dropped(w: World, c: CallId): World
    requires c in w.calls && w.calls[c].phase.Begun? && w.calls[c].rejected.Some?
  {
    var w1 := Do(w, ReadCache(c));
    if w1.calls[c].phase.Dropping? then Do(w1, Drop(c)) else w1
  }

  lemma ServeAfterDrop(w: World, c: CallId, key: string)
    requires c in w.calls && w.calls[c].phase.Begun? && w.calls[c].rejected == Some(key)
              && CanServe(Dropped(w, c), c, key)
    ensures CanServe(w, c, key)
  {
    var w1 := Do(w, ReadCache(c));
    if w1.calls[c].phase.Dropping? {
      ServeLater(w1, Drop(c), c, key);
    }
    ServeLater(w, ReadCache(c), c, key);
  }

  lemma StoringServes(w: World, c: CallId, p: CallId, key: string)
    requires Early(w, c, key) && Recent(w, c, p) && w.calls[p].phase.Storing? && w.calls[p].phase.target.keyId == key
    ensures CanServe(w, c, key)
  {
    var m := if w.calls[c].phase.Begun? then Dropped(w, c) else w;
    var w1 := Do(m, LabFails(c));
    ServeNow(Do(w1, Store(p)), c, key);
    ServeLater(w1, Store(p), c, key);
    ServeLater(m, LabFails(c), c, key);
    if w.calls[c].phase.Begun? {
      ServeAfterDrop(w, c, key);
    }
  }

  lemma AskingServes(w: World, c: CallId, p: CallId, key: string)
    requires Early(w, c, key) && Recent(w, c, p) && w.calls[p].phase.Asking?
    ensures CanServe(w, c, key)
  {
    var a := LabAnswers(p, Target(key, 0, ""));
    StoringServes(Do(w, a), c, p, key);
    ServeLater(w, a, c, key);
  }

  lemma DroppingServes(w: World, c: CallId, p: CallId, key: string)
    requires Early(w, c, key) && Recent(w, c, p) && w.calls[p].phase.Dropping?
    ensures CanServe(w, c, key)
  {
    AskingServes(Do(w, Drop(p)), c, p, key);
    ServeLater(w, Drop(p), c, key);
  }

  /** A call that does not get a fresh target goes on to ask. */
  lemma BegunServes(w: World, c: CallId, p: CallId, key: string)
    requires Early(w, c, key) && Recent(w, c, p) && w.calls[p].phase.Begun?
    requires Plain(w.calls[p]) ==> !IsFresh(w.targets, w.calls[p].account, w.calls[p].start)
    ensures CanServe(w, c, key)
  {
    var w1 := Do(w, ReadCache(p));
    if w1.calls[p].phase.Dropping? {
      DroppingServes(w1, c, p, key);
    } else {
      AskingServes(w1, c, p, key);
    }
    ServeLater(w, ReadCache(p), c, key);
  }

  /** A plain call asks once the entry is gone. */
  lemma EmptyServes(w: World, a: Action, c: CallId, p: CallId, key: string)
    requires Early(w, c, key) && Recent(w, c, p) && Plain(w.calls[p])
    requires Enabled(w, a) && (a.Drop? || a.Remove?) && Rival(w, c, a.c)
    ensures CanServe(w, c, key)
  {
    BegunServes(Do(w, a), c, p, key);
    ServeLater(w, a, c, key);
  }

  lemma HoldingServes(w: World, c: CallId, p: CallId, key: string)
    requires c in w.calls && w.calls[c].phase.Begun? && w.calls[c].rejected == Some(key)
    requires Recent(w, c, p) && Plain(w.calls[p]) && HoldsRejected(w.targets, w.calls[c].account, Some(key))
    ensures CanServe(w, c, key)
  {
    BegunServes(Dropped(w, c), c, p, key);
    ServeAfterDrop(w, c, key);
  }

  lemma OtherAskingServes(w: World, c: CallId, p: CallId, q: CallId, key: string)
    requires Early(w, c, key) && Recent(w, c, p) && Plain(w.calls[p]) && Rival(w, c, q) && w.calls[q].phase.Asking?
    ensures CanServe(w, c, key)
  {
    EmptyServes(Do(w, LabKnowsNone(q)), Remove(q), c, p, key);
    ServeLater(w, LabKnowsNone(q), c, key);
  }

  lemma OtherBegunServes(w: World, c: CallId, p: CallId, q: CallId, key: string)
    requires Early(w, c, key) && Recent(w, c, p) && Plain(w.calls[p]) && Rival(w, c, q) && w.calls[q].phase.Begun?
    requires Plain(w.calls[q]) ==> !IsFresh(w.targets, w.calls[q].account, w.calls[q].start)
    ensures CanServe(w, c, key)
  {
    if p == q {
      BegunServes(w, c, p, key);
    } else {
      var w1 := Do(w, ReadCache(q));
      if w1.calls[q].phase.Dropping? {
        EmptyServes(w1, Drop(q), c, p, key);
      } else {
        OtherAskingServes(w1, c, p, q, key);
      }
      ServeLater(w, ReadCache(q), c, key);
    }
  }

  lemma OtherStoringServes(w: World, c: CallId, p: CallId, q: CallId, key: string)
    requires c in w.calls && w.calls[c].phase.Begun? && w.calls[c].rejected == Some(key)
    requires Recent(w, c, p) && Plain(w.calls[p]) && Rival(w, c, q) && w.calls[q].phase.Storing? && Opens(w, c, q, key)
    ensures CanServe(w, c, key)
  {
    var g := w.calls[q];
    var w1 := Do(w, Store(q));
    if g.phase.target.keyId == key {
      HoldingServes(w1, c, p, key);
    } else {
      var x :| Rival(w, c, x) && StaleFor(w, x, g.start, g.phase.target);
      OtherBegunServes(w1, c, p, x, key);
    }
    ServeLater(w, Store(q), c, key);
  }

  lemma PutterServes(w: World, c: CallId, p: CallId, key: string)
    requires c in w.calls && w.calls[c].phase.Begun? && w.calls[c].rejected == Some(key) && Putter(w, c, p, key)
    ensures CanServe(w, c, key)
  {
    var g := w.calls[p];
    if MayStore(g, key) {
      match g.phase {
        case Begun => BegunServes(w, c, p, key);
        case Dropping => DroppingServes(w, c, p, key);
        case Asking => AskingServes(w, c, p, key);
        case Storing(_) => StoringServes(w, c, p, key);
      }
    } else if HoldsRejected(w.targets, w.calls[c].account, Some(key)) {
      HoldingServes(w, c, p, key);
    } else {
      var q :| Rival(w, c, q) && Opens(w, c, q, key);
      OpenerServes(w, c, p, q, key);
    }
  }

  lemma OpenerServes(w: World, c: CallId, p: CallId, q: CallId, key: string)
    requires c in w.calls && w.calls[c].phase.Begun? && w.calls[c].rejected == Some(key)
    requires Recent(w, c, p) && Plain(w.calls[p]) && Rival(w, c, q) && Opens(w, c, q, key)
    ensures CanServe(w, c, key)
  {
    match w.calls[q].phase {
      case Begun => OtherBegunServes(w, c, p, q, key);
      case Dropping => EmptyServes(w, Drop(q), c, p, key);
      case Asking => OtherAskingServes(w, c, p, q, key);
      case Removing => EmptyServes(w, Remove(q), c, p, key);
      case Storing(_) => OtherStoringServes(w, c, p, q, key);
    }
  }

  // ------------------------------------------- it cannot otherwise

  ghost predicate NoPutter(w: World, c: CallId, key: string) {
    forall p :: !Putter(w, c, p, key)
  }

  /** `c` has an answer, and serves no other target. */
  predicate OnItsOwn(g: Getting) {
    g.phase.Storing? || g.phase.Removing? || g.phase.Done?
  }

  /** No call can store the key any more, and `c` will not find it. */
  ghost predicate Safe(w: World, c: CallId, key: string) {
    && c in w.calls && w.calls[c].rejected == Some(key)
    && (OnItsOwn(w.calls[c])
        || (NoPutter(w, c, key)
            && (w.calls[c].phase.Begun? || w.calls[c].phase.Dropping?
                || !(HoldsRejected(w.targets, w.calls[c].account, Some(key))
                     && IsStale(w.targets, w.calls[c].account, w.calls[c].start)))))
  }

  lemma OpeningWasThere(w: World, a: Action, c: CallId, key: string)
    requires c in w.calls && w.calls[c].rejected == Some(key) && !OnItsOwn(w.calls[c])
    requires Enabled(w, a) && !BeginsAbout(a, w.calls[c].account) && Opening(Do(w, a), c, key)
    ensures Opening(w, c, key)
  {
    var w' := Do(w, a);
    if !HoldsRejected(w'.targets, w.calls[c].account, Some(key)) && !w'.calls[c].phase.Dropping? {
      var q :| Rival(w', c, q) && Opens(w', c, q, key);
      OpenerWasThere(w, a, c, q, key);
    } else if a.Store? && Rival(w, c, a.c) {
      assert HoldsRejected(w'.targets, w.calls[c].account, Some(key))
          ==> Opens(w, c, a.c, key) || w.calls[c].phase.Dropping?;
    }
  }

  /** What opens the cache after a step was there before it, or the step was one that opens it. */
  lemma OpenerWasThere(w: World, a: Action, c: CallId, q: CallId, key: string)
    requires c in w.calls && w.calls[c].rejected == Some(key) && !OnItsOwn(w.calls[c])
    requires Enabled(w, a) && !BeginsAbout(a, w.calls[c].account)
    requires Rival(Do(w, a), c, q) && Opens(Do(w, a), c, q, key)
    ensures Opening(w, c, key)
  {
    var w' := Do(w, a);
    assert Rival(w, c, q);
    if !Opens(w, c, q, key) {
      match w'.calls[q].phase {
        case Begun =>
          // The entry of the account changed.
          assert Touches(w, a, w.calls[c].account);
          assert a.c != c ==> Rival(w, c, a.c);
          assert a.Store? ==> StaleFor(w, q, w.calls[a.c].start, w.calls[a.c].phase.target);
        case Storing(t) =>
          var x :| Rival(w', c, x) && StaleFor(w', x, w'.calls[q].start, t);
          assert Rival(w, c, x) && StaleFor(w, x, w.calls[q].start, t);
        case _ =>
      }
    }
  }

  lemma PutterWasThere(w: World, a: Action, c: CallId, p: CallId, key: string)
    requires c in w.calls && w.calls[c].rejected == Some(key) && !OnItsOwn(w.calls[c])
    requires Enabled(w, a) && !BeginsAbout(a, w.calls[c].account) && Putter(Do(w, a), c, p, key)
    ensures Putter(w, c, p, key)
  {
    var w' := Do(w, a);
    assert Rival(w, c, p);
    if !MayStore(w.calls[p], key) {
      if Plain(w'.calls[p]) {
        OpeningWasThere(w, a, c, key);
      } else {
        assert a == ReadCache(p) && Opens(w, c, p, key);
      }
    }
  }

  lemma StepKeepsSafe(w: World, a: Action, c: CallId, key: string)
    requires Safe(w, c, key) && Enabled(w, a) && !BeginsAbout(a, w.calls[c].account)
    ensures Safe(Do(w, a), c, key)
  {
    var w' := Do(w, a);
    if !OnItsOwn(w.calls[c]) && !OnItsOwn(w'.calls[c]) {
      forall p ensures !Putter(w', c, p, key) {
        if Putter(w', c, p, key) {
          PutterWasThere(w, a, c, p, key);
        }
      }
      if a.Store? && Rival(w, c, a.c) {
        assert !Putter(w, c, a.c, key);
      }
    }
  }

  lemma {:induction false} SafeForGood(w: World, acts: seq<Action>, w': World, c: CallId, key: string)
    requires Safe(w, c, key) && Leads(Step, w, acts, w')
    requires forall a :: a in acts ==> !BeginsAbout(a, w.calls[c].account)
    ensures Safe(w', c, key)
    decreases |acts|
  {
    if acts != [] {
      assert acts[0] in acts;
      StepKeepsSafe(w, acts[0], c, key);
      SafeForGood(Do(w, acts[0]), acts[1..], w', c, key);
    }
  }

  /** As a call with a rejected key begins, one can tell from the calls in flight whether it may
      serve that key, if no more calls about the account begin: exactly when one of them can still
      store it. */
  lemma RejectedKeyExactly(w: World, c: CallId, key: string)
    requires c in w.calls && w.calls[c].phase.Begun? && w.calls[c].rejected == Some(key)
    ensures CanServe(w, c, key) <==> exists p :: Putter(w, c, p, key)
  {
    if p :| Putter(w, c, p, key) {
      PutterServes(w, c, p, key);
    } else {
      assert Safe(w, c, key);
      forall acts, w' | Leads(Step, w, acts, w') && forall a :: a in acts ==> !BeginsAbout(a, w.calls[c].account)
        ensures !AboutToServe(w', c, key)
      {
        SafeForGood(w, acts, w', c, key);
      }
    }
  }

  /** Alone on its account, a call never serves the rejected key. */
  lemma AloneIsSafe(w: World, c: CallId, key: string)
    requires c in w.calls && w.calls[c].phase.Begun? && w.calls[c].rejected == Some(key)
    requires forall p :: Rival(w, c, p) ==> w.calls[p].phase.Done?
    ensures !CanServe(w, c, key)
  {
    RejectedKeyExactly(w, c, key);
  }

  /** With one more call about the account beginning, it may, whatever else is in flight. */
  lemma OneMoreCallServes(w: World, c: CallId, key: string)
    requires c in w.calls && w.calls[c].phase.Begun? && w.calls[c].rejected == Some(key)
    requires IsLabAccount(w.calls[c].account) && w.calls[c].start <= w.now
    ensures exists p, refresh :: p !in w.calls && CanServe(Do(w, Begin(p, w.calls[c].account, None, refresh)), c, key)
  {
    var p := NewId(w.calls.Keys);
    var w1 := Do(w, Begin(p, w.calls[c].account, None, true));
    assert Putter(w1, c, p, key);
    PutterServes(w1, c, p, key);
  }
}
