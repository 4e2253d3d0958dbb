/** The cached list of pipelines, alone and with loads, writes and invalidations interleaved. */
module PipelineCache {
  import opened Wrappers
  import opened Runs

  type Time = real

  /** The pipelines table, as one value. */
  type Table = seq<string>

  datatype Entry = Entry(at: Time, list: Table)

  /** What a read gives and what is cached after it. `listed` is what the table query gives, if it is
      made; `loadedAt` when it is back. */
  function Loaded(inner: Option<Entry>, ttl: Time, now: Time, listed: Result<Table, string>,
      loadedAt: Time): (Result<Table, string>, Option<Entry>) {
    if inner.Some? && now - inner.value.at < ttl then (Success(inner.value.list), inner)
    else if listed.Failure? then (listed, inner)
    else (listed, Some(Entry(loadedAt, listed.value)))
  }

  class PipelineCache {
    var inner: Option<Entry>
    const ttl: Time

    constructor (ttl: Time)
      ensures inner == None && this.ttl == ttl
    {
      inner, this.ttl := None, ttl;
    }

    /** One read with no other call in between. */
    method GetOrLoad(now: Time, listed: Result<Table, string>, loadedAt: Time) returns (r: Result<Table, string>)
      modifies this
      ensures var hit := old(inner).Some? && now - old(inner).value.at < ttl;
              && (hit ==> r == Success(old(inner).value.list))
              && (!hit ==> r == listed)
              && inner == if !hit && listed.Success? then Some(Entry(loadedAt, listed.value)) else old(inner)
      ensures (r, inner) == Loaded(old(inner), ttl, now, listed, loadedAt)
    {
      if inner.Some? && now - inner.value.at < ttl {
        return Success(inner.value.list);
      }
      if listed.Failure? {
        return listed;
      }
      inner := Some(Entry(loadedAt, listed.value));
      r := listed;
    }

    method Invalidate()
      modifies this
      ensures inner == None
    {
      inner := None;
    }
  }

  // ---------------------------------------------------------------- interleaved

  type LoadId = nat

  /** A read of the list, from the instant `start`. `readAt` is when the table was read. */
  datatype Load =
    | Begun(start: Time)
    | Missing(start: Time)
    | Listed(start: Time, list: Table, readAt: Time)
    | Done(start: Time, list: Table, readAt: Time)
    | Broken(start: Time)

  /** `readAt` of the entry records when its list was read from the table. */
  datatype World = World(
    now: Time, ttl: Time, table: Table, inner: Option<Entry>, readAt: Time, loads: map<LoadId, Load>)

  datatype Action =
    | Tick(to: Time)
    | Write(table: Table)
    | Invalidate
    | Begin(l: LoadId)
    | ReadCache(l: LoadId)
    | ListAll(l: LoadId)
    | ListFails(l: LoadId)
    | StoreList(l: LoadId)

  predicate Enabled(w: World, a: Action) {
    match a
    case Tick(to) => w.now <= to
    case Write(_) => true
    case Invalidate => true
    case Begin(l) => l !in w.loads
    case ReadCache(l) => l in w.loads && w.loads[l].Begun?
    case ListAll(l) => l in w.loads && w.loads[l].Missing?
    case ListFails(l) => l in w.loads && w.loads[l].Missing?
    case StoreList(l) => l in w.loads && w.loads[l].Listed?
  }

  function Go(w: World, l: LoadId, p: Load): World {
    w.(loads := w.loads[l := p])
  }

  function Do(w: World, a: Action): World
    requires Enabled(w, a)
  {
    match a
    case Tick(to) => w.(now := to)
    case Write(t) => w.(table := t)
    case Invalidate => w.(inner := None)
    case Begin(l) => Go(w, l, Begun(w.now))
    case ReadCache(l) =>
      if w.inner.Some? && w.now - w.inner.value.at < w.ttl then
        Go(w, l, Done(w.loads[l].start, w.inner.value.list, w.readAt))
      else Go(w, l, Missing(w.loads[l].start))
    case ListAll(l) => Go(w, l, Listed(w.loads[l].start, w.table, w.now))
    case ListFails(l) => Go(w, l, Broken(w.loads[l].start))
    case StoreList(l) =>
      var p := w.loads[l];
      Go(w, l, Done(p.start, p.list, p.readAt)).(inner := Some(Entry(w.now, p.list)), readAt := p.readAt)
  }

  /** A step as one function. */
  function Step(w: World, a: Action): Option<World> {
    if Enabled(w, a) then Some(Do(w, a)) else None
  }

  ghost predicate Run(ws: seq<World>, acts: seq<Action>) {
    && |ws| == |acts| + 1 && ws[0].inner == None && ws[0].loads == map[]
    && forall i :: 0 <= i < |acts| ==> Enabled(ws[i], acts[i]) && ws[i + 1] == Do(ws[i], acts[i])
  }

  /** Every load that has read the table stores or returns it within `d` of its start. */
  ghost predicate Prompt(w: World, d: Time) {
    forall l :: l in w.loads && w.loads[l].Listed? ==> w.now <= w.loads[l].start + d
  }

  /** `list` was the whole table at the instant `at`, at some state up to `n`. */
  ghost predicate WasTable(ws: seq<World>, n: nat, list: Table, at: Time) {
    exists k :: 0 <= k <= n < |ws| && ws[k].table == list && ws[k].now == at
  }

  ghost predicate EntryTrue(ws: seq<World>, n: nat, d: Time)
    requires n < |ws|
  {
    var w := ws[n];
    w.inner.Some? ==>
      WasTable(ws, n, w.inner.value.list, w.readAt) && w.readAt <= w.inner.value.at <= w.readAt + d
          && w.inner.value.at <= w.now
  }

  ghost predicate LoadTrue(ws: seq<World>, n: nat, d: Time, l: LoadId)
    requires n < |ws| && l in ws[n].loads
  {
    match ws[n].loads[l]
    case Listed(start, list, readAt) => WasTable(ws, n, list, readAt) && start <= readAt <= ws[n].now
    case Done(start, list, readAt) => WasTable(ws, n, list, readAt) && readAt > start - ws[n].ttl - d
        && readAt <= ws[n].now
    case _ => ws[n].loads[l].start <= ws[n].now
  }

  ghost predicate AllTrue(ws: seq<World>, n: nat, d: Time)
    requires n < |ws|
  {
    EntryTrue(ws, n, d) && forall l :: l in ws[n].loads ==> LoadTrue(ws, n, d, l)
  }

  lemma WasTableLater(ws: seq<World>, n: nat, list: Table, at: Time)
    requires WasTable(ws, n, list, at) && n + 1 < |ws|
    ensures WasTable(ws, n + 1, list, at)
  {
  }

  lemma StepKeepsEntry(ws: seq<World>, acts: seq<Action>, n: nat, d: Time)
    requires Run(ws, acts) && n + 1 < |ws| && AllTrue(ws, n, d) && Prompt(ws[n], d)
    ensures EntryTrue(ws, n + 1, d)
  {
    var w, a := ws[n], acts[n];
    assert Enabled(w, a) && ws[n + 1] == Do(w, a);
    if a.StoreList? {
      assert LoadTrue(ws, n, d, a.l);
      WasTableLater(ws, n, w.loads[a.l].list, w.loads[a.l].readAt);
    } else if ws[n + 1].inner.Some? {
      WasTableLater(ws, n, w.inner.value.list, w.readAt);
    }
  }

  lemma StepKeepsLoad(ws: seq<World>, acts: seq<Action>, n: nat, d: Time, l: LoadId)
    requires Run(ws, acts) && n + 1 < |ws| && AllTrue(ws, n, d) && Prompt(ws[n], d) && d >= 0.0 && ws[n].ttl > 0.0
    requires l in ws[n + 1].loads
    ensures LoadTrue(ws, n + 1, d, l)
  {
    var w, a := ws[n], acts[n];
    assert Enabled(w, a) && ws[n + 1] == Do(w, a);
    if l in w.loads {
      assert LoadTrue(ws, n, d, l);
      var p := w.loads[l];
      if p.Listed? || p.Done? {
        WasTableLater(ws, n, p.list, p.readAt);
      } else if a == ReadCache(l) && w.inner.Some? {
        WasTableLater(ws, n, w.inner.value.list, w.readAt);
      } else if a == ListAll(l) {
        assert ws[n].table == w.table && ws[n].now == w.now;
      }
    }
  }

  lemma {:induction false} AlwaysTrue(ws: seq<World>, acts: seq<Action>, n: nat, d: Time)
    requires Run(ws, acts) && n < |ws| && d >= 0.0 && ws[0].ttl > 0.0
    requires forall i :: 0 <= i < n ==> Prompt(ws[i], d)
    ensures AllTrue(ws, n, d) && ws[n].ttl == ws[0].ttl
    decreases n
  {
    if n > 0 {
      AlwaysTrue(ws, acts, n - 1, d);
      assert Enabled(ws[n - 1], acts[n - 1]) && ws[n - 1 + 1] == Do(ws[n - 1], acts[n - 1]);
      StepKeepsEntry(ws, acts, n - 1, d);
      forall l | l in ws[n].loads {
        StepKeepsLoad(ws, acts, n - 1, d, l);
      }
    }
  }

  /** A list that is returned was the whole table at an instant within the time to live plus the
      time a load takes before the read began, or since. */
  lemma ReturnedWasTable(ws: seq<World>, acts: seq<Action>, n: nat, d: Time, l: LoadId)
    requires Run(ws, acts) && n < |ws| && d >= 0.0 && ws[0].ttl > 0.0
    requires forall i :: 0 <= i < n ==> Prompt(ws[i], d)
    requires l in ws[n].loads && ws[n].loads[l].Done?
    ensures exists k :: 0 <= k <= n && ws[k].table == ws[n].loads[l].list
                     && ws[n].loads[l].start - ws[0].ttl - d < ws[k].now <= ws[n].now
  {
    AlwaysTrue(ws, acts, n, d);
    assert LoadTrue(ws, n, d, l);
    var p := ws[n].loads[l];
    var k :| 0 <= k <= n && ws[k].table == p.list && ws[k].now == p.readAt;
  }

  // ---------------------------------------------------------------- a read is a run

  /** What a load has returned. */
  function Returned(p: Load, error: string): Result<Table, string>
    requires p.Done? || p.Broken?
  {
    if p.Done? then Success(p.list) else Failure(error)
  }

  /** A read with no other call in between takes these steps: it returns and leaves cached what the
      sequential read does. */
  lemma ReadIsARun(w: World, l: LoadId, listed: Result<Table, string>, loadedAt: Time)
      returns (acts: seq<Action>, w': World)
    requires l !in w.loads && w.now <= loadedAt && (listed.Success? ==> listed.value == w.table)
    ensures Leads(Step, w, acts, w') && NoWrites(acts) && l in w'.loads && (w'.loads[l].Done? || w'.loads[l].Broken?)
    ensures (Returned(w'.loads[l], if listed.Failure? then listed.error else ""), w'.inner)
         == Loaded(w.inner, w.ttl, w.now, listed, loadedAt)
  {
    acts, w' := Further(Step, w, [], w, Begin(l));
    acts, w' := Further(Step, w, acts, w', ReadCache(l));
    if w'.loads[l].Missing? {
      acts, w' := Further(Step, w, acts, w', if listed.Success? then ListAll(l) else ListFails(l));
      if listed.Success? {
        acts, w' := Further(Step, w, acts, w', Tick(loadedAt));
        acts, w' := Further(Step, w, acts, w', StoreList(l));
      }
    }
  }

  // ---------------------------------------------------------------- after an invalidation

  ghost predicate NoWrites(acts: seq<Action>) {
    forall a :: a in acts ==> !a.Write?
  }

  /** No load is about to store a list that is no longer the table. */
  ghost predicate NoOldList(w: World) {
    forall l :: l in w.loads && w.loads[l].Listed? ==> w.loads[l].list == w.table
  }

  /** Until the next write, every load begun from now on returns the table as it is now. */
  ghost predicate LaterReadsSee(w: World) {
    forall acts, w', l :: Leads(Step, w, acts, w') && NoWrites(acts) && l !in w.loads && l in w'.loads
        && w'.loads[l].Done?
      ==> w'.loads[l].list == w.table
  }

  ghost predicate Settled(w: World, before: set<LoadId>, table: Table) {
    && w.table == table
    && (w.inner.Some? ==> w.inner.value.list == table)
    && NoOldList(w)
    && forall l :: l in w.loads && l !in before && w.loads[l].Done? ==> w.loads[l].list == table
  }

  lemma {:induction false} SettledStays(w: World, acts: seq<Action>, w': World, before: set<LoadId>, table: Table)
    requires Settled(w, before, table) && Leads(Step, w, acts, w') && NoWrites(acts)
    ensures Settled(w', before, table)
    decreases |acts|
  {
    if acts != [] {
      assert acts[0] in acts;
      SettledStays(Do(w, acts[0]), acts[1..], w', before, table);
    }
  }

  /** Right after an invalidation, later reads see the table exactly when no load in flight holds an
      older list. With no load in flight at all, they always do. */
  lemma InvalidationExactly(w: World)
    requires w.inner == None && w.ttl > 0.0
    ensures LaterReadsSee(w) <==> NoOldList(w)
  {
    if NoOldList(w) {
      forall acts, w', l | Leads(Step, w, acts, w') && NoWrites(acts) && l !in w.loads && l in w'.loads
          && w'.loads[l].Done?
        ensures w'.loads[l].list == w.table
      {
        SettledStays(w, acts, w', w.loads.Keys, w.table);
      }
    } else {
      var l :| l in w.loads && w.loads[l].Listed? && w.loads[l].list != w.table;
      OldListServed(w, l);
    }
  }

  /** A load that listed before the write and stores after the invalidation hands its old list to
      the next read. */
  lemma OldListServed(w: World, l: LoadId)
    requires w.ttl > 0.0 && l in w.loads && w.loads[l].Listed? && w.loads[l].list != w.table
    ensures !LaterReadsSee(w)
  {
    var l' := NewId(w.loads.Keys);
    var w1 := Do(w, StoreList(l));
    var w2 := Do(w1, Begin(l'));
    var w3 := Do(w2, ReadCache(l'));
    var acts := [StoreList(l), Begin(l'), ReadCache(l')];
    assert acts[1..] == [Begin(l'), ReadCache(l')] && acts[1..][1..] == [ReadCache(l')];
    assert acts[1..][1..][1..] == [];
    assert Leads(Step, w2, acts[1..][1..], w3);
    assert Leads(Step, w1, acts[1..], w3);
    assert Leads(Step, w, acts, w3) && NoWrites(acts);
    assert w3.loads[l'].Done? && w3.loads[l'].list == w.loads[l].list;
  }

  /** It happens from the empty cache: a load lists the table, a write replaces it and invalidates the
      cache, the load stores what it had listed, and a read that begins afterwards returns it. */
  lemma StaleAfterInvalidation(ttl: Time, before: Table, after: Table) returns (acts: seq<Action>, w: World)
    requires ttl > 0.0
    ensures Leads(Step, World(0.0, ttl, before, None, 0.0, map[]), acts, w)
    ensures acts == [Begin(0), ReadCache(0), ListAll(0), Write(after), Invalidate, StoreList(0), Begin(1), ReadCache(1)]
    ensures w.table == after && 1 in w.loads && w.loads[1].Done? && w.loads[1].list == before
  {
    var start := World(0.0, ttl, before, None, 0.0, map[]);
    acts, w := ListedBeforeWrite(ttl, before, after);
    acts, w := Further(Step, start, acts, w, StoreList(0));
    acts, w := Further(Step, start, acts, w, Begin(1));
    acts, w := Further(Step, start, acts, w, ReadCache(1));
  }

  lemma ListedBeforeWrite(ttl: Time, before: Table, after: Table) returns (acts: seq<Action>, w: World)
    ensures Leads(Step, World(0.0, ttl, before, None, 0.0, map[]), acts, w)
    ensures acts == [Begin(0), ReadCache(0), ListAll(0), Write(after), Invalidate]
    ensures w == World(0.0, ttl, after, None, 0.0, map[0 := Listed(0.0, before, 0.0)])
  {
    var start := World(0.0, ttl, before, None, 0.0, map[]);
    acts, w := Further(Step, start, [], start, Begin(0));
    acts, w := Further(Step, start, acts, w, ReadCache(0));
    acts, w := Further(Step, start, acts, w, ListAll(0));
    acts, w := Further(Step, start, acts, w, Write(after));
    acts, w := Further(Step, start, acts, w, Invalidate);
  }

  /** With no load in flight, the first read after a write and its invalidation sees the write. */
  lemma FirstReadSeesWrite(w: World, table: Table)
    requires w.ttl > 0.0 && forall l :: l in w.loads ==> w.loads[l].Done? || w.loads[l].Broken?
    ensures LaterReadsSee(Do(Do(w, Write(table)), Invalidate)) && Do(Do(w, Write(table)), Invalidate).table == table
  {
    InvalidationExactly(Do(Do(w, Write(table)), Invalidate));
  }
}
