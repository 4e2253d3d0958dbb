/** What every walk keeps, whatever the archive holds. */
module ArchiveProperties {
  import opened Wrappers
  import opened Archive
  import opened ArchiveWalker

  // ---------------------------------------------------------------- totals

  function Files(events: seq<Event>): nat {
    if events == [] then 0 else Files(events[..|events| - 1]) + if events[|events| - 1].File? then 1 else 0
  }

  /** The bytes of the files handed over. */
  function FileBytes(events: seq<Event>): nat {
    if events == [] then 0
    else FileBytes(events[..|events| - 1]) + if events[|events| - 1].File? then |events[|events| - 1].data| else 0
  }

  /** The bytes of the reads accepted. */
  function Accepted(actions: seq<Action>): nat {
    if actions == [] then 0
    else
      var last := actions[|actions| - 1];
      Accepted(actions[..|actions| - 1]) + if last.Read? && last.counted then last.produced else 0
  }

  function Emitted(actions: seq<Action>): seq<Event> {
    if actions == [] then []
    else
      var last := actions[|actions| - 1];
      Emitted(actions[..|actions| - 1]) + if last.Emit? then [last.event] else []
  }

  ghost predicate Totals(lim: Limits, st: State) {
    && st.files == Files(st.handed) <= lim.maxFiles
    && st.skipped == |st.handed| - Files(st.handed)
    && st.decompressed <= lim.maxTotalBytes
  }

  lemma HandAppends(lim: Limits, sink: Sink, st: State, a: Action)
    ensures var o := Perform(lim, sink, st, a);
            || (o.state.handed == st.handed && o.state.files == st.files && o.state.skipped == st.skipped)
            || (a.Emit? && o.state.handed == st.handed + [a.event]
                 && Files(o.state.handed) == Files(st.handed) + if a.event.File? then 1 else 0)
  {
    if a.Emit? {
      assert (st.handed + [a.event])[..|st.handed|] == st.handed;
    }
  }

  /** The totals always match what the sink got, stopped or not, and stay within the limits. */
  lemma {:induction false} TotalsAlways(lim: Limits, sink: Sink, st: State, actions: seq<Action>)
    requires Totals(lim, st)
    ensures Totals(lim, Exec(lim, sink, st, actions).state)
    decreases |actions|
  {
    if actions != [] {
      HandAppends(lim, sink, st, actions[0]);
      TotalsAlways(lim, sink, Perform(lim, sink, st, actions[0]).state, actions[1..]);
    }
  }

  /** What a run performed: the first `k` actions in full, and, when it stopped at an event, the
      handing over of that event. */
  ghost predicate Performs(st: State, o: Outcome, actions: seq<Action>, k: nat, last: seq<Action>) {
    && k <= |actions| && last <= actions[k..] && |last| <= 1
    && o.state.handed == st.handed + Emitted(actions[..k] + last)
    && o.state.decompressed == st.decompressed + Accepted(actions[..k] + last)
    && (o.stop.None? <==> k == |actions|)
  }

  lemma {:induction false} Performed(lim: Limits, sink: Sink, st: State, actions: seq<Action>)
      returns (k: nat, last: seq<Action>)
    ensures Performs(st, Exec(lim, sink, st, actions), actions, k, last)
    decreases |actions|
  {
    if actions == [] {
      k, last := 0, [];
      assert Emitted([]) == [] && Accepted([]) == 0;
    } else {
      var o := Perform(lim, sink, st, actions[0]);
      PerformOne(lim, sink, st, actions[0]);
      if o.stop.Some? {
        k := 0;
        last := PerformsStop(st, o, actions);
      } else {
        var k', last' := Performed(lim, sink, o.state, actions[1..]);
        k, last := k' + 1, last';
        PerformsCons(st, o.state, Exec(lim, sink, st, actions), actions, k', last');
      }
    }
  }

  lemma PerformsStop(st: State, o: Outcome, actions: seq<Action>) returns (last: seq<Action>)
    requires actions != [] && o.stop.Some?
    requires o.state.handed == st.handed ==> o.state.decompressed == st.decompressed
    requires o.state.handed != st.handed ==>
               o.state.handed == st.handed + Emitted([actions[0]])
                   && o.state.decompressed == st.decompressed + Accepted([actions[0]])
    ensures Performs(st, o, actions, 0, last)
  {
    last := if o.state.handed == st.handed then [] else [actions[0]];
    assert actions[..0] + last == last;
    assert actions[0..] == actions;
    assert st.handed + [] == st.handed;
  }

  lemma PerformsCons(st: State, mid: State, o: Outcome, actions: seq<Action>, k: nat, last: seq<Action>)
    requires actions != [] && Performs(mid, o, actions[1..], k, last)
    requires mid.handed == st.handed + Emitted([actions[0]])
              && mid.decompressed == st.decompressed + Accepted([actions[0]])
    ensures Performs(st, o, actions, k + 1, last)
  {
    TakeMore(actions, k, last);
    EmittedCons(actions[0], actions[1..][..k] + last);
  }

  lemma TakeMore(actions: seq<Action>, k: nat, last: seq<Action>)
    requires k < |actions|
    ensures actions[..k + 1] + last == [actions[0]] + (actions[1..][..k] + last)
    ensures actions[1..][k..] == actions[k + 1..]
  {
  }

  lemma PerformOne(lim: Limits, sink: Sink, st: State, a: Action)
    ensures var o := Perform(lim, sink, st, a);
            && (o.stop.None? || o.state.handed != st.handed ==>
                  o.state.handed == st.handed + Emitted([a]) && o.state.decompressed == st.decompressed + Accepted([a]))
            && (o.stop.Some? && o.state.handed == st.handed ==> o.state.decompressed == st.decompressed)
            && Emitted([]) == [] && Accepted([]) == 0
  {
    assert [a][..0] == [];
    assert Emitted([a]) == Emitted([]) + if a.Emit? then [a.event] else [];
  }

  lemma {:induction false} EmittedCons(a: Action, rest: seq<Action>)
    ensures Emitted([a] + rest) == Emitted([a]) + Emitted(rest)
    ensures Accepted([a] + rest) == Accepted([a]) + Accepted(rest)
    decreases |rest|
  {
    var all := [a] + rest;
    if rest == [] {
      assert all == [a];
    } else {
      assert all[..|all| - 1] == [a] + rest[..|rest| - 1];
      EmittedCons(a, rest[..|rest| - 1]);
    }
  }

  // ---------------------------------------------------------------- the shape of the plans

  /** One skip report, under `prefix`. */
  predicate OneSkip(prefix: string, actions: seq<Action>) {
    |actions| == 1 && actions[0].Emit? && actions[0].event.Skipped? && prefix <= actions[0].event.path
  }

  function SkipTail(path: string, p: Plan): seq<Action> {
    if p.failure.Some? then [Emit(Skipped(path, Describe(p.failure.value)))] else []
  }

  predicate Opens(lim: SkipLimits, path: string, data: Bytes, depth: nat) {
    data != [] && NestedFormat(data, path).Some? && depth < lim.maxDepth
  }

  function NestedPlan(lib: Library, lim: SkipLimits, path: string, data: Bytes, depth: nat): Plan
    requires Opens(lim, path, data, depth)
  {
    var format := NestedFormat(data, path).value;
    var (prefix, name) := NestedPlace(format, path);
    ArchivePlan(lib, lim, data, format, prefix, Some(name), depth + 1)
  }

  lemma FileShape(lib: Library, lim: SkipLimits, path: string, data: Bytes, depth: nat)
    ensures var acts := FileActions(lib, lim, path, data, depth);
            if Opens(lim, path, data, depth) then
              acts == NestedPlan(lib, lim, path, data, depth).actions
                  + SkipTail(path, NestedPlan(lib, lim, path, data, depth))
            else
              OneSkip(path, acts) || (data != [] && acts == [Emit(File(path, data))])
  {
  }

  /** The parts one after the other. */
  function Chain(parts: seq<seq<Action>>): seq<Action> {
    if parts == [] then [] else parts[0] + Chain(parts[1..])
  }

  lemma {:induction false} ZipParts(lib: Library, lim: SkipLimits, items: seq<ZipItem>, prefix: string, depth: nat)
      returns (parts: seq<seq<Action>>)
    ensures ZipItems(lib, lim, items, prefix, depth).actions == Chain(parts) && |parts| <= |items|
    ensures forall i :: 0 <= i < |parts|
              ==> items[i].ZipEntry? && parts[i] == ZipEntryActions(lib, lim, items[i], prefix, depth)
    decreases |items|
  {
    if items == [] || items[0].BrokenZip? {
      parts := [];
    } else {
      var rest := ZipParts(lib, lim, items[1..], prefix, depth);
      parts := [ZipEntryActions(lib, lim, items[0], prefix, depth)] + rest;
      assert parts[1..] == rest;
    }
  }

  /** A zip entry's content goes to the walker as a file. */
  predicate ZipReads(lim: SkipLimits, e: ZipItem) {
    e.ZipEntry? && e.safe.Some? && e.stream.Success? && |e.stream.value.content| <= lim.maxFileBytes
  }

  lemma ZipEntryShape(lib: Library, lim: SkipLimits, e: ZipItem, prefix: string, depth: nat)
    requires e.ZipEntry?
    ensures var acts := ZipEntryActions(lib, lim, e, prefix, depth);
            || acts == []
            || OneSkip(prefix, acts)
            || ReadThenSkip(lim, prefix, acts)
            || (ZipReads(lim, e) && acts == [Read(|e.stream.value.content|, true)]
                                          + FileActions(lib, lim, prefix + e.safe.value, e.stream.value.content, depth))
  {
    if !e.isDir && e.safe.Some? && e.safe.value != "" {
      ZipFileShape(lib, lim, e, prefix + e.safe.value, depth);
    }
  }

  lemma ZipFileShape(lib: Library, lim: SkipLimits, e: ZipItem, path: string, depth: nat)
    requires e.ZipEntry?
    ensures var acts := ZipFileActions(lib, lim, e, path, depth);
            || OneSkip(path, acts)
            || ReadThenSkip(lim, path, acts)
            || (e.stream.Success? && |e.stream.value.content| <= lim.maxFileBytes
                && acts == [Read(|e.stream.value.content|, true)]
                          + FileActions(lib, lim, path, e.stream.value.content, depth))
  {
    if e.stream.Success? {
      ZipContentShape(lib, lim, path, e.stream.value, depth);
    }
  }

  /** A read that is not counted, and the report of it. */
  predicate ReadThenSkip(lim: SkipLimits, prefix: string, actions: seq<Action>) {
    && |actions| == 2 && actions[0].Read? && !actions[0].counted && actions[0].produced <= lim.maxFileBytes + 1
    && OneSkip(prefix, actions[1..])
  }

  lemma ZipContentShape(lib: Library, lim: SkipLimits, path: string, s: Stream, depth: nat)
    ensures var acts := ZipContentActions(lib, lim, path, s, depth);
            || ReadThenSkip(lim, path, acts)
            || (|s.content| <= lim.maxFileBytes
                && acts == [Read(|s.content|, true)] + FileActions(lib, lim, path, s.content, depth))
  {
  }

  lemma {:induction false} TarParts(lib: Library, lim: SkipLimits, items: seq<TarItem>, prefix: string, depth: nat)
      returns (parts: seq<seq<Action>>)
    ensures TarItems(lib, lim, items, prefix, depth).actions == Chain(parts) && |parts| <= |items|
    ensures forall i :: 0 <= i < |parts|
              ==> items[i].TarEntry? && parts[i] == TarEntryActions(lib, lim, items[i], prefix, depth)
    decreases |items|
  {
    if TarItems(lib, lim, items, prefix, depth).actions == [] {
      parts := [];
    } else {
      var rest := TarParts(lib, lim, items[1..], prefix, depth);
      parts := [TarEntryActions(lib, lim, items[0], prefix, depth)] + rest;
      assert parts[1..] == rest;
    }
  }

  function EntryBytes(e: TarItem): nat {
    if e.TarEntry? && (e.kind == Regular || e.kind == Contiguous) then |e.stream.content| else 0
  }

  lemma TarEntryShape(lib: Library, lim: SkipLimits, e: TarItem, prefix: string, depth: nat)
    requires e.TarEntry?
    ensures var acts := TarEntryActions(lib, lim, e, prefix, depth);
            || acts == []
            || OneSkip(prefix, acts)
            || (e.safe.Some? && EntryBytes(e) == |e.stream.content| <= lim.maxFileBytes
                && acts == FileActions(lib, lim, prefix + e.safe.value, e.stream.content, depth))
  {
    if e.kind != Dir && e.safe.Some? && e.safe.value != "" {
      TarFileShape(lib, lim, e, prefix + e.safe.value, depth);
    }
  }

  lemma TarFileShape(lib: Library, lim: SkipLimits, e: TarItem, path: string, depth: nat)
    requires e.TarEntry? && e.kind != Dir
    ensures var acts := TarFileActions(lib, lim, e, path, depth);
            || acts == []
            || OneSkip(path, acts)
            || (EntryBytes(e) == |e.stream.content| <= lim.maxFileBytes
                && acts == FileActions(lib, lim, path, e.stream.content, depth))
  {
  }

  // ---------------------------------------------------------------- bytes

  /** Going through the actions with `credit` bytes in hand, accepted reads adding to them and
      files taking from them: what is left, or nothing when a file exceeds it. */
  function Balance(actions: seq<Action>, credit: nat): Option<nat>
    decreases |actions|
  {
    if actions == [] then Some(credit)
    else
      match actions[0]
      case Read(n, true) => Balance(actions[1..], credit + n)
      case Emit(File(_, d)) => if |d| <= credit then Balance(actions[1..], credit - |d|) else None
      case _ => Balance(actions[1..], credit)
  }

  predicate Covered(actions: seq<Action>, credit: nat) {
    Balance(actions, credit).Some?
  }

  lemma {:induction false} BalanceConcat(a: seq<Action>, b: seq<Action>, credit: nat)
    requires Covered(a, credit)
    ensures Balance(a + b, credit) == Balance(b, Balance(a, credit).value)
    decreases |a|
  {
    if a == [] {
      assert a + b == b;
    } else {
      assert (a + b)[1..] == a[1..] + b;
      match a[0]
      case Read(n, true) => BalanceConcat(a[1..], b, credit + n);
      case Emit(File(_, d)) => BalanceConcat(a[1..], b, credit - |d|);
      case _ => BalanceConcat(a[1..], b, credit);
    }
  }

  lemma {:induction false} CoveredMore(a: seq<Action>, credit: nat, more: nat)
    requires Covered(a, credit)
    ensures Balance(a, credit + more) == Some(Balance(a, credit).value + more)
    decreases |a|
  {
    if a != [] {
      match a[0]
      case Read(n, true) => CoveredMore(a[1..], credit + n, more);
      case Emit(File(_, d)) => CoveredMore(a[1..], credit - |d|, more);
      case _ => CoveredMore(a[1..], credit, more);
    }
  }

  /** Two parts, each covered by its own credit, are covered by the sum. */
  lemma CoveredSum(a: seq<Action>, ca: nat, b: seq<Action>, cb: nat)
    requires Covered(a, ca) && Covered(b, cb)
    ensures Covered(a + b, ca + cb)
  {
    CoveredMore(a, ca, cb);
    CoveredMore(b, cb, Balance(a, ca).value);
    BalanceConcat(a, b, ca + cb);
  }

  /** The bytes of a tar's entries that may be read. */
  function TarBytes(items: seq<TarItem>): nat {
    if items == [] then 0 else TarBytes(items[1..]) + EntryBytes(items[0])
  }

  /** Entry contents are disjoint slices of the tar. */
  ghost predicate TarSlices(lib: Library) {
    forall data :: lib.tar(data).Success? ==> TarBytes(lib.tar(data).value) <= |data|
  }

  function TarCredit(format: Format, data: Bytes): nat {
    if format == Tar then |data| else 0
  }

  lemma {:induction false} ArchiveCovered(lib: Library, lim: SkipLimits, data: Bytes, format: Format, prefix: string,
      name: Option<string>, depth: nat)
    requires TarSlices(lib)
    ensures Covered(ArchivePlan(lib, lim, data, format, prefix, name, depth).actions, TarCredit(format, data))
    decreases DepthLeft(lim, depth), 5, 0
  {
    var p := match format
      case Zip => ZipPlan(lib, lim, data, prefix, depth)
      case Tar => TarPlan(lib, lim, data, prefix, depth)
      case Gzip => GzipPlan(lib, lim, data, prefix, name, depth);
    match format {
      case Zip =>
        if lib.zip(data).Success? {
          ZipItemsCovered(lib, lim, lib.zip(data).value, prefix, depth);
        }
      case Tar => TarCovered(lib, lim, data, prefix, depth);
      case Gzip => GzipCovered(lib, lim, data, prefix, name, depth);
    }
    assert ([Open(depth)] + p.actions)[1..] == p.actions;
  }

  lemma {:induction false} GzipCovered(lib: Library, lim: SkipLimits, data: Bytes, prefix: string,
      name: Option<string>, depth: nat)
    requires TarSlices(lib)
    ensures Covered(GzipPlan(lib, lim, data, prefix, name, depth).actions, 0)
    decreases DepthLeft(lim, depth), 4, 0
  {
    var s := lib.gunzip(data);
    if |s.content| <= lim.maxFileBytes && s.failure == None {
      if IsTar(s.content) {
        TarCovered(lib, lim, s.content, prefix, depth);
        ReadCovers(TarPlan(lib, lim, s.content, prefix, depth).actions, |s.content|);
      } else {
        FileCovered(lib, lim, prefix + GunzippedFile(name), s.content, depth);
        ReadCovers(FileActions(lib, lim, prefix + GunzippedFile(name), s.content, depth), |s.content|);
      }
    }
  }

  /** Parts covered each by its own credit. */
  ghost predicate PartsCovered(parts: seq<seq<Action>>, credits: seq<nat>) {
    |parts| == |credits| && forall i :: 0 <= i < |parts| ==> Covered(parts[i], credits[i])
  }

  function Sum(s: seq<nat>): nat {
    if s == [] then 0 else s[0] + Sum(s[1..])
  }

  lemma {:induction false} ChainCovered(parts: seq<seq<Action>>, credits: seq<nat>)
    requires PartsCovered(parts, credits)
    ensures Covered(Chain(parts), Sum(credits))
    decreases |parts|
  {
    if parts != [] {
      ChainCovered(parts[1..], credits[1..]);
      CoveredSum(parts[0], credits[0], Chain(parts[1..]), Sum(credits[1..]));
    }
  }

  lemma {:induction false} SumOfNone(n: nat)
    ensures Sum(seq(n, _ => 0)) == 0
  {
    if n > 0 {
      var zero: seq<nat> := seq(n, _ => 0);
      assert zero[1..] == seq(n - 1, _ => 0);
      SumOfNone(n - 1);
    }
  }

  lemma {:induction false} ZipItemsCovered(lib: Library, lim: SkipLimits, items: seq<ZipItem>, prefix: string,
      depth: nat)
    requires TarSlices(lib)
    ensures Covered(ZipItems(lib, lim, items, prefix, depth).actions, 0)
    decreases DepthLeft(lim, depth), 2, 0
  {
    var parts := ZipParts(lib, lim, items, prefix, depth);
    forall i | 0 <= i < |parts| {
      ZipEntryCovered(lib, lim, items[i], prefix, depth);
    }
    ChainCovered(parts, seq(|parts|, _ => 0));
    SumOfNone(|parts|);
  }

  lemma SkipCovered(prefix: string, acts: seq<Action>, credit: nat)
    requires acts == [] || OneSkip(prefix, acts)
    ensures Covered(acts, credit)
  {
  }

  lemma {:induction false} ZipEntryCovered(lib: Library, lim: SkipLimits, e: ZipItem, prefix: string, depth: nat)
    requires e.ZipEntry? && TarSlices(lib)
    ensures Covered(ZipEntryActions(lib, lim, e, prefix, depth), 0)
    decreases DepthLeft(lim, depth), 1, 0
  {
    var acts := ZipEntryActions(lib, lim, e, prefix, depth);
    ZipEntryShape(lib, lim, e, prefix, depth);
    if ZipReads(lim, e) {
      var content := e.stream.value.content;
      FileCovered(lib, lim, prefix + e.safe.value, content, depth);
      ReadCovers(FileActions(lib, lim, prefix + e.safe.value, content, depth), |content|);
    }
    if ReadThenSkip(lim, prefix, acts) {
      SkipCovered(prefix, acts[1..], 0);
    }
  }

  lemma ReadCovers(acts: seq<Action>, n: nat)
    requires Covered(acts, n)
    ensures Covered([Read(n, true)] + acts, 0)
  {
    assert ([Read(n, true)] + acts)[1..] == acts;
  }

  lemma {:induction false} TarCovered(lib: Library, lim: SkipLimits, data: Bytes, prefix: string, depth: nat)
    requires TarSlices(lib)
    ensures Covered(TarPlan(lib, lim, data, prefix, depth).actions, |data|)
    decreases DepthLeft(lim, depth), 3, 0
  {
    if lib.tar(data).Success? {
      var items := lib.tar(data).value;
      TarItemsCovered(lib, lim, items, prefix, depth);
      CoveredMore(TarItems(lib, lim, items, prefix, depth).actions, TarBytes(items), |data| - TarBytes(items));
    }
  }

  lemma {:induction false} SumOfTar(items: seq<TarItem>, n: nat)
    requires n <= |items|
    ensures Sum(seq(n, i requires 0 <= i < n => EntryBytes(items[i]))) <= TarBytes(items)
    decreases n
  {
    if n > 0 {
      var credits := seq(n, i requires 0 <= i < n => EntryBytes(items[i]));
      assert credits[1..] == seq(n - 1, i requires 0 <= i < n - 1 => EntryBytes(items[1..][i]));
      SumOfTar(items[1..], n - 1);
    }
  }

  lemma {:induction false} TarItemsCovered(lib: Library, lim: SkipLimits, items: seq<TarItem>, prefix: string,
      depth: nat)
    requires TarSlices(lib)
    ensures Covered(TarItems(lib, lim, items, prefix, depth).actions, TarBytes(items))
    decreases DepthLeft(lim, depth), 2, 0
  {
    var parts := TarParts(lib, lim, items, prefix, depth);
    forall i | 0 <= i < |parts| {
      TarEntryCovered(lib, lim, items[i], prefix, depth);
    }
    TarChainCovered(items, parts);
  }

  lemma TarChainCovered(items: seq<TarItem>, parts: seq<seq<Action>>)
    requires |parts| <= |items| && forall i :: 0 <= i < |parts| ==> Covered(parts[i], EntryBytes(items[i]))
    ensures Covered(Chain(parts), TarBytes(items))
  {
    var credits := seq(|parts|, i requires 0 <= i < |parts| => EntryBytes(items[i]));
    ChainCovered(parts, credits);
    SumOfTar(items, |parts|);
    CoveredMore(Chain(parts), Sum(credits), TarBytes(items) - Sum(credits));
  }

  lemma {:induction false} TarEntryCovered(lib: Library, lim: SkipLimits, e: TarItem, prefix: string, depth: nat)
    requires e.TarEntry? && TarSlices(lib)
    ensures Covered(TarEntryActions(lib, lim, e, prefix, depth), EntryBytes(e))
    decreases DepthLeft(lim, depth), 1, 0
  {
    var acts := TarEntryActions(lib, lim, e, prefix, depth);
    TarEntryShape(lib, lim, e, prefix, depth);
    if acts == [] || OneSkip(prefix, acts) {
      SkipCovered(prefix, acts, EntryBytes(e));
    } else {
      FileCovered(lib, lim, prefix + e.safe.value, e.stream.content, depth);
    }
  }

  lemma {:induction false} FileCovered(lib: Library, lim: SkipLimits, path: string, data: Bytes, depth: nat)
    requires TarSlices(lib)
    ensures Covered(FileActions(lib, lim, path, data, depth), |data|)
    decreases DepthLeft(lim, depth), 0, 0
  {
    FileShape(lib, lim, path, data, depth);
    if Opens(lim, path, data, depth) {
      var format := NestedFormat(data, path).value;
      var (prefix, name) := NestedPlace(format, path);
      ArchiveCovered(lib, lim, data, format, prefix, Some(name), depth + 1);
      TailCovered(path, NestedPlan(lib, lim, path, data, depth), TarCredit(format, data), |data|);
    } else {
      FileOrSkipCovered(path, data, FileActions(lib, lim, path, data, depth));
    }
  }

  lemma FileOrSkipCovered(path: string, data: Bytes, acts: seq<Action>)
    requires OneSkip(path, acts) || (data != [] && acts == [Emit(File(path, data))])
    ensures Covered(acts, |data|)
  {
  }

  lemma TailCovered(path: string, p: Plan, credit: nat, more: nat)
    requires Covered(p.actions, credit) && credit <= more
    ensures Covered(p.actions + SkipTail(path, p), more)
  {
    CoveredMore(p.actions, credit, more - credit);
    BalanceConcat(p.actions, SkipTail(path, p), more);
  }

  /** Covered actions hand over no more file bytes than the credit and the accepted reads. */
  lemma {:induction false} BytesBounded(lim: Limits, sink: Sink, st: State, actions: seq<Action>, credit: nat)
    requires Covered(actions, credit)
    ensures var o := Exec(lim, sink, st, actions);
            FileBytes(o.state.handed) + st.decompressed <= FileBytes(st.handed) + credit + o.state.decompressed
    decreases |actions|
  {
    if actions != [] {
      var a := actions[0];
      var o := Perform(lim, sink, st, a);
      if a.Emit? {
        assert (st.handed + [a.event])[..|st.handed|] == st.handed;
      }
      if o.stop.None? {
        match a
        case Read(n, true) => BytesBounded(lim, sink, o.state, actions[1..], credit + n);
        case Emit(File(_, d)) => BytesBounded(lim, sink, o.state, actions[1..], credit - |d|);
        case _ => BytesBounded(lim, sink, o.state, actions[1..], credit);
      }
    }
  }

  // ---------------------------------------------------------------- every action of a layer

  /** Files are neither empty nor too large, paths are under `prefix`, and no layer is too deep. */
  predicate Fine(lim: SkipLimits, prefix: string, a: Action) {
    match a
    case Open(d) => d <= if lim.maxDepth > 1 then lim.maxDepth else 1
    case Read(n, counted) => n <= lim.maxFileBytes + 1 && (counted ==> n <= lim.maxFileBytes)
    case Emit(File(p, d)) => prefix <= p && 1 <= |d| <= lim.maxFileBytes
    case Emit(Skipped(p, _)) => prefix <= p
  }

  ghost predicate AllFine(lim: SkipLimits, prefix: string, actions: seq<Action>) {
    forall a :: a in actions ==> Fine(lim, prefix, a)
  }

  /** Prefixes are empty or end at a folder. */
  predicate IsPrefix(prefix: string) {
    prefix == "" || prefix[|prefix| - 1] == '/'
  }

  predicate DepthOk(lim: SkipLimits, depth: nat) {
    depth <= 1 || depth <= lim.maxDepth
  }

  lemma {:induction false} ArchiveFine(lib: Library, lim: SkipLimits, data: Bytes, format: Format, prefix: string,
      name: Option<string>, depth: nat)
    requires IsPrefix(prefix) && DepthOk(lim, depth)
    ensures AllFine(lim, prefix, ArchivePlan(lib, lim, data, format, prefix, name, depth).actions)
    decreases DepthLeft(lim, depth), 5, 0
  {
    match format {
      case Zip => ZipFine(lib, lim, data, prefix, depth);
      case Tar => TarFine(lib, lim, data, prefix, depth);
      case Gzip => GzipFine(lib, lim, data, prefix, name, depth);
    }
  }

  lemma {:induction false} ZipFine(lib: Library, lim: SkipLimits, data: Bytes, prefix: string, depth: nat)
    requires IsPrefix(prefix) && DepthOk(lim, depth)
    ensures AllFine(lim, prefix, ZipPlan(lib, lim, data, prefix, depth).actions)
    decreases DepthLeft(lim, depth), 3, 0
  {
    if lib.zip(data).Success? {
      ZipItemsFine(lib, lim, lib.zip(data).value, prefix, depth);
    }
  }

  lemma {:induction false} GzipFine(lib: Library, lim: SkipLimits, data: Bytes, prefix: string, name: Option<string>,
      depth: nat)
    requires IsPrefix(prefix) && DepthOk(lim, depth)
    ensures AllFine(lim, prefix, GzipPlan(lib, lim, data, prefix, name, depth).actions)
    decreases DepthLeft(lim, depth), 4, 0
  {
    var s := lib.gunzip(data);
    if |s.content| <= lim.maxFileBytes && s.failure == None {
      if IsTar(s.content) {
        TarFine(lib, lim, s.content, prefix, depth);
        ReadFine(lim, prefix, TarPlan(lib, lim, s.content, prefix, depth).actions, |s.content|);
      } else {
        FileFine(lib, lim, prefix, prefix + GunzippedFile(name), s.content, depth);
        ReadFine(lim, prefix, FileActions(lib, lim, prefix + GunzippedFile(name), s.content, depth), |s.content|);
      }
    }
  }

  lemma {:induction false} ChainFine(lim: SkipLimits, prefix: string, parts: seq<seq<Action>>)
    requires forall i :: 0 <= i < |parts| ==> AllFine(lim, prefix, parts[i])
    ensures AllFine(lim, prefix, Chain(parts))
    decreases |parts|
  {
    if parts != [] {
      ChainFine(lim, prefix, parts[1..]);
    }
  }

  lemma {:induction false} ZipItemsFine(lib: Library, lim: SkipLimits, items: seq<ZipItem>, prefix: string, depth: nat)
    requires IsPrefix(prefix) && DepthOk(lim, depth)
    ensures AllFine(lim, prefix, ZipItems(lib, lim, items, prefix, depth).actions)
    decreases DepthLeft(lim, depth), 2, 0
  {
    var parts := ZipParts(lib, lim, items, prefix, depth);
    forall i | 0 <= i < |parts| {
      ZipEntryFine(lib, lim, items[i], prefix, depth);
    }
    ChainFine(lim, prefix, parts);
  }

  lemma {:induction false} ZipEntryFine(lib: Library, lim: SkipLimits, e: ZipItem, prefix: string, depth: nat)
    requires e.ZipEntry? && IsPrefix(prefix) && DepthOk(lim, depth)
    ensures AllFine(lim, prefix, ZipEntryActions(lib, lim, e, prefix, depth))
    decreases DepthLeft(lim, depth), 1, 0
  {
    var acts := ZipEntryActions(lib, lim, e, prefix, depth);
    ZipEntryShape(lib, lim, e, prefix, depth);
    if ZipReads(lim, e) {
      var content := e.stream.value.content;
      FileFine(lib, lim, prefix, prefix + e.safe.value, content, depth);
      ReadFine(lim, prefix, FileActions(lib, lim, prefix + e.safe.value, content, depth), |content|);
    }
    ReportFine(lim, prefix, acts);
  }

  lemma ReadFine(lim: SkipLimits, prefix: string, acts: seq<Action>, n: nat)
    requires AllFine(lim, prefix, acts) && n <= lim.maxFileBytes
    ensures AllFine(lim, prefix, [Read(n, true)] + acts)
  {
  }

  lemma ReportFine(lim: SkipLimits, prefix: string, acts: seq<Action>)
    ensures acts == [] || OneSkip(prefix, acts) ==> AllFine(lim, prefix, acts)
    ensures ReadThenSkip(lim, prefix, acts) ==> AllFine(lim, prefix, acts)
  {
  }

  lemma {:induction false} TarFine(lib: Library, lim: SkipLimits, data: Bytes, prefix: string, depth: nat)
    requires IsPrefix(prefix) && DepthOk(lim, depth)
    ensures AllFine(lim, prefix, TarPlan(lib, lim, data, prefix, depth).actions)
    decreases DepthLeft(lim, depth), 3, 0
  {
    if lib.tar(data).Success? {
      TarItemsFine(lib, lim, lib.tar(data).value, prefix, depth);
    }
  }

  lemma {:induction false} TarItemsFine(lib: Library, lim: SkipLimits, items: seq<TarItem>, prefix: string, depth: nat)
    requires IsPrefix(prefix) && DepthOk(lim, depth)
    ensures AllFine(lim, prefix, TarItems(lib, lim, items, prefix, depth).actions)
    decreases DepthLeft(lim, depth), 2, 0
  {
    var parts := TarParts(lib, lim, items, prefix, depth);
    forall i | 0 <= i < |parts| {
      TarEntryFine(lib, lim, items[i], prefix, depth);
    }
    ChainFine(lim, prefix, parts);
  }

  lemma {:induction false} TarEntryFine(lib: Library, lim: SkipLimits, e: TarItem, prefix: string, depth: nat)
    requires e.TarEntry? && IsPrefix(prefix) && DepthOk(lim, depth)
    ensures AllFine(lim, prefix, TarEntryActions(lib, lim, e, prefix, depth))
    decreases DepthLeft(lim, depth), 1, 0
  {
    var acts := TarEntryActions(lib, lim, e, prefix, depth);
    TarEntryShape(lib, lim, e, prefix, depth);
    if acts == [] || OneSkip(prefix, acts) {
      ReportFine(lim, prefix, acts);
    } else {
      FileFine(lib, lim, prefix, prefix + e.safe.value, e.stream.content, depth);
    }
  }

  lemma {:induction false} FileFine(lib: Library, lim: SkipLimits, outer: string, path: string, data: Bytes, depth: nat)
    requires IsPrefix(outer) && outer <= path && |data| <= lim.maxFileBytes
    ensures AllFine(lim, outer, FileActions(lib, lim, path, data, depth))
    decreases DepthLeft(lim, depth), 0, 0
  {
    FileShape(lib, lim, path, data, depth);
    if Opens(lim, path, data, depth) {
      var format := NestedFormat(data, path).value;
      var (prefix, name) := NestedPlace(format, path);
      PlaceIsInside(outer, format, path);
      ArchiveFine(lib, lim, data, format, prefix, Some(name), depth + 1);
      TailFine(lim, outer, prefix, path, NestedPlan(lib, lim, path, data, depth));
    } else {
      FileOrSkipFine(lim, outer, path, data, FileActions(lib, lim, path, data, depth));
    }
  }

  lemma TailFine(lim: SkipLimits, outer: string, prefix: string, path: string, p: Plan)
    requires outer <= prefix && outer <= path && AllFine(lim, prefix, p.actions)
    ensures AllFine(lim, outer, p.actions + SkipTail(path, p))
  {
    forall a | a in p.actions ensures Fine(lim, outer, a) {
      assert Fine(lim, prefix, a);
    }
  }

  lemma FileOrSkipFine(lim: SkipLimits, outer: string, path: string, data: Bytes, acts: seq<Action>)
    requires outer <= path && |data| <= lim.maxFileBytes
    requires OneSkip(path, acts) || (data != [] && acts == [Emit(File(path, data))])
    ensures AllFine(lim, outer, acts)
  {
  }

  /** A nested archive's entries stay under the folder it was found in. */
  lemma PlaceIsInside(outer: string, format: Format, path: string)
    requires IsPrefix(outer) && outer <= path
    ensures var prefix := NestedPlace(format, path).0; IsPrefix(prefix) && outer <= prefix
  {
    if format == Gzip && outer != "" {
      assert path[|outer| - 1] == '/';
    }
  }

  // ---------------------------------------------------------------- the walk

  ghost predicate WalkOutcome(lib: Library, lim: Limits, sink: Sink, data: Bytes, format: Format, name: Option<string>,
      o: Outcome) {
    o == Exec(lim, sink, State(0, 0, 0, []), ArchivePlan(lib, lim.Skips(), data, format, "", name, 1).actions)
  }

  /** The files handed over never hold more bytes than the accepted reads plus, for a tar,
      its own length, nor more than the total limit plus that length. */
  lemma WalkBytes(lib: Library, lim: Limits, sink: Sink, data: Bytes, format: Format, name: Option<string>, o: Outcome)
    requires TarSlices(lib) && WalkOutcome(lib, lim, sink, data, format, name, o)
    ensures FileBytes(o.state.handed) <= o.state.decompressed + TarCredit(format, data)
    ensures FileBytes(o.state.handed) <= lim.maxTotalBytes + TarCredit(format, data)
  {
    ArchiveCovered(lib, lim.Skips(), data, format, "", name, 1);
    var st := State(0, 0, 0, []);
    var acts := ArchivePlan(lib, lim.Skips(), data, format, "", name, 1).actions;
    BytesBounded(lim, sink, st, acts, TarCredit(format, data));
    TotalsAlways(lim, sink, st, acts);
  }

  /** At every moment of a walk, and at its end however it ends, the totals match the events,
      files are within bounds and no more than allowed. */
  lemma WalkTotals(lib: Library, lim: Limits, sink: Sink, data: Bytes, format: Format, name: Option<string>, k: nat)
    requires k <= |ArchivePlan(lib, lim.Skips(), data, format, "", name, 1).actions|
    ensures var acts := ArchivePlan(lib, lim.Skips(), data, format, "", name, 1).actions[..k];
            var st := Exec(lim, sink, State(0, 0, 0, []), acts).state;
            && Totals(lim, st)
            && forall e :: e in st.handed && e.File? ==> 1 <= |e.data| <= lim.maxFileBytes
  {
    var st := State(0, 0, 0, []);
    var acts := ArchivePlan(lib, lim.Skips(), data, format, "", name, 1).actions;
    TotalsAlways(lim, sink, st, acts[..k]);
    ArchiveFine(lib, lim.Skips(), data, format, "", name, 1);
    HandedFine(lim, sink, st, acts[..k]);
  }

  lemma {:induction false} HandedFine(lim: Limits, sink: Sink, st: State, actions: seq<Action>)
    requires AllFine(lim.Skips(), "", actions)
    requires forall e :: e in st.handed && e.File? ==> 1 <= |e.data| <= lim.maxFileBytes
    ensures forall e :: e in Exec(lim, sink, st, actions).state.handed && e.File? ==> 1 <= |e.data| <= lim.maxFileBytes
    decreases |actions|
  {
    if actions != [] {
      assert Fine(lim.Skips(), "", actions[0]);
      var o := Perform(lim, sink, st, actions[0]);
      if o.stop.None? {
        HandedFine(lim, sink, o.state, actions[1..]);
      }
    }
  }

  /** No layer opens deeper than the limit, though a walk always opens the outer one. */
  lemma WalkDepth(lib: Library, lim: Limits, data: Bytes, format: Format, name: Option<string>, d: nat)
    requires Open(d) in ArchivePlan(lib, lim.Skips(), data, format, "", name, 1).actions
    ensures d <= 1 || d <= lim.maxDepth
  {
    ArchiveFine(lib, lim.Skips(), data, format, "", name, 1);
    assert Fine(lim.Skips(), "", Open(d));
  }

  /** A walk that ends in a local error went through everything its outermost layer holds: the
      error is that layer's own, and every event before it was handed over. */
  lemma LocalErrorIsOutermost(lib: Library, lim: Limits, sink: Sink, data: Bytes, format: Format, name: Option<string>,
      o: Outcome, e: ArchiveError)
    requires WalkOutcome(lib, lim, sink, data, format, name, o)
    requires Verdict(o, ArchivePlan(lib, lim.Skips(), data, format, "", name, 1).failure) == Failure(e) && e.IsLocal()
    ensures ArchivePlan(lib, lim.Skips(), data, format, "", name, 1).failure == Some(e)
    ensures e.Corrupt? ==> e.format == format || (format == Gzip && e.format == Tar)
    ensures e.FileTooLarge? ==> format == Gzip
    ensures o.state.handed == Emitted(ArchivePlan(lib, lim.Skips(), data, format, "", name, 1).actions)
  {
    var st := State(0, 0, 0, []);
    var acts := ArchivePlan(lib, lim.Skips(), data, format, "", name, 1).actions;
    StopsAreFatal(lim, sink, st, acts);
    PlanFailureIsLocal(lib, lim.Skips(), data, format, "", name, 1);
    var k, last := Performed(lim, sink, st, acts);
    assert acts[..|acts|] + [] == acts;
  }

  /** A nested archive that fails loses nothing it gave: wherever the walk stops, the sink has got the
      first of that archive's own events, and when the walk gets past it, all of them and then one
      report that the archive was skipped. */
  lemma NestedFailureKeepsFiles(lib: Library, lim: Limits, sink: Sink, st: State, path: string, data: Bytes, depth: nat)
    requires Opens(lim.Skips(), path, data, depth) && NestedPlan(lib, lim.Skips(), path, data, depth).failure.Some?
    ensures var p := NestedPlan(lib, lim.Skips(), path, data, depth);
            var o := Exec(lim, sink, st, FileActions(lib, lim.Skips(), path, data, depth));
            var all := Emitted(p.actions) + [Skipped(path, Describe(p.failure.value))];
            && (exists n: nat :: n <= |all| && o.state.handed == st.handed + all[..n])
            && (o.stop == None ==> o.state.handed == st.handed + all)
            && (o.stop.Some? ==> !o.stop.value.IsLocal())
  {
    var p := NestedPlan(lib, lim.Skips(), path, data, depth);
    var acts := FileActions(lib, lim.Skips(), path, data, depth);
    FileShape(lib, lim.Skips(), path, data, depth);
    NestedEmits(p, path);
    StopsAreFatal(lim, sink, st, acts);
    var k, last := Performed(lim, sink, st, acts);
    PerformedPrefix(acts, k, last);
    var n := |Emitted(acts[..k] + last)|;
    assert Emitted(acts)[..n] == Emitted(acts[..k] + last);
    if k == |acts| {
      assert acts[..k] + last == acts;
    }
  }

  lemma NestedEmits(p: Plan, path: string)
    requires p.failure.Some?
    ensures Emitted(p.actions + SkipTail(path, p)) == Emitted(p.actions) + [Skipped(path, Describe(p.failure.value))]
  {
    var all := p.actions + SkipTail(path, p);
    assert all[..|all| - 1] == p.actions;
  }

  lemma PerformedPrefix(acts: seq<Action>, k: nat, last: seq<Action>)
    requires k <= |acts| && last <= acts[k..]
    ensures Emitted(acts[..k] + last) <= Emitted(acts) && acts[..k] + last <= acts
  {
    assert acts == acts[..k] + acts[k..];
    EmittedPrefix(acts[..k] + last, acts);
  }

  /** The limits on the whole walk, and the sink, never change what is found: the events handed over
      are the first of those the archive holds, all of them unless the walk was stopped, and the
      bytes counted are those of the accepted reads up to there. */
  lemma LimitsOnlyTruncate(lib: Library, lim: Limits, sink: Sink, data: Bytes, format: Format, name: Option<string>,
      o: Outcome)
    returns (performed: seq<Action>)
    requires WalkOutcome(lib, lim, sink, data, format, name, o)
    ensures var acts := ArchivePlan(lib, lim.Skips(), data, format, "", name, 1).actions;
            && performed <= acts && (o.stop == None ==> performed == acts)
            && o.state.handed == Emitted(performed) <= Emitted(acts)
            && o.state.decompressed == Accepted(performed)
  {
    var st := State(0, 0, 0, []);
    var acts := ArchivePlan(lib, lim.Skips(), data, format, "", name, 1).actions;
    var k, last := Performed(lim, sink, st, acts);
    performed := acts[..k] + last;
    PerformedPrefix(acts, k, last);
  }

  lemma {:induction false} EmittedPrefix(a: seq<Action>, b: seq<Action>)
    requires a <= b
    ensures Emitted(a) <= Emitted(b)
    decreases |b|
  {
    if |a| < |b| {
      EmittedPrefix(a, b[..|b| - 1]);
    } else {
      assert a == b;
    }
  }

  /** Two walks of an archive under different totals or sinks give the same events as far as both
      go. */
  lemma WalksAgree(lib: Library, lim: Limits, sink: Sink, lim': Limits, sink': Sink, data: Bytes, format: Format,
      name: Option<string>, o: Outcome, o': Outcome)
    requires lim.Skips() == lim'.Skips()
    requires WalkOutcome(lib, lim, sink, data, format, name, o) && WalkOutcome(lib, lim', sink', data, format, name, o')
    ensures o.state.handed <= o'.state.handed || o'.state.handed <= o.state.handed
    ensures o'.stop == None ==> o.state.handed <= o'.state.handed
  {
    var p := LimitsOnlyTruncate(lib, lim, sink, data, format, name, o);
    var p' := LimitsOnlyTruncate(lib, lim', sink', data, format, name, o');
    if |p| <= |p'| {
      EmittedPrefix(p, p');
    } else {
      EmittedPrefix(p', p);
    }
  }

  lemma {:induction false} HandedGrows(lim: Limits, sink: Sink, st: State, actions: seq<Action>)
    ensures st.handed <= Exec(lim, sink, st, actions).state.handed
    decreases |actions|
  {
    if actions != [] {
      HandAppends(lim, sink, st, actions[0]);
      HandedGrows(lim, sink, Perform(lim, sink, st, actions[0]).state, actions[1..]);
    }
  }

  /** One action: the sink is asked about what it is handed. */
  lemma SinkAsked(lim: Limits, sink: Sink, st: State, a: Action, m: string)
    ensures var o := Perform(lim, sink, st, a);
            && (o.state.handed == st.handed || (a.Emit? && o.state.handed == st.handed + [a.event]))
            && (o.stop == Some(Stopped(m)) <==> o.state.handed != st.handed && sink(o.state.handed) == Some(m))
            && (o.stop == None && o.state.handed != st.handed ==> sink(o.state.handed) == None)
  {
  }

  /** The sink is heard: the walk ends as stopped exactly when it was not content with the last it was
      handed. */
  lemma {:induction false} StoppedBySink(lim: Limits, sink: Sink, st: State, actions: seq<Action>, m: string)
    ensures var o := Exec(lim, sink, st, actions);
            o.stop == Some(Stopped(m)) <==> o.state.handed != st.handed && sink(o.state.handed) == Some(m)
    decreases |actions|
  {
    if actions != [] {
      var o := Perform(lim, sink, st, actions[0]);
      SinkAsked(lim, sink, st, actions[0], m);
      if o.stop.None? {
        StoppedBySink(lim, sink, o.state, actions[1..], m);
        HandedGrows(lim, sink, o.state, actions[1..]);
      }
    }
  }

  /** It was content with everything handed to it before. */
  lemma {:induction false} ContentBefore(lim: Limits, sink: Sink, st: State, actions: seq<Action>, n: nat)
    requires |st.handed| < n < |Exec(lim, sink, st, actions).state.handed|
    ensures sink(Exec(lim, sink, st, actions).state.handed[..n]) == None
    decreases |actions|
  {
    if actions != [] {
      var o := Perform(lim, sink, st, actions[0]);
      SinkAsked(lim, sink, st, actions[0], "");
      if o.stop.None? {
        HandedGrows(lim, sink, o.state, actions[1..]);
        if n > |o.state.handed| {
          ContentBefore(lim, sink, o.state, actions[1..], n);
        } else {
          var all := Exec(lim, sink, st, actions).state.handed;
          assert all[..n] == o.state.handed;
        }
      }
    }
  }
}
