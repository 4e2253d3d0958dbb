/** What the limit on the whole walk bounds: not all that decompression produces. */
module ArchiveLimits {
  import opened Wrappers
  import opened Text
  import opened Archive

  /** What the reads that did not stop the walk produced, accepted or not. */
  function Produced(lim: Limits, sink: Sink, st: State, actions: seq<Action>): nat
    decreases |actions|
  {
    if actions == [] then 0
    else
      var o := Perform(lim, sink, st, actions[0]);
      if o.stop.Some? then 0
      else (if actions[0].Read? then actions[0].produced else 0) + Produced(lim, sink, o.state, actions[1..])
  }

  predicate ReadsSome(a: Action) {
    a.Read? && a.produced > 0
  }

  /** Nothing more is read after a read that produced something and was not accepted. */
  predicate QuietAfterUncounted(actions: seq<Action>) {
    forall i, j :: 0 <= i < j < |actions| && ReadsSome(actions[i]) && !actions[i].counted ==> !ReadsSome(actions[j])
  }

  /** A walk whose files, sink and depth never stop it. */
  function OnlyTotal(skips: SkipLimits, total: nat, files: nat): Limits {
    Limits(files, skips.maxFileBytes, total, skips.maxDepth)
  }

  const QUIET: Sink := (_: seq<Event>) => None

  lemma {:induction false} NothingProduced(lim: Limits, sink: Sink, st: State, actions: seq<Action>)
    requires forall a :: a in actions ==> !ReadsSome(a)
    ensures Produced(lim, sink, st, actions) == 0
    decreases |actions|
  {
    if actions != [] {
      assert actions[0] in actions;
      NothingProduced(lim, sink, Perform(lim, sink, st, actions[0]).state, actions[1..]);
    }
  }

  /** Then the limit holds for all that is produced, whatever else stops the walk. */
  lemma {:induction false} QuietStaysWithin(lim: Limits, sink: Sink, st: State, actions: seq<Action>)
    requires QuietAfterUncounted(actions) && st.decompressed <= lim.maxTotalBytes
    ensures st.decompressed + Produced(lim, sink, st, actions) <= lim.maxTotalBytes
    decreases |actions|
  {
    if actions != [] {
      var a, o := actions[0], Perform(lim, sink, st, actions[0]);
      if ReadsSome(a) && !a.counted {
        NothingProduced(lim, sink, o.state, actions[1..]);
      } else if o.stop.None? {
        QuietStaysWithin(lim, sink, o.state, actions[1..]);
      }
    }
  }

  /** The bytes of the reads among the first `n` actions. */
  function ReadBytes(actions: seq<Action>): nat {
    if actions == [] then 0 else (if actions[0].Read? then actions[0].produced else 0) + ReadBytes(actions[1..])
  }

  /** Reads that are all accepted, and fit, are all made. */
  lemma {:induction false} CountedGoOn(lim: Limits, sink: Sink, st: State, actions: seq<Action>, rest: seq<Action>)
    requires sink == QUIET && st.files + |actions| <= lim.maxFiles
    requires forall a :: a in actions && ReadsSome(a) ==> a.counted
    requires st.decompressed + ReadBytes(actions) <= lim.maxTotalBytes
    ensures var o := Exec(lim, sink, st, actions);
            && o.stop == None && o.state.decompressed == st.decompressed + ReadBytes(actions)
            && o.state.files <= st.files + |actions|
            && Produced(lim, sink, st, actions + rest) == ReadBytes(actions) + Produced(lim, sink, o.state, rest)
    decreases |actions|
  {
    if actions == [] {
      assert actions + rest == rest;
    } else {
      assert (actions + rest)[1..] == actions[1..] + rest;
      assert actions[0] in actions;
      CountedGoOn(lim, sink, Perform(lim, sink, st, actions[0]).state, actions[1..], rest);
    }
  }

  /** The first read that produces something and is not accepted, and the next that produces. */
  lemma FirstUncounted(actions: seq<Action>) returns (i: nat, j: nat)
    requires !QuietAfterUncounted(actions)
    ensures i < j < |actions| && ReadsSome(actions[i]) && !actions[i].counted && ReadsSome(actions[j])
    ensures forall k :: 0 <= k < i && ReadsSome(actions[k]) ==> actions[k].counted
    ensures forall k :: i < k < j ==> !ReadsSome(actions[k])
  {
    var x, y :| 0 <= x < y < |actions| && ReadsSome(actions[x]) && !actions[x].counted && ReadsSome(actions[y]);
    i := 0;
    while !(ReadsSome(actions[i]) && !actions[i].counted)
      invariant i <= x && forall k :: 0 <= k < i && ReadsSome(actions[k]) ==> actions[k].counted
      decreases x - i
    {
      i := i + 1;
    }
    j := i + 1;
    while !ReadsSome(actions[j])
      invariant i < j <= y && forall k :: i < k < j ==> !ReadsSome(actions[k])
      decreases y - j
    {
      j := j + 1;
    }
  }

  /** A read that is not accepted, and one after some that read nothing. */
  lemma BothProduced(lim: Limits, st: State, u: Action, between: seq<Action>, rest: seq<Action>)
    requires u.Read? && !u.counted && u.produced <= BytesLeft(lim, st.decompressed)
    requires rest != [] && rest[0].Read? && rest[0].produced <= BytesLeft(lim, st.decompressed)
    requires (forall a :: a in between ==> !ReadsSome(a)) && st.files + |between| <= lim.maxFiles
    requires st.decompressed <= lim.maxTotalBytes
    ensures Produced(lim, QUIET, st, [u] + (between + rest)) >= u.produced + rest[0].produced
  {
    assert ([u] + (between + rest))[1..] == between + rest;
    assert Perform(lim, QUIET, st, u) == Outcome(st, None);
    NoneReads(between);
    CountedGoOn(lim, QUIET, st, between, rest);
  }

  lemma CutAt(actions: seq<Action>, i: nat, j: nat)
    requires i < j < |actions|
    ensures actions == actions[..i] + ([actions[i]] + (actions[i + 1..j] + actions[j..]))
    ensures |actions[..i]| == i && |actions[i + 1..j]| == j - i - 1 && actions[j..][0] == actions[j]
  {
    assert actions[i + 1..j] + actions[j..] == actions[i + 1..];
    assert [actions[i]] + actions[i + 1..] == actions[i..];
  }

  /** Some total limit is exceeded: the one that either of two such reads just meets. */
  lemma ExceedsSome(skips: SkipLimits, actions: seq<Action>) returns (total: nat)
    requires !QuietAfterUncounted(actions)
    ensures Produced(OnlyTotal(skips, total, |actions|), QUIET, State(0, 0, 0, []), actions) > total
  {
    var i, j := FirstUncounted(actions);
    var u, v := actions[i].produced, actions[j].produced;
    CutAt(actions, i, j);
    var before, between := actions[..i], actions[i + 1..j];
    total := ReadBytes(before) + if u > v then u else v;
    var lim, st := OnlyTotal(skips, total, |actions|), State(0, 0, 0, []);
    CountedGoOn(lim, QUIET, st, before, [actions[i]] + (between + actions[j..]));
    BothProduced(lim, Exec(lim, QUIET, st, before).state, actions[i], between, actions[j..]);
  }

  lemma {:induction false} NoneReads(actions: seq<Action>)
    requires forall a :: a in actions ==> !ReadsSome(a)
    ensures ReadBytes(actions) == 0
    decreases |actions|
  {
    if actions != [] {
      assert actions[0] in actions;
      NoneReads(actions[1..]);
    }
  }

  /** The total limit bounds what decompression produces, at every value of it, exactly for the
      archives in which nothing is read after a read that produced something and was not accepted. */
  lemma TotalLimitExactly(lib: Library, skips: SkipLimits, data: Bytes, format: Format, name: Option<string>)
    ensures var acts := ArchivePlan(lib, skips, data, format, "", name, 1).actions;
            (forall total: nat :: Produced(OnlyTotal(skips, total, |acts|), QUIET, State(0, 0, 0, []), acts) <= total)
            <==> QuietAfterUncounted(acts)
  {
    var acts := ArchivePlan(lib, skips, data, format, "", name, 1).actions;
    if QuietAfterUncounted(acts) {
      forall total: nat ensures Produced(OnlyTotal(skips, total, |acts|), QUIET, State(0, 0, 0, []), acts) <= total {
        QuietStaysWithin(OnlyTotal(skips, total, |acts|), QUIET, State(0, 0, 0, []), acts);
      }
    } else {
      var total := ExceedsSome(skips, acts);
    }
  }

  // ---------------------------------------------------------------- a zip of oversized entries

  function Oversized(path: string): ZipItem {
    ZipEntry(path, Some(path), false, false, 0, Success(Stream([0, 0], None)))
  }

  function OversizedZip(path: string, n: nat): Library {
    Library(_ => Success(seq(n, _ => Oversized(path))), _ => Success([]), _ => Stream([], None))
  }

  /** Some paths are no noise: one letter is not. */
  lemma NotNoise(path: string)
    requires |path| == 1 && path[0] != '/'
    ensures !IsNoise(path)
  {
    assert LastIndex(path, '/') == -1;
    assert Split(path, '/') == [path] && |"__MACOSX"| == 8;
    assert Basename(path) == path[0..] == path;
    assert |"._"| == 2 && |".DS_Store"| == 9 && |"Thumbs.db"| == 9 && |"desktop.ini"| == 11;
  }

  /** Nothing in its header keeps the entry at `path` from being read, but it is one byte too long. */
  predicate TooLong(lim: SkipLimits, e: ZipItem, prefix: string, path: string) {
    && e.ZipEntry? && !e.isDir && !e.isSymlink && e.declared <= lim.maxFileBytes
    && e.safe.Some? && e.safe.value != "" && path == prefix + e.safe.value && !IsNoise(path)
    && e.stream.Success? && |e.stream.value.content| == lim.maxFileBytes + 1
  }

  /** Each such entry is read one byte too far, and skipped. */
  function OversizedActions(lim: SkipLimits, path: string, n: nat): seq<Action> {
    if n == 0 then []
    else
      [Read(lim.maxFileBytes + 1, false), Emit(Skipped(path, TooLargeReason(lim)))]
      + OversizedActions(lim, path, n - 1)
  }

  lemma {:induction false} OversizedPlan(lib: Library, lim: SkipLimits, items: seq<ZipItem>, prefix: string, depth: nat,
      path: string)
    requires forall e :: e in items ==> TooLong(lim, e, prefix, path)
    ensures ZipItems(lib, lim, items, prefix, depth).actions == OversizedActions(lim, path, |items|)
    decreases |items|
  {
    if items != [] {
      assert items[0] in items;
      OversizedEntry(lib, lim, items[0], prefix, depth, path);
      OversizedPlan(lib, lim, items[1..], prefix, depth, path);
    }
  }

  lemma OversizedEntry(lib: Library, lim: SkipLimits, e: ZipItem, prefix: string, depth: nat, path: string)
    requires TooLong(lim, e, prefix, path)
    ensures ZipEntryActions(lib, lim, e, prefix, depth)
         == [Read(lim.maxFileBytes + 1, false), Emit(Skipped(path, TooLargeReason(lim)))]
  {
    var acts := [Read(lim.maxFileBytes + 1, false), Emit(Skipped(path, TooLargeReason(lim)))];
    assert ZipContentActions(lib, lim, path, e.stream.value, depth) == acts;
    assert ZipFileActions(lib, lim, e, path, depth) == acts;
  }

  lemma {:induction false} OversizedProduce(lim: Limits, st: State, path: string, n: nat)
    requires st.decompressed == 0 && lim.maxFileBytes == 1 && lim.maxTotalBytes >= 2
    ensures var acts := OversizedActions(lim.Skips(), path, n);
            && Produced(lim, QUIET, st, acts) == 2 * n
            && Exec(lim, QUIET, st, acts).stop == None
            && Exec(lim, QUIET, st, acts).state.decompressed == 0
    decreases n
  {
    if n > 0 {
      var acts := OversizedActions(lim.Skips(), path, n);
      assert Perform(lim, QUIET, st, acts[0]) == Outcome(st, None);
      assert acts[1..][1..] == OversizedActions(lim.Skips(), path, n - 1);
      OversizedProduce(lim, Perform(lim, QUIET, st, acts[1]).state, path, n - 1);
    }
  }

  /** The limit is no bound at all otherwise: under a file limit of 1 and a total limit of 2 bytes, a zip
      of `n` entries, each one byte too long, produces `2 * n` bytes, and the walk neither counts them
      nor stops. */
  lemma TotalLimitFails(lib: Library, lim: Limits, items: seq<ZipItem>, data: Bytes, prefix: string,
      name: Option<string>, depth: nat, path: string)
    requires lim.maxFileBytes == 1 && lim.maxTotalBytes == 2
    requires lib.zip(data) == Success(items) && forall e :: e in items ==> TooLong(lim.Skips(), e, prefix, path)
    ensures var acts := ArchivePlan(lib, lim.Skips(), data, Zip, prefix, name, depth).actions;
            && Produced(lim, QUIET, State(0, 0, 0, []), acts) == 2 * |items|
            && Exec(lim, QUIET, State(0, 0, 0, []), acts).stop == None
            && Exec(lim, QUIET, State(0, 0, 0, []), acts).state.decompressed == 0
  {
    var skips, n := lim.Skips(), |items|;
    var acts := ArchivePlan(lib, skips, data, Zip, prefix, name, depth).actions;
    OversizedPlan(lib, skips, items, prefix, depth, path);
    assert acts == [Open(depth)] + OversizedActions(skips, path, n) && acts[1..] == OversizedActions(skips, path, n);
    OversizedProduce(lim, State(0, 0, 0, []), path, n);
  }

  /** Such zips there are, of any length. */
  lemma OversizedZipIsOne(lim: Limits, data: Bytes, path: string, n: nat)
    requires lim.maxFileBytes == 1 && path != "" && !IsNoise(path)
    ensures var r := OversizedZip(path, n).zip(data);
            r.Success? && |r.value| == n && forall e :: e in r.value ==> TooLong(lim.Skips(), e, "", path)
  {
    assert "" + path == path;
  }
}
