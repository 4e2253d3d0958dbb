/** Spilling is invisible: what was spilled reads back as if it never left. */
module BlobRoundTrip {
  import opened Wrappers
  import opened Text
  import opened PluginData
  import opened BlobStore

  // ---------------------------------------------------------------- as if nothing had been spilled

  /** `y` is `x` with some of its parts spilled, at any depth, inside spilled outputs too, at most
      `hops` of them inside each other. */
  predicate SpilledForm(c: Codec, objs: Objects, hops: nat, x: PluginOutput, y: PluginOutput)
    decreases hops, y, 1
  {
    if IsSpilled(y) then
      && hops > 0 && y.ref.uri in objs && c.decode(objs[y.ref.uri]).Some?
      && SpilledForm(c, objs, hops - 1, x, c.decode(objs[y.ref.uri]).value)
    else if y.Many? then x.Many? && SpilledForms(c, objs, hops, x.outs, y.outs)
    else x == y
  }

  predicate SpilledForms(c: Codec, objs: Objects, hops: nat, xs: seq<PluginOutput>, ys: seq<PluginOutput>)
    decreases hops, ys, 0
  {
    if ys == [] then xs == []
    else xs != [] && SpilledForm(c, objs, hops, xs[0], ys[0]) && SpilledForms(c, objs, hops, xs[1..], ys[1..])
  }

  /** Hydration gives `x` exactly for the spilled forms of `x`. */
  lemma {:induction false} HydrateUndoesSpilling(c: Codec, objs: Objects, hops: nat, x: PluginOutput, y: PluginOutput)
    ensures SpilledForm(c, objs, hops, x, y) <==> Hydration(c, objs, hops, y) == Some(Success(x))
    decreases hops, y, 1
  {
    if IsSpilled(y) {
      if hops > 0 && y.ref.uri in objs && c.decode(objs[y.ref.uri]).Some? {
        HydrateUndoesSpilling(c, objs, hops - 1, x, c.decode(objs[y.ref.uri]).value);
      }
    } else if y.Many? {
      if x.Many? {
        HydrateUndoesSpillings(c, objs, hops, x.outs, y.outs);
      }
    }
  }

  lemma {:induction false} HydrateUndoesSpillings(c: Codec, objs: Objects, hops: nat, xs: seq<PluginOutput>,
      ys: seq<PluginOutput>)
    ensures SpilledForms(c, objs, hops, xs, ys) <==> HydrationAll(c, objs, hops, ys) == Some(Success(xs))
    decreases hops, ys, 0
  {
    if ys != [] {
      if xs != [] {
        HydrateUndoesSpilling(c, objs, hops, xs[0], ys[0]);
        HydrateUndoesSpillings(c, objs, hops, xs[1..], ys[1..]);
        assert xs == [xs[0]] + xs[1..];
      }
      if HydrationAll(c, objs, hops, ys) == Some(Success(xs)) {
        assert xs == [Hydration(c, objs, hops, ys[0]).value.value] + HydrationAll(c, objs, hops, ys[1..]).value.value;
      }
    }
  }

  /** An output resolves to the same whether or not parts of it had been spilled. */
  lemma SpillingIsInvisible(c: Codec, objs: Objects, hops: nat, out: Outside, x: PluginOutput, y: PluginOutput)
    requires SpilledForm(c, objs, hops, x, y)
    ensures NoSpilled(x)
    ensures Resolution(c, objs, hops, out, y) == Resolution(c, objs, hops, out, x) == Some(FetchedAll(objs, out, x))
    ensures NoRef(x) ==> Resolution(c, objs, hops, out, y) == Some(Success(x)) && InputDocs(InputFrom(x)) == Docs(x)
  {
    HydrateUndoesSpilling(c, objs, hops, x, y);
    HydrateClears(c, objs, hops, y);
    HydrateUnspilled(c, objs, hops, x);
    if NoRef(x) {
      FetchNothing(objs, out, x);
      FromKeepsDocuments(x);
    }
  }

  lemma {:induction false} EachSpillingIsInvisible(c: Codec, objs: Objects, hops: nat, out: Outside,
      xs: seq<PluginOutput>, ys: seq<PluginOutput>)
    requires SpilledForms(c, objs, hops, xs, ys)
    ensures forall x :: x in xs ==> NoSpilled(x)
    ensures ResolutionEach(c, objs, hops, out, ys) == Some(FetchedEach(objs, out, xs))
    decreases |ys|
  {
    if ys != [] {
      SpillingIsInvisible(c, objs, hops, out, xs[0], ys[0]);
      EachSpillingIsInvisible(c, objs, hops, out, xs[1..], ys[1..]);
      assert xs == [xs[0]] + xs[1..];
    }
  }

  /** A step that consumes an output, plain or fanned out, is given the same input whether the output
      or any parts of it had been spilled, or nothing had: the same value or the same failure, with
      the same documents in the same order. */
  lemma SameInput(c: Codec, objs: Objects, hops: nat, out: Outside, x: PluginOutput, y: PluginOutput)
    requires SpilledForm(c, objs, hops, x, y)
    ensures InputResolution(c, objs, hops, out, InputFrom(y)).Some?
    ensures InputResolution(c, objs, hops, out, InputFrom(y)) == InputResolution(c, objs, hops, out, InputFrom(x))
    ensures NoRef(x) ==>
              && InputResolution(c, objs, hops, out, InputFrom(y)) == Some(Success(InputFrom(x)))
              && InputDocs(InputFrom(x)) == Docs(x)
  {
    SpillingIsInvisible(c, objs, hops, out, x, y);
    if y.Many? {
      EachSpillingIsInvisible(c, objs, hops, out, x.outs, y.outs);
    }
    if x.Many? {
      HydratedEachIsFetchedEach(c, objs, hops, out, x.outs);
    }
    if NoRef(x) {
      FetchNothing(objs, out, x);
      FromKeepsDocuments(x);
    }
  }

  // ---------------------------------------------------------------- one spill

  /** Reading `o` back comes to an end, and does not fail for want of `key`. */
  predicate Settled(c: Codec, objs: Objects, hops: nat, o: PluginOutput, key: string) {
    Hydration(c, objs, hops, o).Some? && Hydration(c, objs, hops, o) != Some(Failure(NotFound(key)))
  }

  /** Whatever does not miss `key` reads back the same, or fails the same, once something is stored
      there. */
  lemma {:induction false} ReadBackStays(c: Codec, objs: Objects, key: string, data: Bytes, hops: nat, o: PluginOutput)
    requires key !in objs && Settled(c, objs, hops, o, key)
    ensures Hydration(c, objs[key := data], hops, o) == Hydration(c, objs, hops, o)
    decreases hops, o, 1
  {
    if IsSpilled(o) {
      if o.ref.uri in objs && c.decode(objs[o.ref.uri]).Some? {
        ReadBackStays(c, objs, key, data, hops - 1, c.decode(objs[o.ref.uri]).value);
      }
    } else if o.Many? {
      AllReadBackStays(c, objs, key, data, hops, o.outs);
    }
  }

  lemma {:induction false} AllReadBackStays(c: Codec, objs: Objects, key: string, data: Bytes, hops: nat,
      outs: seq<PluginOutput>)
    requires key !in objs
    requires HydrationAll(c, objs, hops, outs).Some?
              && HydrationAll(c, objs, hops, outs) != Some(Failure(NotFound(key)))
    ensures HydrationAll(c, objs[key := data], hops, outs) == HydrationAll(c, objs, hops, outs)
    decreases hops, outs, 0
  {
    if outs != [] {
      ReadBackStays(c, objs, key, data, hops, outs[0]);
      if Hydration(c, objs, hops, outs[0]).value.Success? {
        AllReadBackStays(c, objs, key, data, hops, outs[1..]);
      }
    }
  }

  /** Hydrating what was spilled at a new key is hydrating what it was, failures included, and whatever
      else does not miss the key hydrates as before. */
  lemma SpillThenHydrate(c: Codec, objs: Objects, key: string, hops: nat, o: PluginOutput, n: nat, other: PluginOutput)
    requires Lossless(c) && key !in objs && Settled(c, objs, hops, o, key) && Settled(c, objs, n, other, key)
    ensures Hydration(c, Spill(c, objs, key, o), hops + 1, SpilledRef(key)) == Hydration(c, objs, hops, o)
    ensures Hydration(c, Spill(c, objs, key, o), n, other) == Hydration(c, objs, n, other)
  {
    ReadBackStays(c, objs, key, c.encode(o), hops, o);
    ReadBackStays(c, objs, key, c.encode(o), n, other);
  }

  /** An output that already misses the key it is spilled at leads back to itself: whatever misses
      that key never ends from then on. */
  lemma {:induction false} SpillLoops(c: Codec, objs: Objects, key: string, h: nat, o: PluginOutput, hops: nat,
      x: PluginOutput, n: nat)
    requires Lossless(c) && key !in objs && Hydration(c, objs, h, o) == Some(Failure(NotFound(key)))
    requires Hydration(c, objs, hops, x) == Some(Failure(NotFound(key)))
    ensures Hydration(c, Spill(c, objs, key, o), n, x) == None
    decreases n, x, 1
  {
    if IsSpilled(x) {
      if n > 0 {
        if x.ref.uri == key {
          SpillLoops(c, objs, key, h, o, h, o, n - 1);
        } else {
          SpillLoops(c, objs, key, h, o, hops - 1, c.decode(objs[x.ref.uri]).value, n - 1);
        }
      }
    } else {
      AllSpillLoops(c, objs, key, h, o, hops, x.outs, n);
    }
  }

  lemma {:induction false} AllSpillLoops(c: Codec, objs: Objects, key: string, h: nat, o: PluginOutput, hops: nat,
      xs: seq<PluginOutput>, n: nat)
    requires Lossless(c) && key !in objs && Hydration(c, objs, h, o) == Some(Failure(NotFound(key)))
    requires HydrationAll(c, objs, hops, xs) == Some(Failure(NotFound(key)))
    ensures HydrationAll(c, Spill(c, objs, key, o), n, xs) == None
    decreases n, xs, 0
  {
    var objs' := Spill(c, objs, key, o);
    if Hydration(c, objs, hops, xs[0]).value.Failure? {
      SpillLoops(c, objs, key, h, o, hops, xs[0], n);
    } else {
      AllSpillLoops(c, objs, key, h, o, hops, xs[1..], n);
      ReadBackStays(c, objs, key, c.encode(o), hops, xs[0]);
      if Hydration(c, objs', n, xs[0]).Some? {
        OneOutcome(c, objs', hops, n, xs[0]);
      }
    }
  }

  /** A spill at a new key can be read back exactly when the output did not miss that very key. */
  lemma SpillReadsBackExactly(c: Codec, objs: Objects, key: string, hops: nat, o: PluginOutput)
    requires Lossless(c) && key !in objs && Hydration(c, objs, hops, o).Some?
    ensures Ends(c, Spill(c, objs, key, o), SpilledRef(key)) <==> Settled(c, objs, hops, o, key)
  {
    if Settled(c, objs, hops, o, key) {
      SpillThenHydrate(c, objs, key, hops, o, hops, o);
    } else {
      assert Hydration(c, objs, 0, SpilledRef(key)) == Some(Failure(NotFound(key)));
      forall n: nat ensures Hydration(c, Spill(c, objs, key, o), n, SpilledRef(key)) == None {
        SpillLoops(c, objs, key, hops, o, 0, SpilledRef(key), n);
      }
    }
  }

  // ---------------------------------------------------------------- the keys of a job

  /** The id of the first is the id of the second, a dash and the number of its branch. */
  predicate Clash(step: string, branch: Option<nat>, step': string, branch': Option<nat>) {
    branch == None && branch'.Some? && step == step' + "-" + Dec(branch'.value)
  }

  function Stem(step: string, branch: Option<nat>): string {
    match branch
    case Some(b) => step + "-" + Dec(b)
    case None => step
  }

  lemma StemInjective(step: string, b: nat, step': string, b': nat)
    requires Stem(step, Some(b)) == Stem(step', Some(b'))
    ensures step == step' && b == b'
  {
    DashAt(step, b);
    DashAt(step', b');
    var s := Stem(step, Some(b));
    assert s[..|step|] == step && s[..|step'|] == step';
    assert s[|step| + 1..] == Dec(b) && s[|step'| + 1..] == Dec(b');
    DecInjective(b, b');
  }

  lemma DashAt(step: string, b: nat)
    ensures LastIndex(Stem(step, Some(b)), '-') == |step|
  {
    var s := Stem(step, Some(b));
    assert s[|step|] == '-';
    forall k | |step| < k < |s| ensures s[k] != '-' {
      assert s[k] == Dec(b)[k - |step| - 1];
      assert s[k] in Dec(b);
    }
  }

  lemma SameSuffix(a: string, b: string, suffix: string)
    ensures a + suffix == b + suffix <==> a == b
  {
    if a + suffix == b + suffix {
      assert a == (a + suffix)[..|a + suffix| - |suffix|];
      assert b == (b + suffix)[..|b + suffix| - |suffix|];
    }
  }

  lemma SamePrefix(a: string, b: string, prefix: string)
    ensures prefix + a == prefix + b <==> a == b
  {
    assert a == (prefix + a)[|prefix|..];
    assert b == (prefix + b)[|prefix|..];
  }

  lemma NameIsStem(step: string, branch: Option<nat>)
    ensures SpillName(step, branch) == Stem(step, branch) + ".json"
  {
  }

  /** The two outputs of a job go to the same key, as far as names tell. */
  predicate SameKey(step: string, branch: Option<nat>, step': string, branch': Option<nat>) {
    || (step == step' && branch == branch')
    || Clash(step, branch, step', branch')
    || Clash(step', branch', step, branch)
  }

  /** Two outputs of a job share a key exactly when they are the same one or their names clash. */
  lemma SpillKeysEqual(job: string, step: string, branch: Option<nat>, step': string, branch': Option<nat>)
    ensures StagedKey(job, SpillName(step, branch)) == StagedKey(job, SpillName(step', branch'))
       <==> SameKey(step, branch, step', branch')
  {
    NameIsStem(step, branch);
    NameIsStem(step', branch');
    SamePrefix(SpillName(step, branch), SpillName(step', branch'), "jobs/" + job + "/");
    SameSuffix(Stem(step, branch), Stem(step', branch'), ".json");
    if branch.Some? && branch'.Some? && Stem(step, branch) == Stem(step', branch') {
      StemInjective(step, branch.value, step', branch'.value);
    }
  }

  lemma FirstSlash(a: string, b: string, c: string, d: string)
    requires '/' !in a && '/' !in c && a + "/" + b == c + "/" + d
    ensures a == c && b == d
  {
    var s := a + "/" + b;
    assert s[|a|] == '/' && s[|c|] == '/';
    assert a == s[..|a|] && c == s[..|c|];
    assert |a| == |c|;
    assert b == s[|a| + 1..] && d == s[|c| + 1..];
  }

  /** Jobs never share keys: job ids hold no slash. */
  lemma JobsKeepApart(job: string, name: string, job': string, name': string)
    requires '/' !in job && '/' !in job' && StagedKey(job, name) == StagedKey(job', name')
    ensures job == job' && name == name'
  {
    var rest, rest' := job + "/" + name, job' + "/" + name';
    assert StagedKey(job, name) == "jobs/" + rest && StagedKey(job', name') == "jobs/" + rest';
    SamePrefix(rest, rest', "jobs/");
    FirstSlash(job, name, job', name');
  }

  // ---------------------------------------------------------------- all outputs of a job

  datatype SpillOp = SpillOp(step: string, branch: Option<nat>, output: PluginOutput)

  function KeyOf(job: string, op: SpillOp): string {
    StagedKey(job, SpillName(op.step, op.branch))
  }

  function SpillAll(c: Codec, objs: Objects, job: string, ops: seq<SpillOp>): Objects {
    if ops == [] then objs
    else
      var last := ops[|ops| - 1];
      Spill(c, SpillAll(c, objs, job, ops[..|ops| - 1]), KeyOf(job, last), last.output)
  }

  /** Every step and branch spills once, and no step's id is another's followed by a dash and a
      branch number of it. */
  ghost predicate NoClashes(ops: seq<SpillOp>) {
    forall i, j :: 0 <= i < |ops| && 0 <= j < |ops| && i != j ==>
      && (ops[i].step, ops[i].branch) != (ops[j].step, ops[j].branch)
      && !Clash(ops[i].step, ops[i].branch, ops[j].step, ops[j].branch)
  }

  predicate SameSpillKey(a: SpillOp, b: SpillOp) {
    SameKey(a.step, a.branch, b.step, b.branch)
  }

  /** The last spill that goes to the key of spill `i`. */
  function LastSameKey(ops: seq<SpillOp>, i: nat): (j: nat)
    requires i < |ops|
    ensures i <= j < |ops| && SameSpillKey(ops[i], ops[j])
    ensures forall k :: j < k < |ops| ==> !SameSpillKey(ops[i], ops[k])
    decreases |ops|
  {
    var last := |ops| - 1;
    if SameSpillKey(ops[i], ops[last]) then last
    else
      var init := ops[..last];
      assert init[i] == ops[i];
      LastSameKey(init, i)
  }

  lemma {:induction false} KeyHoldsLast(c: Codec, objs: Objects, job: string, ops: seq<SpillOp>, i: nat)
    requires i < |ops|
    ensures var final := SpillAll(c, objs, job, ops);
            KeyOf(job, ops[i]) in final && final[KeyOf(job, ops[i])] == c.encode(ops[LastSameKey(ops, i)].output)
    decreases |ops|
  {
    var init, last := ops[..|ops| - 1], ops[|ops| - 1];
    SpillKeysEqual(job, ops[i].step, ops[i].branch, last.step, last.branch);
    if !SameSpillKey(ops[i], last) {
      assert init[i] == ops[i];
      KeyHoldsLast(c, objs, job, init, i);
    }
  }

  /** After any spills of a job, in any order and however their names clash, each reference reads back
      as whatever the last output spilled to its key stands for. Where neither holds a spilled
      reference, that is its own output exactly when the two are the same. */
  lemma JobOutputsExactly(c: Codec, objs: Objects, job: string, ops: seq<SpillOp>, i: nat, hops: nat)
    requires Lossless(c) && i < |ops|
    ensures var final, ref, last := SpillAll(c, objs, job, ops), SpilledRef(KeyOf(job, ops[i])),
              ops[LastSameKey(ops, i)].output;
            && Hydration(c, final, hops + 1, ref) == Hydration(c, final, hops, last)
            && (NoSpilled(last) ==> Hydration(c, final, hops + 1, ref) == Some(Success(last)))
            && (NoSpilled(last) && NoSpilled(ops[i].output) ==>
                  (Hydration(c, final, hops + 1, ref) == Some(Success(ops[i].output)) <==> last == ops[i].output))
  {
    var last := ops[LastSameKey(ops, i)];
    KeyHoldsLast(c, objs, job, ops, i);
    if NoSpilled(last.output) {
      HydrateUnspilled(c, SpillAll(c, objs, job, ops), hops, last.output);
    }
  }

  ghost predicate NewKeys(objs: Objects, job: string, ops: seq<SpillOp>) {
    forall op :: op in ops ==> KeyOf(job, op) !in objs
  }

  /** Nothing else is stored by the spills. */
  lemma {:induction false} OnlyTheirKeys(c: Codec, objs: Objects, job: string, ops: seq<SpillOp>, k: string)
    requires k !in objs && forall op :: op in ops ==> KeyOf(job, op) != k
    ensures k !in SpillAll(c, objs, job, ops)
    decreases |ops|
  {
    if ops != [] {
      var init := ops[..|ops| - 1];
      assert ops[|ops| - 1] in ops && forall op :: op in init ==> op in ops;
      OnlyTheirKeys(c, objs, job, init, k);
    }
  }

  /** What is settled before some more spills at new keys is settled the same after them. */
  lemma {:induction false} StaysThroughSpills(c: Codec, objs: Objects, job: string, ops: seq<SpillOp>, n: nat,
      hops: nat, o: PluginOutput)
    requires NoClashes(ops) && NewKeys(objs, job, ops) && n <= |ops|
    requires forall op :: op in ops ==> Settled(c, SpillAll(c, objs, job, ops[..n]), hops, o, KeyOf(job, op))
    ensures Hydration(c, SpillAll(c, objs, job, ops), hops, o)
              == Hydration(c, SpillAll(c, objs, job, ops[..n]), hops, o)
    decreases |ops|
  {
    if n == |ops| {
      assert ops[..n] == ops;
    } else {
      var init, last := ops[..|ops| - 1], ops[|ops| - 1];
      assert last in ops && init[..n] == ops[..n];
      forall op | op in init ensures op in ops && KeyOf(job, op) != KeyOf(job, last) {
        var k :| 0 <= k < |init| && init[k] == op;
        assert ops[k] == op;
        SpillKeysEqual(job, op.step, op.branch, last.step, last.branch);
      }
      StaysThroughSpills(c, objs, job, init, n, hops, o);
      OnlyTheirKeys(c, objs, job, init, KeyOf(job, last));
      ReadBackStays(c, SpillAll(c, objs, job, init), KeyOf(job, last), c.encode(last.output), hops, o);
    }
  }

  /** Without clashes and at new keys, each reference reads back, or fails, as its own output did when
      it was spilled, unless that missed a key of the job. Outputs may themselves refer to what was
      spilled before. */
  lemma JobOutputsReadBack(c: Codec, objs: Objects, job: string, ops: seq<SpillOp>, i: nat, hops: nat)
    requires Lossless(c) && NoClashes(ops) && NewKeys(objs, job, ops) && i < |ops|
    requires forall op :: op in ops
              ==> Settled(c, SpillAll(c, objs, job, ops[..i]), hops, ops[i].output, KeyOf(job, op))
    ensures Hydration(c, SpillAll(c, objs, job, ops), hops + 1, SpilledRef(KeyOf(job, ops[i])))
         == Hydration(c, SpillAll(c, objs, job, ops[..i]), hops, ops[i].output)
  {
    StaysThroughSpills(c, objs, job, ops, i, hops, ops[i].output);
    JobOutputsExactly(c, objs, job, ops, i, hops);
    assert LastSameKey(ops, i) == i;
  }

  /** Of two spills of a job, the first reads back as its own output exactly when the two share no
      key, or are the same output. */
  lemma SecondSpillKeepsFirst(c: Codec, objs: Objects, job: string, a: SpillOp, b: SpillOp, hops: nat)
    requires Lossless(c) && NoSpilled(a.output) && NoSpilled(b.output)
    ensures Hydration(c, SpillAll(c, objs, job, [a, b]), hops + 1, SpilledRef(KeyOf(job, a))) == Some(Success(a.output))
       <==> !SameSpillKey(a, b) || a.output == b.output
  {
    JobOutputsExactly(c, objs, job, [a, b], 0, hops);
    var j := LastSameKey([a, b], 0);
    assert SameSpillKey(a, b) ==> j == 1 && [a, b][1] == b;
  }

  /** Step "chunk-1" overwrites branch 1 of step "chunk", whose reference then reads back as the
      wrong output. */
  lemma ClashLosesAnOutput(c: Codec, objs: Objects, job: string)
    requires Lossless(c)
    ensures var a, b := SpillOp("chunk", Some(1), EmptyOut), SpillOp("chunk-1", None, DocumentsOut([]));
            Hydration(c, SpillAll(c, objs, job, [a, b]), 1, SpilledRef(KeyOf(job, a)))
                == Some(Success(DocumentsOut([])))
  {
    var a, b := SpillOp("chunk", Some(1), EmptyOut), SpillOp("chunk-1", None, DocumentsOut([]));
    assert Dec(1) == "1";
    assert SameSpillKey(a, b);
    JobOutputsExactly(c, objs, job, [a, b], 0, 0);
  }

  // ---------------------------------------------------------------- uploads

  lemma SegmentAtEnd(dir: string, name: string)
    requires name != "" && '/' !in name
    ensures LastSegment(dir + "/" + name) == Some(name)
  {
    var path := dir + "/" + name;
    assert path[|dir|] == '/';
    forall k | |dir| < k < |path| ensures path[k] != '/' {
      assert path[k] == name[k - |dir| - 1];
    }
    assert LastIndex(path, '/') == |dir|;
    assert path[|dir| + 1..] == name;
  }

  lemma UploadName(job: string)
    ensures LastSegment(UploadKey(job, None)) == Some("upload.bin")
  {
    var dir := "jobs/" + job + "/input";
    assert UploadKey(job, None) == dir + "/" + "upload.bin";
    SegmentAtEnd(dir, "upload.bin");
  }

  /** The store after an upload. */
  function Uploaded(objs: Objects, job: string, blob: Blob): Objects {
    objs[UploadKey(job, blob.filename) := blob.data]
  }

  /** What a plugin is given for a staged upload. */
  function UploadRead(c: Codec, objs: Objects, hops: nat, out: Outside, job: string, blob: Blob)
      : Option<Result<PluginInput, BlobError>> {
    var key := UploadKey(job, blob.filename);
    InputResolution(c, Uploaded(objs, job, blob), hops, out, RefIn(Staged(key, Some(blob.mime), blob.filename)))
  }

  predicate StandsForBlob(c: Codec, objs: Objects, hops: nat, out: Outside, o: PluginOutput, blob: Blob) {
    Resolution(c, objs, hops, out, o) == Some(Success(BytesOut(blob)))
  }

  /** A staged upload, not of the spill type, reads back with its bytes and type, and a filename:
      its own, or "upload.bin". */
  lemma UploadRoundTrip(c: Codec, objs: Objects, hops: nat, out: Outside, job: string, blob: Blob)
    requires blob.mime != SPILLED_OUTPUT_MIME
    ensures var name := if blob.filename.Some? then blob.filename.value else "upload.bin";
            UploadRead(c, objs, hops, out, job, blob) == Some(Success(BytesIn(blob.(filename := Some(name)))))
  {
    UploadName(job);
    var o := RefOut(Staged(UploadKey(job, blob.filename), Some(blob.mime), blob.filename));
    HydrateUnspilled(c, Uploaded(objs, job, blob), hops, o);
  }

  /** An upload is given as the same blob exactly when it had a filename and is not of the spill type.
      One of that type is taken for a spilled output: it comes back as itself only if its bytes are
      an output that stands for it. */
  lemma UploadIsItselfExactly(c: Codec, objs: Objects, hops: nat, out: Outside, job: string, blob: Blob)
    ensures var r := UploadRead(c, objs, hops + 1, out, job, blob);
            var inner := c.decode(blob.data);
            r == Some(Success(BytesIn(blob))) <==>
              if blob.mime != SPILLED_OUTPUT_MIME then blob.filename.Some?
              else inner.Some? && StandsForBlob(c, Uploaded(objs, job, blob), hops, out, inner.value, blob)
  {
    if blob.mime != SPILLED_OUTPUT_MIME {
      UploadRoundTrip(c, objs, hops + 1, out, job, blob);
    }
  }
}
