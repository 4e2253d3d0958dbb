/** When reading back ends. Of one output: exactly when what is read on the way meets no key twice. Of a
    whole store: a ranking of the stored outputs exists exactly when none leads back to itself. */
module BlobTermination {
  import opened Wrappers
  import opened PluginData
  import opened BlobStore

  // ---------------------------------------------------------------- ranked stores

  /** How far hydration may have to go: one more than the rank of the highest key referred to. */
  ghost function Height(rank: string -> nat, o: PluginOutput): nat
    decreases o, 1
  {
    if IsSpilled(o) then rank(o.ref.uri) + 1
    else match o case Many(m) => HeightOfAll(rank, m) case _ => 0
  }

  ghost function HeightOfAll(rank: string -> nat, outs: seq<PluginOutput>): nat
    decreases outs, 0
  {
    if outs == [] then 0
    else
      var a, b := Height(rank, outs[0]), HeightOfAll(rank, outs[1..]);
      if a > b then a else b
  }

  /** Every stored output refers only to keys of lower rank. */
  ghost predicate Ranked(c: Codec, objs: Objects, rank: string -> nat) {
    forall k :: k in objs && c.decode(objs[k]).Some? ==> Height(rank, c.decode(objs[k]).value) <= rank(k)
  }

  lemma {:induction false} NoSpilledIsFlat(rank: string -> nat, o: PluginOutput)
    ensures NoSpilled(o) <==> Height(rank, o) == 0
    decreases o, 1
  {
    if o.Many? {
      NoSpilledAllFlat(rank, o.outs);
    }
  }

  lemma {:induction false} NoSpilledAllFlat(rank: string -> nat, outs: seq<PluginOutput>)
    ensures (forall x :: x in outs ==> NoSpilled(x)) <==> HeightOfAll(rank, outs) == 0
    decreases outs, 0
  {
    if outs != [] {
      NoSpilledIsFlat(rank, outs[0]);
      NoSpilledAllFlat(rank, outs[1..]);
      assert outs == [outs[0]] + outs[1..];
    }
  }

  /** In a ranked store everything can be read back, within as many hops as ranks ask for. */
  lemma {:induction false} RankedEnds(c: Codec, objs: Objects, rank: string -> nat, o: PluginOutput, hops: nat)
    requires Ranked(c, objs, rank) && Height(rank, o) <= hops
    ensures Hydration(c, objs, hops, o).Some?
    decreases hops, o, 1
  {
    if IsSpilled(o) {
      if o.ref.uri in objs && c.decode(objs[o.ref.uri]).Some? {
        RankedEnds(c, objs, rank, c.decode(objs[o.ref.uri]).value, hops - 1);
      }
    } else if o.Many? {
      AllRankedEnd(c, objs, rank, o.outs, hops);
    }
  }

  lemma {:induction false} AllRankedEnd(c: Codec, objs: Objects, rank: string -> nat, outs: seq<PluginOutput>,
      hops: nat)
    requires Ranked(c, objs, rank) && HeightOfAll(rank, outs) <= hops
    ensures HydrationAll(c, objs, hops, outs).Some?
    decreases hops, outs, 0
  {
    if outs != [] {
      RankedEnds(c, objs, rank, outs[0], hops);
      AllRankedEnd(c, objs, rank, outs[1..], hops);
    }
  }

  /** `o` holds a spilled reference to `key`. */
  predicate Refers(o: PluginOutput, key: string) {
    if IsSpilled(o) then o.ref.uri == key else o.Many? && exists x :: x in o.outs && Refers(x, key)
  }

  /** Nothing is stored at `key` and nothing stored refers to it. */
  ghost predicate Fresh(c: Codec, objs: Objects, key: string) {
    key !in objs && forall k :: k in objs && c.decode(objs[k]).Some? ==> !Refers(c.decode(objs[k]).value, key)
  }

  ghost function RankWith(rank: string -> nat, key: string, n: nat): string -> nat {
    k => if k == key then n else rank(k)
  }

  lemma {:induction false} HeightUnaffected(rank: string -> nat, key: string, n: nat, o: PluginOutput)
    requires !Refers(o, key)
    ensures Height(RankWith(rank, key, n), o) == Height(rank, o)
    decreases o, 1
  {
    if o.Many? {
      HeightOfAllUnaffected(rank, key, n, o.outs);
    }
  }

  lemma {:induction false} HeightOfAllUnaffected(rank: string -> nat, key: string, n: nat, outs: seq<PluginOutput>)
    requires forall x :: x in outs ==> !Refers(x, key)
    ensures HeightOfAll(RankWith(rank, key, n), outs) == HeightOfAll(rank, outs)
    decreases outs, 0
  {
    if outs != [] {
      HeightUnaffected(rank, key, n, outs[0]);
      HeightOfAllUnaffected(rank, key, n, outs[1..]);
    }
  }

  lemma {:induction false} ReadRefersToStored(c: Codec, objs: Objects, hops: nat, o: PluginOutput, key: string)
    requires Hydration(c, objs, hops, o).Some? && Hydration(c, objs, hops, o).value.Success? && key !in objs
    ensures !Refers(o, key)
    decreases o, 1
  {
    if !IsSpilled(o) && o.Many? {
      AllReadRefersToStored(c, objs, hops, o.outs, key);
    }
  }

  lemma {:induction false} AllReadRefersToStored(c: Codec, objs: Objects, hops: nat, outs: seq<PluginOutput>,
      key: string)
    requires HydrationAll(c, objs, hops, outs).Some? && HydrationAll(c, objs, hops, outs).value.Success? && key !in objs
    ensures forall x :: x in outs ==> !Refers(x, key)
    decreases outs, 0
  {
    if outs != [] {
      ReadRefersToStored(c, objs, hops, outs[0], key);
      AllReadRefersToStored(c, objs, hops, outs[1..], key);
      assert outs == [outs[0]] + outs[1..];
    }
  }

  /** Spilling an output that can be read back, at a fresh key, keeps the store ranked. */
  lemma SpillKeepsRanked(c: Codec, objs: Objects, rank: string -> nat, key: string, hops: nat, o: PluginOutput)
    requires Lossless(c) && Ranked(c, objs, rank) && Fresh(c, objs, key)
    requires Hydration(c, objs, hops, o).Some? && Hydration(c, objs, hops, o).value.Success?
    ensures Ranked(c, Spill(c, objs, key, o), RankWith(rank, key, Height(rank, o)))
  {
    var objs', rank' := Spill(c, objs, key, o), RankWith(rank, key, Height(rank, o));
    ReadRefersToStored(c, objs, hops, o, key);
    HeightUnaffected(rank, key, Height(rank, o), o);
    forall k | k in objs' && c.decode(objs'[k]).Some? ensures Height(rank', c.decode(objs'[k]).value) <= rank'(k) {
      if k != key {
        HeightUnaffected(rank, key, Height(rank, o), c.decode(objs[k]).value);
      }
    }
  }

  ghost const FLAT: string -> nat := (_: string) => 0

  /** A store of outputs without spilled references is ranked. */
  lemma PlainIsRanked(c: Codec, objs: Objects)
    requires forall k :: k in objs && c.decode(objs[k]).Some? ==> NoSpilled(c.decode(objs[k]).value)
    ensures Ranked(c, objs, FLAT)
  {
    forall k | k in objs && c.decode(objs[k]).Some? ensures Height(FLAT, c.decode(objs[k]).value) <= FLAT(k) {
      NoSpilledIsFlat(FLAT, c.decode(objs[k]).value);
    }
  }

  // ---------------------------------------------------------------- whole stores

  /** The output stored at `a` holds a reference to `b`. */
  ghost predicate Edge(c: Codec, objs: Objects, a: string, b: string) {
    a in objs && c.decode(objs[a]).Some? && Refers(c.decode(objs[a]).value, b)
  }

  ghost predicate Chain(c: Codec, objs: Objects, ks: seq<string>) {
    |ks| > 0 && forall i :: 0 < i < |ks| ==> Edge(c, objs, ks[i - 1], ks[i])
  }

  ghost predicate CycleFree(c: Codec, objs: Objects) {
    forall ks :: Chain(c, objs, ks) && |ks| >= 2 ==> ks[0] != ks[|ks| - 1]
  }

  lemma {:induction false} RefersHeight(rank: string -> nat, o: PluginOutput, key: string)
    requires Refers(o, key)
    ensures Height(rank, o) > rank(key)
    decreases o, 1
  {
    if !IsSpilled(o) {
      RefersHeightOfAll(rank, o.outs, key);
    }
  }

  lemma {:induction false} RefersHeightOfAll(rank: string -> nat, outs: seq<PluginOutput>, key: string)
    requires exists x :: x in outs && Refers(x, key)
    ensures HeightOfAll(rank, outs) > rank(key)
    decreases outs, 0
  {
    if Refers(outs[0], key) {
      RefersHeight(rank, outs[0], key);
    } else {
      var x :| x in outs && Refers(x, key);
      assert x in outs[1..];
      RefersHeightOfAll(rank, outs[1..], key);
    }
  }

  /** Along a chain of references the rank falls. */
  lemma {:induction false} ChainFalls(c: Codec, objs: Objects, rank: string -> nat, ks: seq<string>)
    requires Ranked(c, objs, rank) && Chain(c, objs, ks)
    ensures rank(ks[|ks| - 1]) + |ks| <= rank(ks[0]) + 1
    decreases |ks|
  {
    if |ks| > 1 {
      assert Edge(c, objs, ks[0], ks[1]);
      RefersHeight(rank, c.decode(objs[ks[0]]).value, ks[1]);
      assert Chain(c, objs, ks[1..]) by {
        forall i | 0 < i < |ks[1..]| ensures Edge(c, objs, ks[1..][i - 1], ks[1..][i]) {
          assert Edge(c, objs, ks[i], ks[i + 1]);
        }
      }
      ChainFalls(c, objs, rank, ks[1..]);
    }
  }

  /** Stored key `k` is referred to by no stored output. */
  ghost predicate Top(c: Codec, objs: Objects, k: string) {
    k in objs && forall a :: a in objs ==> !Edge(c, objs, a, k)
  }

  /** A chain of `n` references that ends at `k`, when every stored key is referred to. */
  lemma {:induction false} ChainInto(c: Codec, objs: Objects, k: string, n: nat) returns (ks: seq<string>)
    requires k in objs && forall x {:trigger Top(c, objs, x)} :: x in objs ==> !Top(c, objs, x)
    ensures Chain(c, objs, ks) && |ks| == n + 1 && ks[n] == k && forall x :: x in ks ==> x in objs
    decreases n
  {
    if n == 0 {
      ks := [k];
    } else {
      assert !Top(c, objs, k);
      var a :| a in objs && Edge(c, objs, a, k);
      var init := ChainInto(c, objs, a, n - 1);
      ks := init + [k];
      forall i | 0 < i < |ks| ensures Edge(c, objs, ks[i - 1], ks[i]) {
        if i < n {
          assert Edge(c, objs, init[i - 1], init[i]);
        }
      }
    }
  }

  /** Without a cycle, some stored key is referred to by none. */
  lemma TopExists(c: Codec, objs: Objects) returns (k: string)
    requires CycleFree(c, objs) && objs != map[]
    ensures Top(c, objs, k)
  {
    if exists k :: Top(c, objs, k) {
      k :| Top(c, objs, k);
    } else {
      var any :| any in objs;
      var ks := ChainInto(c, objs, any, |objs|);
      Repeats(objs.Keys, ks);
      var i, j :| 0 <= i < j < |ks| && ks[i] == ks[j];
      k := any;
      ChainIsDistinct(c, objs, ks, i, j);
    }
  }

  lemma PartOfChain(c: Codec, objs: Objects, ks: seq<string>, i: nat, j: nat)
    requires Chain(c, objs, ks) && i <= j < |ks|
    ensures Chain(c, objs, ks[i..j + 1])
  {
    var part := ks[i..j + 1];
    forall m | 0 < m < |part| ensures Edge(c, objs, part[m - 1], part[m]) {
      assert Edge(c, objs, ks[i + m - 1], ks[i + m]);
    }
  }

  lemma ChainIsDistinct(c: Codec, objs: Objects, ks: seq<string>, i: nat, j: nat)
    requires CycleFree(c, objs) && Chain(c, objs, ks) && i < j < |ks|
    ensures ks[i] != ks[j]
  {
    PartOfChain(c, objs, ks, i, j);
  }

  lemma Repeats(s: set<string>, ks: seq<string>)
    requires |ks| > |s| && forall x :: x in ks ==> x in s
    ensures exists i, j :: 0 <= i < j < |ks| && ks[i] == ks[j]
  {
    if Distinct(ks) {
      DistinctSize(ks);
      assert Elements(ks) <= s;
      SubsetSize(Elements(ks), s);
    }
  }

  ghost predicate HasRank(c: Codec, objs: Objects) {
    exists rank: string -> nat :: Ranked(c, objs, rank)
  }

  lemma {:induction false} CycleFreeHasRank(c: Codec, objs: Objects) returns (rank: string -> nat)
    requires CycleFree(c, objs)
    ensures Ranked(c, objs, rank)
    decreases |objs|
  {
    if objs == map[] {
      rank := FLAT;
    } else {
      var k := TopExists(c, objs);
      var rest := objs - {k};
      assert rest.Keys == objs.Keys - {k};
      forall ks | Chain(c, rest, ks) && |ks| >= 2 ensures ks[0] != ks[|ks| - 1] {
        forall i | 0 < i < |ks| ensures Edge(c, objs, ks[i - 1], ks[i]) {
          assert Edge(c, rest, ks[i - 1], ks[i]);
        }
        assert Chain(c, objs, ks);
      }
      var below := CycleFreeHasRank(c, rest);
      rank := RankTop(c, objs, k, below);
    }
  }

  /** A ranking of the rest extends to a key nothing refers to. */
  lemma RankTop(c: Codec, objs: Objects, k: string, below: string -> nat) returns (rank: string -> nat)
    requires Top(c, objs, k) && Ranked(c, objs - {k}, below)
    ensures Ranked(c, objs, rank)
  {
    var n := if c.decode(objs[k]).Some? then Height(below, c.decode(objs[k]).value) else 0;
    rank := RankWith(below, k, n);
    forall a | a in objs && c.decode(objs[a]).Some? ensures Height(rank, c.decode(objs[a]).value) <= rank(a) {
      assert !Edge(c, objs, a, k);
      HeightUnaffected(below, k, n, c.decode(objs[a]).value);
      if a != k {
        assert a in objs - {k};
      }
    }
  }

  /** A store can be ranked, so that everything in it can be read back in full, exactly when no
      chain of references in it comes back to where it started. */
  lemma RankedExactly(c: Codec, objs: Objects)
    ensures HasRank(c, objs) <==> CycleFree(c, objs)
  {
    if HasRank(c, objs) {
      var rank: string -> nat :| Ranked(c, objs, rank);
      forall ks | Chain(c, objs, ks) && |ks| >= 2 ensures ks[0] != ks[|ks| - 1] {
        ChainFalls(c, objs, rank, ks);
      }
    }
    if CycleFree(c, objs) {
      var rank := CycleFreeHasRank(c, objs);
    }
  }

  // ---------------------------------------------------------------- one output

  /** Reading `o` back comes to an end, with a value. */
  ghost predicate Succeeds(c: Codec, objs: Objects, o: PluginOutput) {
    exists hops: nat :: Hydration(c, objs, hops, o).Some? && Hydration(c, objs, hops, o).value.Success?
  }

  /** Reading `o` back looks at `key`: parts are read in order, up to the first that fails. */
  ghost predicate Visits(c: Codec, objs: Objects, o: PluginOutput, key: string)
    decreases o, 1
  {
    if IsSpilled(o) then o.ref.uri == key else o.Many? && VisitsAny(c, objs, o.outs, key)
  }

  ghost predicate VisitsAny(c: Codec, objs: Objects, outs: seq<PluginOutput>, key: string)
    decreases outs, 0
  {
    outs != [] && (Visits(c, objs, outs[0], key) || (Succeeds(c, objs, outs[0]) && VisitsAny(c, objs, outs[1..], key)))
  }

  /** Reading back what is stored at `a` looks at `b`. */
  ghost predicate Hop(c: Codec, objs: Objects, a: string, b: string) {
    a in objs && c.decode(objs[a]).Some? && Visits(c, objs, c.decode(objs[a]).value, b)
  }

  /** Keys looked at one after the other, each in reading back what the one before it holds. */
  ghost predicate Trail(c: Codec, objs: Objects, o: PluginOutput, ks: seq<string>) {
    && |ks| > 0 && Visits(c, objs, o, ks[0])
    && forall i, j {:trigger Hop(c, objs, ks[i], ks[j])} :: 0 <= i < |ks| && j == i + 1 && j < |ks|
         ==> Hop(c, objs, ks[i], ks[j])
  }

  /** No trail that starts in `o` meets a key twice. */
  ghost predicate NoReturn(c: Codec, objs: Objects, o: PluginOutput) {
    forall ks :: Trail(c, objs, o, ks) ==> Distinct(ks)
  }

  /** What is looked at takes a hop. */
  lemma {:induction false} VisitTakesAHop(c: Codec, objs: Objects, hops: nat, o: PluginOutput, key: string)
    requires Hydration(c, objs, hops, o).Some? && Visits(c, objs, o, key)
    requires key in objs && c.decode(objs[key]).Some?
    ensures hops > 0 && Hydration(c, objs, hops - 1, c.decode(objs[key]).value).Some?
    decreases o, 1
  {
    if !IsSpilled(o) {
      VisitOfAllTakesAHop(c, objs, hops, o.outs, key);
    }
  }

  lemma {:induction false} VisitOfAllTakesAHop(c: Codec, objs: Objects, hops: nat, outs: seq<PluginOutput>, key: string)
    requires HydrationAll(c, objs, hops, outs).Some? && VisitsAny(c, objs, outs, key)
    requires key in objs && c.decode(objs[key]).Some?
    ensures hops > 0 && Hydration(c, objs, hops - 1, c.decode(objs[key]).value).Some?
    decreases outs, 0
  {
    if Visits(c, objs, outs[0], key) {
      VisitTakesAHop(c, objs, hops, outs[0], key);
    } else {
      var n: nat :| Hydration(c, objs, n, outs[0]).Some? && Hydration(c, objs, n, outs[0]).value.Success?;
      OneOutcome(c, objs, n, hops, outs[0]);
      VisitOfAllTakesAHop(c, objs, hops, outs[1..], key);
    }
  }

  /** Each key of a trail but the last takes a hop, and what it holds ends within those left. */
  lemma {:induction false} TrailTakesHops(c: Codec, objs: Objects, hops: nat, o: PluginOutput, ks: seq<string>, i: nat)
    requires Hydration(c, objs, hops, o).Some? && Trail(c, objs, o, ks) && i + 1 < |ks|
    ensures i < hops && ks[i] in objs && c.decode(objs[ks[i]]).Some?
    ensures Hydration(c, objs, hops - i - 1, c.decode(objs[ks[i]]).value).Some?
  {
    assert Hop(c, objs, ks[i], ks[i + 1]);
    if i == 0 {
      VisitTakesAHop(c, objs, hops, o, ks[0]);
    } else {
      TrailTakesHops(c, objs, hops, o, ks, i - 1);
      assert Hop(c, objs, ks[i - 1], ks[i]);
      VisitTakesAHop(c, objs, hops - i, c.decode(objs[ks[i - 1]]).value, ks[i]);
    }
  }

  /** What leads back to itself does not end. */
  lemma {:induction false} LoopNeverEnds(c: Codec, objs: Objects, key: string, ks: seq<string>, hops: nat)
    requires key in objs && c.decode(objs[key]).Some?
    requires Trail(c, objs, c.decode(objs[key]).value, ks) && ks[|ks| - 1] == key
    ensures Hydration(c, objs, hops, c.decode(objs[key]).value) == None
    decreases hops
  {
    var inner := c.decode(objs[key]).value;
    if Hydration(c, objs, hops, inner).Some? {
      if |ks| == 1 {
        VisitTakesAHop(c, objs, hops, inner, key);
        LoopNeverEnds(c, objs, key, ks, hops - 1);
      } else {
        var i := |ks| - 2;
        TrailTakesHops(c, objs, hops, inner, ks, i);
        assert Hop(c, objs, ks[i], ks[i + 1]);
        VisitTakesAHop(c, objs, hops - i - 1, c.decode(objs[ks[i]]).value, key);
        LoopNeverEnds(c, objs, key, ks, hops - i - 2);
      }
    }
  }

  /** A trail that returns never ends. */
  lemma EndsMeansNoReturn(c: Codec, objs: Objects, hops: nat, o: PluginOutput, ks: seq<string>)
    requires Hydration(c, objs, hops, o).Some? && Trail(c, objs, o, ks)
    ensures Distinct(ks)
  {
    forall i, j | 0 <= i < j < |ks| ensures ks[i] != ks[j] {
      if ks[i] == ks[j] {
        TrailTakesHops(c, objs, hops, o, ks, i);
        var loop := ks[i + 1..j + 1];
        TrailPart(c, objs, o, ks, i, j);
        LoopNeverEnds(c, objs, ks[i], loop, hops - i - 1);
      }
    }
  }

  lemma TrailPart(c: Codec, objs: Objects, o: PluginOutput, ks: seq<string>, i: nat, j: nat)
    requires Trail(c, objs, o, ks) && i < j < |ks|
    ensures Hop(c, objs, ks[i], ks[i + 1])
    ensures Trail(c, objs, c.decode(objs[ks[i]]).value, ks[i + 1..j + 1]) && ks[i + 1..j + 1][j - i - 1] == ks[j]
  {
    assert Hop(c, objs, ks[i], ks[i + 1]);
    var part := ks[i + 1..j + 1];
    forall a, b | 0 <= a < |part| && b == a + 1 && b < |part| ensures Hop(c, objs, part[a], part[b]) {
      assert Hop(c, objs, ks[i + 1 + a], ks[i + 1 + b]);
    }
  }

  lemma TrailOn(c: Codec, objs: Objects, o: PluginOutput, ks: seq<string>, key: string)
    requires Trail(c, objs, o, ks) && Hop(c, objs, ks[|ks| - 1], key)
    ensures Trail(c, objs, o, ks + [key])
  {
    var on := ks + [key];
    forall a, b | 0 <= a < |on| && b == a + 1 && b < |on| ensures Hop(c, objs, on[a], on[b]) {
      if b < |ks| {
        assert Hop(c, objs, ks[a], ks[b]);
      }
    }
  }

  /** `x` is read back at the end of the trail `ks` from `o`, or as part of `o` itself. */
  ghost predicate ReadAfter(c: Codec, objs: Objects, o: PluginOutput, ks: seq<string>, x: PluginOutput) {
    && (ks == [] || Trail(c, objs, o, ks))
    && (forall k :: k in ks ==> k in objs)
    && forall k :: Visits(c, objs, x, k) ==> if ks == [] then Visits(c, objs, o, k) else Hop(c, objs, ks[|ks| - 1], k)
  }

  ghost predicate AllReadAfter(c: Codec, objs: Objects, o: PluginOutput, ks: seq<string>, xs: seq<PluginOutput>) {
    && (ks == [] || Trail(c, objs, o, ks))
    && (forall k :: k in ks ==> k in objs)
    && forall k :: VisitsAny(c, objs, xs, k)
         ==> if ks == [] then Visits(c, objs, o, k) else Hop(c, objs, ks[|ks| - 1], k)
  }

  lemma NextKey(c: Codec, objs: Objects, o: PluginOutput, ks: seq<string>, x: PluginOutput)
    requires NoReturn(c, objs, o) && ReadAfter(c, objs, o, ks, x)
    requires IsSpilled(x) && x.ref.uri in objs && c.decode(objs[x.ref.uri]).Some?
    ensures |ks| + 1 <= |objs|
    ensures ReadAfter(c, objs, o, ks + [x.ref.uri], c.decode(objs[x.ref.uri]).value)
  {
    var key := x.ref.uri;
    var on := ks + [key];
    assert Visits(c, objs, x, key);
    if ks == [] {
      assert on == [key];
      assert Trail(c, objs, o, [key]);
    } else {
      TrailOn(c, objs, o, ks, key);
    }
    DistinctSize(on);
    assert Elements(on) <= objs.Keys;
    SubsetSize(Elements(on), objs.Keys);
    assert |on| == |ks| + 1 && |objs.Keys| == |objs|;
  }

  /** Without a return, each key of the store takes at most one hop. */
  lemma {:induction false} EndsWithin(c: Codec, objs: Objects, o: PluginOutput, ks: seq<string>, x: PluginOutput,
      hops: nat)
    requires NoReturn(c, objs, o) && ReadAfter(c, objs, o, ks, x) && |ks| + hops >= |objs|
    ensures Hydration(c, objs, hops, x).Some?
    decreases hops, x, 1
  {
    if IsSpilled(x) {
      if x.ref.uri in objs && c.decode(objs[x.ref.uri]).Some? {
        NextKey(c, objs, o, ks, x);
        EndsWithin(c, objs, o, ks + [x.ref.uri], c.decode(objs[x.ref.uri]).value, hops - 1);
      }
    } else if x.Many? {
      assert forall k :: VisitsAny(c, objs, x.outs, k) ==> Visits(c, objs, x, k);
      AllEndWithin(c, objs, o, ks, x.outs, hops);
    }
  }

  lemma {:induction false} AllEndWithin(c: Codec, objs: Objects, o: PluginOutput, ks: seq<string>,
      xs: seq<PluginOutput>, hops: nat)
    requires NoReturn(c, objs, o) && AllReadAfter(c, objs, o, ks, xs) && |ks| + hops >= |objs|
    ensures HydrationAll(c, objs, hops, xs).Some?
    decreases hops, xs, 0
  {
    if xs != [] {
      assert forall k :: Visits(c, objs, xs[0], k) ==> VisitsAny(c, objs, xs, k);
      EndsWithin(c, objs, o, ks, xs[0], hops);
      if Hydration(c, objs, hops, xs[0]).value.Success? {
        assert Succeeds(c, objs, xs[0]);
        assert forall k :: VisitsAny(c, objs, xs[1..], k) ==> VisitsAny(c, objs, xs, k);
        AllEndWithin(c, objs, o, ks, xs[1..], hops);
      }
    }
  }

  /** Reading an output back comes to an end, whatever else is stored, exactly when what is read on
      the way, up to the first failure, never comes back to a key: then within one hop for each key
      of the store. */
  lemma EndsExactly(c: Codec, objs: Objects, o: PluginOutput)
    ensures Ends(c, objs, o) <==> NoReturn(c, objs, o)
    ensures Ends(c, objs, o) ==> Hydration(c, objs, |objs|, o).Some?
  {
    if Ends(c, objs, o) {
      var hops: nat :| Hydration(c, objs, hops, o).Some?;
      forall ks | Trail(c, objs, o, ks) ensures Distinct(ks) {
        EndsMeansNoReturn(c, objs, hops, o, ks);
      }
    }
    if NoReturn(c, objs, o) {
      EndsWithin(c, objs, o, [], o, |objs|);
    }
  }
}
