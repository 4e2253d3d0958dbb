/** The order a FIFO topological sort gives, described without running one. */
module PipelineOrder {
  import opened Wrappers
  import opened PipelineGraph

  /** Position in `ord` of the last listed dependency of step `i`: the one whose removal from
      the queue releases `i`. -1 for a step with no listed dependency. */
  ghost function LastDep(steps: seq<Step>, ord: seq<nat>, i: nat): (r: int)
    ensures -1 <= r < |ord|
    ensures r >= 0 ==> Dep(steps, i, ord[r])
    ensures forall q :: r < q < |ord| ==> !Dep(steps, i, ord[q])
  {
    if ord == [] then -1
    else if Dep(steps, i, ord[|ord| - 1]) then |ord| - 1
    else LastDep(steps, ord[..|ord| - 1], i)
  }

  /** `a` goes before `b`: it was released earlier, or together with `b` from a lower position. */
  ghost predicate ReleasedFirst(steps: seq<Step>, ord: seq<nat>, a: nat, b: nat) {
    var ra, rb := LastDep(steps, ord, a), LastDep(steps, ord, b);
    ra < rb || (ra == rb && a < b)
  }

  /** `rel` is in the order in which the dequeues listed in `ord` release steps. */
  ghost predicate Fifo(steps: seq<Step>, ord: seq<nat>, rel: seq<nat>) {
    forall k, l {:trigger ReleasedFirst(steps, ord, rel[k], rel[l])} ::
      0 <= k < l < |rel| ==> ReleasedFirst(steps, ord, rel[k], rel[l])
  }

  /** The order of all steps: each once, after its dependencies, in FIFO release order. */
  ghost predicate KahnOrder(steps: seq<Step>, ord: seq<nat>) {
    && |ord| == |steps| && Distinct(ord) && Below(ord, |steps|)
    && DepsBefore(steps, ord)
    && Fifo(steps, ord, ord)
  }

  lemma LastDepIs(steps: seq<Step>, ord: seq<nat>, i: nat, r: int)
    requires -1 <= r < |ord|
    requires r >= 0 ==> Dep(steps, i, ord[r])
    requires forall q :: r < q < |ord| ==> !Dep(steps, i, ord[q])
    ensures LastDep(steps, ord, i) == r
  {
  }

  /** Extending the order by a step that `i` does not wait for changes nothing for `i`. */
  lemma LastDepAppend(steps: seq<Step>, ord: seq<nat>, x: nat, i: nat)
    ensures LastDep(steps, ord + [x], i) == if Dep(steps, i, x) then |ord| else LastDep(steps, ord, i)
  {
    assert (ord + [x])[..|ord|] == ord;
  }

  lemma LastDepPrefix(steps: seq<Step>, a: seq<nat>, b: seq<nat>, i: nat)
    requires a <= b
    requires forall j: nat :: Dep(steps, i, j) && j in b ==> j in a
    requires Distinct(b)
    ensures LastDep(steps, b, i) == LastDep(steps, a, i)
  {
    forall q | |a| <= q < |b| ensures !Dep(steps, i, b[q]) {
      assert b[q] !in a;
    }
    LastDepIs(steps, b, i, LastDep(steps, a, i));
  }

  /** The graph alone fixes the order: there is at most one. */
  lemma KahnOrderUnique(steps: seq<Step>, a: seq<nat>, b: seq<nat>)
    requires KahnOrder(steps, a) && KahnOrder(steps, b)
    ensures a == b
  {
    AgreeUpTo(steps, a, b, |a|);
    assert a[..|a|] == a && b[..|b|] == b;
  }

  lemma {:induction false} AgreeUpTo(steps: seq<Step>, a: seq<nat>, b: seq<nat>, n: nat)
    requires KahnOrder(steps, a) && KahnOrder(steps, b) && n <= |a|
    ensures a[..n] == b[..n]
  {
    if n > 0 {
      AgreeUpTo(steps, a, b, n - 1);
      if a[n - 1] != b[n - 1] {
        NextIsForced(steps, a, b, n - 1);
        NextIsForced(steps, b, a, n - 1);
      }
    }
  }

  lemma DepsAreInPrefix(steps: seq<Step>, ord: seq<nat>, k: nat, x: nat)
    requires DepsBefore(steps, ord) && k < |ord| && x == ord[k]
    ensures forall j: nat :: Dep(steps, x, j) ==> j in ord[..k]
  {
  }

  lemma SamePrefix(a: seq<nat>, b: seq<nat>, n: nat)
    requires n <= |a| && n <= |b| && a[..n] == b[..n]
    ensures forall j :: 0 <= j < n ==> a[j] == b[j]
  {
    forall j | 0 <= j < n ensures a[j] == b[j] {
      assert a[j] == a[..n][j];
    }
  }

  /** Two orders that agree on the first `n` steps: what comes next in one is released no
      later, there, than what comes next in the other. */
  lemma NextIsForced(steps: seq<Step>, a: seq<nat>, b: seq<nat>, n: nat)
    requires KahnOrder(steps, a) && KahnOrder(steps, b) && n < |a|
    requires a[..n] == b[..n] && a[n] != b[n]
    ensures ReleasedFirst(steps, a[..n], a[n], b[n])
  {
    var m := PositionOf(steps, a, b[n]);
    SamePrefix(a, b, n);
    assert m > n;
    assert ReleasedFirst(steps, a, a[n], a[m]);
    DepsAreInPrefix(steps, a, n, a[n]);
    DepsAreInPrefix(steps, b, n, b[n]);
    LastDepPrefix(steps, a[..n], a, a[n]);
    LastDepPrefix(steps, a[..n], a, b[n]);
  }

  // ---------------------------------------------------------------- levels

  /** The number of steps on the way from the step at `k` to a root, always going through the
      dependency that comes last. */
  ghost function Level(steps: seq<Step>, ord: seq<nat>, k: nat): nat
    requires DepsBefore(steps, ord) && Distinct(ord) && k < |ord|
    decreases k
  {
    LastDepEarlier(steps, ord, k);
    var r := LastDep(steps, ord, ord[k]);
    if r < 0 then 0 else 1 + Level(steps, ord, r)
  }

  lemma LastDepEarlier(steps: seq<Step>, ord: seq<nat>, k: nat)
    requires DepsBefore(steps, ord) && Distinct(ord) && k < |ord|
    ensures LastDep(steps, ord, ord[k]) < k
  {
  }

  /** Step `i` has a dependency chain of `n` links, and none has more. */
  ghost predicate LongestChain(steps: seq<Step>, i: nat, n: nat) {
    && (exists p :: Walk(steps, p) && p[0] == i && |p| == n + 1)
    && forall p :: Walk(steps, p) && p[0] == i ==> |p| <= n + 1
  }

  lemma ReleaseMonotone(steps: seq<Step>, ord: seq<nat>, k: nat, l: nat)
    requires KahnOrder(steps, ord) && k < l < |ord|
    ensures LastDep(steps, ord, ord[k]) <= LastDep(steps, ord, ord[l]) < l
  {
    assert ReleasedFirst(steps, ord, ord[k], ord[l]);
    LastDepEarlier(steps, ord, l);
  }

  lemma {:induction false} LevelMonotone(steps: seq<Step>, ord: seq<nat>, k: nat, l: nat)
    requires KahnOrder(steps, ord) && k <= l < |ord|
    ensures Level(steps, ord, k) <= Level(steps, ord, l)
    decreases l
  {
    if k < l {
      ReleaseMonotone(steps, ord, k, l);
      LastDepEarlier(steps, ord, k);
      var rk, rl := LastDep(steps, ord, ord[k]), LastDep(steps, ord, ord[l]);
      if rk >= 0 {
        LevelMonotone(steps, ord, rk, rl);
      }
    }
  }

  lemma {:induction false} ChainOfLevel(steps: seq<Step>, ord: seq<nat>, k: nat) returns (p: seq<nat>)
    requires KahnOrder(steps, ord) && k < |ord|
    ensures Walk(steps, p) && p[0] == ord[k] && |p| == Level(steps, ord, k) + 1
    decreases k
  {
    LastDepEarlier(steps, ord, k);
    var r := LastDep(steps, ord, ord[k]);
    if r < 0 {
      p := [ord[k]];
    } else {
      var q := ChainOfLevel(steps, ord, r);
      p := [ord[k]] + q;
      WalkCons(steps, ord[k], q);
    }
  }

  lemma {:induction false} ChainsFitLevel(steps: seq<Step>, ord: seq<nat>, k: nat, p: seq<nat>)
    requires KahnOrder(steps, ord) && k < |ord| && Walk(steps, p) && p[0] == ord[k]
    ensures |p| <= Level(steps, ord, k) + 1
    decreases |p|
  {
    if |p| > 1 {
      assert Dep(steps, p[0], p[1]);
      var q :| 0 <= q < k && ord[q] == p[1];
      WalkTail(steps, p);
      ChainsFitLevel(steps, ord, q, p[1..]);
      LastDepEarlier(steps, ord, k);
      LevelMonotone(steps, ord, q, LastDep(steps, ord, ord[k]));
    }
  }

  lemma WalkTail(steps: seq<Step>, p: seq<nat>)
    requires Walk(steps, p) && |p| > 1
    ensures Walk(steps, p[1..])
  {
    forall m | 0 < m < |p[1..]| ensures Dep(steps, p[1..][m - 1], p[1..][m]) {
      assert Dep(steps, p[m], p[m + 1]);
    }
  }

  /** The order never goes back to a step whose longest dependency chain is shorter. */
  lemma OrderIsByLongestChain(steps: seq<Step>, ord: seq<nat>, k: nat, l: nat, m: nat, n: nat)
    requires KahnOrder(steps, ord) && k <= l < |ord|
    requires LongestChain(steps, ord[k], m) && LongestChain(steps, ord[l], n)
    ensures m <= n
  {
    LevelIsLongestChain(steps, ord, k, m);
    LevelIsLongestChain(steps, ord, l, n);
    LevelMonotone(steps, ord, k, l);
  }

  lemma LevelIsLongestChain(steps: seq<Step>, ord: seq<nat>, k: nat, n: nat)
    requires KahnOrder(steps, ord) && k < |ord|
    ensures LongestChain(steps, ord[k], n) <==> n == Level(steps, ord, k)
  {
    var c := ChainOfLevel(steps, ord, k);
    forall p | Walk(steps, p) && p[0] == ord[k] ensures |p| <= Level(steps, ord, k) + 1 {
      ChainsFitLevel(steps, ord, k, p);
    }
    if LongestChain(steps, ord[k], n) {
      var p :| Walk(steps, p) && p[0] == ord[k] && |p| == n + 1;
    }
  }

  // ------------------------------------------- the wording "ordered by position"

  /** Neither step depends on the other, even indirectly. */
  ghost predicate Unrelated(steps: seq<Step>, a: nat, b: nat) {
    !Reaches(steps, a, b) && !Reaches(steps, b, a)
  }

  /** Unrelated steps keep their relative position. */
  ghost predicate UnrelatedInStepOrder(steps: seq<Step>, ord: seq<nat>) {
    forall k, l :: 0 <= k < l < |ord| && Unrelated(steps, ord[k], ord[l]) ==> ord[k] < ord[l]
  }

  /** The order that wording asks for: dependencies first, else by position. */
  ghost predicate Promised(steps: seq<Step>, a: nat, b: nat) {
    Reaches(steps, b, a) || (a < b && !Reaches(steps, a, b))
  }

  /** Every dependency of `a` is, or is promised before, some dependency of `b`. */
  ghost predicate WaitsNoLonger(steps: seq<Step>, a: nat, b: nat) {
    forall d: nat :: Dep(steps, a, d) ==> SomeDepAtOrAfter(steps, b, d)
  }

  ghost predicate SomeDepAtOrAfter(steps: seq<Step>, b: nat, d: nat) {
    exists e: nat :: Dep(steps, b, e) && (d == e || Promised(steps, d, e))
  }

  /** What an author can check on the definition: of two unrelated steps, the one listed first
      waits for nothing that comes later than all the other waits for. */
  ghost predicate ListedAsReleased(steps: seq<Step>) {
    forall a: nat, b: nat :: a < b < |steps| && Unrelated(steps, a, b) ==> WaitsNoLonger(steps, a, b)
  }

  /** The order agrees with the wording exactly on the definitions of that form. */
  lemma StepOrderExactly(steps: seq<Step>, ord: seq<nat>)
    requires KahnOrder(steps, ord)
    ensures UnrelatedInStepOrder(steps, ord) <==> ListedAsReleased(steps)
  {
    if UnrelatedInStepOrder(steps, ord) {
      forall a: nat, b: nat, d: nat | a < b < |steps| && Unrelated(steps, a, b) && Dep(steps, a, d)
        ensures SomeDepAtOrAfter(steps, b, d)
      {
        KeptOrderNeedsForm(steps, ord, a, b, d);
      }
    }
    if ListedAsReleased(steps) {
      forall k, l | 0 <= k < l < |ord| && Unrelated(steps, ord[k], ord[l]) ensures ord[k] < ord[l] {
        FormKeepsOrder(steps, ord, k, l);
      }
    }
  }

  lemma PositionOf(steps: seq<Step>, ord: seq<nat>, a: nat) returns (k: nat)
    requires KahnOrder(steps, ord) && a < |steps|
    ensures k < |ord| && ord[k] == a
  {
    DistinctBelow(ord, |steps|);
    assert a in ord;
    k :| 0 <= k < |ord| && ord[k] == a;
  }

  lemma KeptOrderNeedsForm(steps: seq<Step>, ord: seq<nat>, a: nat, b: nat, d: nat)
    requires KahnOrder(steps, ord) && UnrelatedInStepOrder(steps, ord)
    requires a < b < |steps| && Unrelated(steps, a, b) && Dep(steps, a, d)
    ensures SomeDepAtOrAfter(steps, b, d)
  {
    var ka := PositionOf(steps, ord, a);
    var kb := PositionOf(steps, ord, b);
    var kd := PositionOf(steps, ord, d);
    KeptOrderPositions(steps, ord, ka, kb);
    ReleaseMonotone(steps, ord, ka, kb);
    SomeDepLater(steps, ord, kd, b);
  }

  lemma KeptOrderPositions(steps: seq<Step>, ord: seq<nat>, k: nat, l: nat)
    requires UnrelatedInStepOrder(steps, ord) && k < |ord| && l < |ord|
    requires ord[k] < ord[l] && Unrelated(steps, ord[k], ord[l])
    ensures k < l
  {
  }

  lemma SomeDepLater(steps: seq<Step>, ord: seq<nat>, k: nat, b: nat)
    requires KahnOrder(steps, ord) && UnrelatedInStepOrder(steps, ord)
    requires k < |ord| && k <= LastDep(steps, ord, b)
    ensures SomeDepAtOrAfter(steps, b, ord[k])
  {
    var r := LastDep(steps, ord, b);
    if k < r {
      EarlierIsPromised(steps, ord, k, r);
    }
    assert Dep(steps, b, ord[r]);
  }

  lemma EarlierIsPromised(steps: seq<Step>, ord: seq<nat>, k: nat, l: nat)
    requires KahnOrder(steps, ord) && UnrelatedInStepOrder(steps, ord) && k < l < |ord|
    ensures Promised(steps, ord[k], ord[l])
  {
    if Reaches(steps, ord[k], ord[l]) {
      var q := ReachesDescends(steps, ord, k, ord[l]);
    }
  }

  /** Promised pairs come in that order among the first `n` steps, in a definition of that form. */
  lemma {:induction false} FormKeepsOrder(steps: seq<Step>, ord: seq<nat>, k: nat, l: nat)
    requires KahnOrder(steps, ord) && ListedAsReleased(steps)
    requires k < l < |ord|
    ensures !Promised(steps, ord[l], ord[k])
    decreases l
  {
    var b, a := ord[k], ord[l];
    if Promised(steps, a, b) {
      if Reaches(steps, b, a) {
        var e := ReachesDescends(steps, ord, k, a);
      }
      // a < b unrelated, yet b is released first.
      assert Unrelated(steps, a, b) && a < b;
      assert ReleasedFirst(steps, ord, ord[k], ord[l]);
      LastDepEarlier(steps, ord, k);
      LastDepEarlier(steps, ord, l);
      var r := LastDep(steps, ord, a);
      assert SomeDepAtOrAfter(steps, b, ord[r]);
      var e: nat :| Dep(steps, b, e) && (ord[r] == e || Promised(steps, ord[r], e));
      var q := PositionOf(steps, ord, e);
      assert q <= LastDep(steps, ord, b) < r;
      FormKeepsOrder(steps, ord, q, r);
    }
  }
}
