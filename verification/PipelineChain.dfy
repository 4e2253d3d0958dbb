/** What normalization makes of a definition: a chain, where nothing else is said. */
module PipelineChain {
  import opened Wrappers
  import opened PipelineGraph
  import opened PipelineOrder
  import opened PipelineSpec
  import opened Pipeline

  /** Nothing but dependencies is filled in, and only where a later step named none. */
  lemma OnlyMissingFilled(steps: seq<Step>, i: nat)
    requires i < |steps|
    ensures |Normalized(steps)| == |steps| && Normalized(steps)[i].(dependsOn := steps[i].dependsOn) == steps[i]
    ensures i == 0 || steps[i].dependsOn != [] ==> Normalized(steps)[i] == steps[i]
  {
  }

  /** A later step that named no dependency waits for the step listed just before it, and for no other. */
  lemma WaitsForThePrevious(steps: seq<Step>, i: nat, j: nat)
    requires UniqueIds(steps) && 0 < i < |steps| && steps[i].dependsOn == []
    ensures |Normalized(steps)[i].dependsOn| == 1
    ensures Dep(Normalized(steps), i, j) <==> j + 1 == i
  {
    var s := Normalized(steps);
    OnlyMissingFilled(steps, i - 1);
    if j < |steps| {
      OnlyMissingFilled(steps, j);
      assert s[j].id == steps[j].id;
    }
    assert steps[i - 1].id in s[i].dependsOn;
  }

  ghost predicate NothingNamed(steps: seq<Step>) {
    forall i :: 0 <= i < |steps| ==> steps[i].dependsOn == []
  }

  /** The steps as they are listed. */
  function Listing(n: nat): (r: seq<nat>)
    ensures |r| == n && forall k :: 0 <= k < n ==> r[k] == k
  {
    seq(n, k => k)
  }

  /** The way back from step `i` to the first. */
  function WayBack(i: nat): (r: seq<nat>)
    ensures |r| == i + 1 && forall k :: 0 <= k <= i ==> r[k] == i - k
  {
    seq(i + 1, k requires 0 <= k <= i => i - k)
  }

  lemma ChainDep(steps: seq<Step>, i: nat, j: nat)
    requires UniqueIds(steps) && NothingNamed(steps) && i < |steps|
    ensures Dep(Normalized(steps), i, j) <==> j + 1 == i
  {
    if i > 0 {
      WaitsForThePrevious(steps, i, j);
    }
  }

  lemma {:induction false} WalksGoBack(steps: seq<Step>, p: seq<nat>, k: nat)
    requires UniqueIds(steps) && NothingNamed(steps) && Walk(Normalized(steps), p) && k < |p|
    requires p[0] < |steps|
    ensures p[k] + k == p[0]
  {
    if k > 0 {
      WalksGoBack(steps, p, k - 1);
      assert Dep(Normalized(steps), p[k - 1], p[k]);
      ChainDep(steps, p[k - 1], p[k]);
    }
  }

  /** A definition that names no dependency becomes a chain: the longest dependency chain of its step
      number `i` has `i` links. */
  lemma NothingNamedIsAChain(steps: seq<Step>, i: nat)
    requires UniqueIds(steps) && NothingNamed(steps) && i < |steps|
    ensures LongestChain(Normalized(steps), i, i)
  {
    var s, p := Normalized(steps), WayBack(i);
    forall k | 0 < k < |p| ensures Dep(s, p[k - 1], p[k]) {
      ChainDep(steps, p[k - 1], p[k]);
    }
    assert Walk(s, p);
    forall q | Walk(s, q) && q[0] == i ensures |q| <= i + 1 {
      WalksGoBack(steps, q, |q| - 1);
    }
  }

  /** Only the order in which its steps are listed puts dependencies first. */
  lemma ListingIsTheOnlyOrder(steps: seq<Step>, ord: seq<nat>)
    requires UniqueIds(steps) && NothingNamed(steps)
    requires |ord| == |steps| && Distinct(ord) && Below(ord, |steps|)
    ensures DepsBefore(Normalized(steps), ord) <==> ord == Listing(|steps|)
  {
    var s := Normalized(steps);
    if DepsBefore(s, ord) {
      forall k | 0 <= k < |ord| ensures ord[k] == k {
        ListedInTurn(steps, ord, k);
      }
      assert ord == Listing(|steps|);
    }
    if ord == Listing(|steps|) {
      forall k, j: nat | 0 <= k < |ord| && Dep(s, ord[k], j) ensures j in ord[..k] {
        ChainDep(steps, ord[k], j);
        assert ord[..k][j] == j;
      }
    }
  }

  lemma {:induction false} ListedInTurn(steps: seq<Step>, ord: seq<nat>, k: nat)
    requires UniqueIds(steps) && NothingNamed(steps) && DepsBefore(Normalized(steps), ord)
    requires |ord| == |steps| && Distinct(ord) && Below(ord, |steps|) && k < |ord|
    ensures ord[k] == k
    decreases k
  {
    forall m: nat | m < k ensures ord[m] == m {
      ListedInTurn(steps, ord, m);
    }
    var x := ord[k];
    if x > 0 {
      ChainDep(steps, x, x - 1);
      assert x - 1 in ord[..k];
    }
    forall y: nat | y < k ensures y in ord[..k] {
      assert ord[..k][y] == y;
    }
    assert x !in ord[..k];
  }
}
