/** The dependency graph of a pipeline: steps are nodes, numbered by their position. */
module PipelineGraph {
  import opened Wrappers

  datatype Step = Step(id: string, plugin: string, dependsOn: seq<string>, fanOut: Option<string>)

  /** Step `i` waits directly for step `j`. A dependency may be listed several times, and a
      step may list itself. */
  predicate Dep(steps: seq<Step>, i: nat, j: nat) {
    i < |steps| && j < |steps| && steps[j].id in steps[i].dependsOn
  }

  /** `p` follows dependencies from `p[0]`. */
  ghost predicate Walk(steps: seq<Step>, p: seq<nat>) {
    && |p| > 0
    && Below(p, |steps|)
    && forall k :: 0 < k < |p| ==> Dep(steps, p[k - 1], p[k])
  }

  ghost predicate WalkFromTo(steps: seq<Step>, p: seq<nat>, i: nat, j: nat) {
    Walk(steps, p) && p[0] == i && p[|p| - 1] == j
  }

  /** Step `i` depends on step `j`, directly or through other steps. */
  ghost predicate Reaches(steps: seq<Step>, i: nat, j: nat) {
    exists p :: WalkFromTo(steps, p, i, j) && |p| >= 2
  }

  ghost predicate OnCycle(steps: seq<Step>, i: nat) {
    Reaches(steps, i, i)
  }

  ghost predicate Acyclic(steps: seq<Step>) {
    forall i: nat :: i < |steps| ==> !OnCycle(steps, i)
  }

  /** Step `i` lies on a cycle or depends, however indirectly, on one that does. */
  ghost predicate Stuck(steps: seq<Step>, i: nat) {
    exists j: nat :: (i == j || Reaches(steps, i, j)) && OnCycle(steps, j)
  }

  lemma DepReaches(steps: seq<Step>, i: nat, j: nat)
    requires Dep(steps, i, j)
    ensures Reaches(steps, i, j)
  {
    assert WalkFromTo(steps, [i, j], i, j);
  }

  lemma ReachesTransitive(steps: seq<Step>, i: nat, j: nat, k: nat)
    requires Reaches(steps, i, j) && Reaches(steps, j, k)
    ensures Reaches(steps, i, k)
  {
    var p :| WalkFromTo(steps, p, i, j) && |p| >= 2;
    var q :| WalkFromTo(steps, q, j, k) && |q| >= 2;
    var r := p + q[1..];
    forall m | 0 < m < |r| ensures Dep(steps, r[m - 1], r[m]) {
      if m >= |p| {
        assert r[m] == q[m - |p| + 1] && r[m - 1] == q[m - |p|];
      }
    }
    assert WalkFromTo(steps, r, i, k);
  }

  /** Every step of the set waits for some step of the set. */
  ghost predicate Closed(steps: seq<Step>, s: set<nat>) {
    forall x {:trigger WaitsIn(steps, x, s)} :: x in s ==> x < |steps| && WaitsIn(steps, x, s)
  }

  ghost predicate WaitsIn(steps: seq<Step>, x: nat, s: set<nat>) {
    exists y :: y in s && Dep(steps, x, y)
  }

  /** In such a set every step is stuck. */
  lemma ClosedSetIsStuck(steps: seq<Step>, s: set<nat>, i: nat)
    requires i in s && Closed(steps, s)
    ensures Stuck(steps, i)
  {
    var p := WalkInside(steps, s, i, |steps|);
    var a, b := Pigeonhole(p, |steps|);
    assert WalkFromTo(steps, p[a..b + 1], p[a], p[b]);
    assert OnCycle(steps, p[a]);
    if a > 0 {
      assert WalkFromTo(steps, p[..a + 1], i, p[a]);
    }
  }

  lemma WalkCons(steps: seq<Step>, i: nat, q: seq<nat>)
    requires Walk(steps, q) && Dep(steps, i, q[0])
    ensures Walk(steps, [i] + q)
  {
    var p := [i] + q;
    forall k | 0 < k < |p| ensures Dep(steps, p[k - 1], p[k]) {
      if k > 1 {
        assert p[k] == q[k - 1] && p[k - 1] == q[k - 2];
      }
    }
  }

  lemma {:induction false} WalkInside(steps: seq<Step>, s: set<nat>, i: nat, n: nat) returns (p: seq<nat>)
    requires i in s && Closed(steps, s)
    ensures Walk(steps, p) && p[0] == i && |p| == n + 1
    decreases n
  {
    assert WaitsIn(steps, i, s);
    if n == 0 {
      p := [i];
    } else {
      var j :| j in s && Dep(steps, i, j);
      var q := WalkInside(steps, s, j, n - 1);
      p := [i] + q;
      WalkCons(steps, i, q);
    }
  }

  /** Every dependency of a listed step is listed before it. */
  ghost predicate DepsBefore(steps: seq<Step>, ord: seq<nat>) {
    forall k, j: nat :: 0 <= k < |ord| && Dep(steps, ord[k], j) ==> j in ord[..k]
  }

  /** Following dependencies only goes down in such a list. */
  lemma {:induction false} WalkDescends(steps: seq<Step>, ord: seq<nat>, p: seq<nat>, k: nat) returns (e: nat)
    requires DepsBefore(steps, ord) && k < |ord|
    requires Walk(steps, p) && p[0] == ord[k]
    ensures e < |ord| && ord[e] == p[|p| - 1] && e + |p| <= k + 1
    decreases |p|
  {
    if |p| == 1 {
      e := k;
    } else {
      assert Dep(steps, p[0], p[1]);
      var k' :| 0 <= k' < k && ord[k'] == p[1];
      assert Walk(steps, p[1..]) by {
        forall m | 0 < m < |p[1..]| ensures Dep(steps, p[1..][m - 1], p[1..][m]) {
          assert Dep(steps, p[m], p[m + 1]);
        }
      }
      e := WalkDescends(steps, ord, p[1..], k');
    }
  }

  lemma ReachesDescends(steps: seq<Step>, ord: seq<nat>, k: nat, j: nat) returns (e: nat)
    requires DepsBefore(steps, ord) && k < |ord| && Reaches(steps, ord[k], j)
    ensures e < k && ord[e] == j
  {
    var p :| WalkFromTo(steps, p, ord[k], j) && |p| >= 2;
    e := WalkDescends(steps, ord, p, k);
  }

  lemma ListedIsNotStuck(steps: seq<Step>, ord: seq<nat>, k: nat)
    requires DepsBefore(steps, ord) && Distinct(ord) && k < |ord|
    ensures !Stuck(steps, ord[k])
  {
    if Stuck(steps, ord[k]) {
      var j: nat :| (ord[k] == j || Reaches(steps, ord[k], j)) && OnCycle(steps, j);
      var e := k;
      if ord[k] != j {
        e := ReachesDescends(steps, ord, k, j);
      }
      var e' := ReachesDescends(steps, ord, e, j);
    }
  }

  /** A stuck set holds an actual cycle. */
  lemma StuckHoldsACycle(steps: seq<Step>, i: nat)
    requires Stuck(steps, i)
    ensures exists j: nat :: j < |steps| && Stuck(steps, j) && OnCycle(steps, j)
  {
    var j: nat :| (i == j || Reaches(steps, i, j)) && OnCycle(steps, j);
    assert Stuck(steps, j);
    var p :| WalkFromTo(steps, p, j, j) && |p| >= 2;
  }
}
