/** A definition whose order departs from the wording "steps with no mutual dependency are ordered
    by their position". `PipelineOrder.StepOrderExactly` says which definitions do. */
module PipelineWording {
  import opened Wrappers
  import opened PipelineGraph
  import opened PipelineOrder
  import opened PipelineSpec

  ghost const SWAPPED: seq<Step> :=
    [Step("a", "x", [], None), Step("p", "x", ["q"], None), Step("z", "x", [], None), Step("q", "x", ["a"], None)]

  lemma SwappedDeps(i: nat, j: nat)
    ensures Dep(SWAPPED, i, j) <==> (i == 1 && j == 3) || (i == 3 && j == 0)
  {
    assert forall i: nat :: i < 4 ==> SWAPPED[i].dependsOn == if i == 1 then ["q"] else if i == 3 then ["a"] else [];
    assert SWAPPED[0].id[0] == 'a' && SWAPPED[1].id[0] == 'p' && SWAPPED[2].id[0] == 'z' && SWAPPED[3].id[0] == 'q';
    assert forall d :: d in ["q"] ==> d[0] == 'q';
    assert forall d :: d in ["a"] ==> d[0] == 'a';
  }

  lemma SwappedDepsBefore()
    ensures DepsBefore(SWAPPED, [0, 2, 3, 1])
  {
    var ord := [0, 2, 3, 1];
    forall k, j: nat | 0 <= k < |ord| && Dep(SWAPPED, ord[k], j) ensures j in ord[..k] {
      SwappedDeps(ord[k], j);
      assert ord[..2][0] == 0 && ord[..3][2] == 3;
    }
  }

  lemma SwappedFifo()
    ensures Fifo(SWAPPED, [0, 2, 3, 1], [0, 2, 3, 1])
  {
    SwappedLastDep(0, -1);
    SwappedLastDep(1, 2);
    SwappedLastDep(2, -1);
    SwappedLastDep(3, 0);
    var ord := [0, 2, 3, 1];
    forall k, l | 0 <= k < l < |ord| ensures ReleasedFirst(SWAPPED, ord, ord[k], ord[l]) {
      assert l == 1 || l == 2 || l == 3;
    }
  }

  lemma SwappedLastDep(i: nat, r: int)
    requires i < 4 && r == [-1, 2, -1, 0][i]
    ensures LastDep(SWAPPED, [0, 2, 3, 1], i) == r
  {
    var ord := [0, 2, 3, 1];
    forall q | 0 <= q < 4 {
      SwappedDeps(i, ord[q]);
    }
    LastDepIs(SWAPPED, ord, i, r);
  }

  /** Four steps whose order is a, z, q, p: the unrelated p and z swap places. */
  lemma StepOrderFails()
    ensures KahnOrder(SWAPPED, [0, 2, 3, 1]) && IdsOf(SWAPPED, [0, 2, 3, 1]) == ["a", "z", "q", "p"]
    ensures !UnrelatedInStepOrder(SWAPPED, [0, 2, 3, 1])
  {
    var ord := [0, 2, 3, 1];
    SwappedDepsBefore();
    SwappedFifo();
    SwappedUnrelated();
    assert Unrelated(SWAPPED, ord[1], ord[3]);
  }

  lemma SwappedUnrelated()
    ensures Unrelated(SWAPPED, 2, 1)
  {
    if Reaches(SWAPPED, 2, 1) {
      var p :| WalkFromTo(SWAPPED, p, 2, 1) && |p| >= 2;
      SwappedDeps(p[0], p[1]);
    }
    if Reaches(SWAPPED, 1, 2) {
      var p :| WalkFromTo(SWAPPED, p, 1, 2) && |p| >= 2;
      SwappedDeps(p[|p| - 2], p[|p| - 1]);
    }
  }
}
