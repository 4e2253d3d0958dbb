/** Pipeline definitions: filling in implicit dependencies, and checking and ordering the steps. */
module Pipeline {
  import opened Wrappers
  import opened PipelineGraph
  import opened PipelineOrder
  import opened PipelineSpec
  import opened KahnSort

  // ---------------------------------------------------------------- the checks before the sort

  method CheckIds(steps: seq<Step>) returns (problem: Option<PipelineError>, ids: set<string>)
    ensures problem == None ==> UniqueIds(steps) && ids == StepIds(steps)
    ensures problem != None ==> exists i: nat :: FirstRepeat(steps, i) && problem.value == DuplicateStep(steps[i].id)
  {
    ids := {};
    for i := 0 to |steps|
      invariant UniqueIds(steps[..i])
      invariant ids == set j | 0 <= j < i :: steps[j].id
    {
      assert steps[..i + 1] == steps[..i] + [steps[i]];
      if steps[i].id in ids {
        var j :| 0 <= j < i && steps[j].id == steps[i].id;
        assert steps[..i + 1][j].id == steps[..i + 1][i].id;
        assert FirstRepeat(steps, i);
        return Some(DuplicateStep(steps[i].id)), ids;
      }
      ids := ids + {steps[i].id};
    }
    assert steps[..|steps|] == steps;
    problem := None;
  }

  method CheckStep(ids: set<string>, s: Step) returns (problem: Option<PipelineError>)
    ensures problem == StepProblem(ids, s)
  {
    for k := 0 to |s.dependsOn|
      invariant FirstUnknown(ids, s.dependsOn) == FirstUnknown(ids, s.dependsOn[k..])
    {
      if s.dependsOn[k] !in ids {
        return Some(UnknownDependency(s.id, s.dependsOn[k]));
      }
    }
    match s.fanOut {
      case None =>
      case Some(path) =>
        if |s.dependsOn| != 1 {
          return Some(FanOutArity(s.id));
        }
        if path != "$.documents" && path != "$.many" && path != "$" {
          return Some(FanOutPath(s.id, path));
        }
    }
    problem := None;
  }

  method CheckSteps(steps: seq<Step>, ids: set<string>) returns (problem: Option<PipelineError>)
    requires ids == StepIds(steps)
    ensures problem == None <==> NoStepProblem(steps)
    ensures problem != None ==> exists i: nat :: FirstProblem(steps, i) && problem == StepProblem(ids, steps[i])
  {
    for i := 0 to |steps|
      invariant forall k :: 0 <= k < i ==> StepProblem(ids, steps[k]) == None
    {
      problem := CheckStep(ids, steps[i]);
      if problem != None {
        assert FirstProblem(steps, i);
        return;
      }
    }
    problem := None;
  }

  // ---------------------------------------------------------------- implicit dependencies

  /** Every step but the first that names no dependency waits for the step listed before it. */
  ghost function Normalized(steps: seq<Step>): (r: seq<Step>)
    ensures |r| == |steps|
  {
    seq(|steps|, i requires 0 <= i < |steps| =>
      if i > 0 && steps[i].dependsOn == [] then steps[i].(dependsOn := [steps[i - 1].id]) else steps[i])
  }

  /** The first `i` steps are normalized, the others as they were. */
  ghost predicate FilledUpTo(before: seq<Step>, steps: seq<Step>, i: nat) {
    && |steps| == |before| && 1 <= i && (i <= |steps| || |steps| == 0)
    && (forall k :: 0 <= k < i && k < |steps| ==> steps[k] == Normalized(before)[k])
    && forall k :: i <= k < |steps| ==> steps[k] == before[k]
  }

  lemma FilledNext(before: seq<Step>, steps: seq<Step>, i: nat)
    requires FilledUpTo(before, steps, i) && i < |steps|
    ensures steps[i] == before[i] && steps[i - 1].id == before[i - 1].id
    ensures FilledUpTo(before, steps[i := Normalized(before)[i]], i + 1)
    ensures steps[i] == Normalized(before)[i] ==> FilledUpTo(before, steps, i + 1)
  {
    assert steps[i - 1] == Normalized(before)[i - 1];
  }

  /** The checks of a create: reserved names, then normalization and validation. */
  datatype PrepareError = Builtin(uid: string) | Validation(error: PipelineError)

  const BUILTIN_PREFIX := "builtin."

  class PipelineDefinition {
    var uid: string
    var name: string
    var steps: seq<Step>
    var builtin: bool

    constructor (uid: string, name: string, steps: seq<Step>, builtin: bool)
      ensures this.uid == uid && this.name == name && this.steps == steps && this.builtin == builtin
    {
      this.uid, this.name, this.steps, this.builtin := uid, name, steps, builtin;
    }

    method Normalize()
      modifies this`steps, this`name
      ensures steps == Normalized(old(steps))
      ensures name == if old(name) == "" then uid else old(name)
    {
      var explicit := exists s :: s in steps && s.dependsOn != [];
      var i := 1;
      if explicit {
        while i < |steps|
          invariant name == old(name) && FilledUpTo(old(steps), steps, i)
        {
          FilledNext(old(steps), steps, i);
          if steps[i].dependsOn == [] {
            steps := steps[i := steps[i].(dependsOn := [steps[i - 1].id])];
          }
          i := i + 1;
        }
      } else {
        while i < |steps|
          invariant name == old(name) && FilledUpTo(old(steps), steps, i)
        {
          FilledNext(old(steps), steps, i);
          assert old(steps)[i] in old(steps);
          steps := steps[i := steps[i].(dependsOn := [steps[i - 1].id])];
          i := i + 1;
        }
      }
      if name == "" {
        name := uid;
      }
    }

    method Validate() returns (r: Result<seq<string>, PipelineError>)
      ensures Verdict(uid, steps, r)
    {
      if !ValidUid(uid) {
        return Failure(InvalidUid(uid));
      }
      if steps == [] {
        return Failure(Empty);
      }
      var problem, ids := CheckIds(steps);
      if problem != None {
        return Failure(problem.value);
      }
      problem := CheckSteps(steps, ids);
      if problem != None {
        return Failure(problem.value);
      }
      r := Sort(steps);
    }

    /** A refused definition keeps its normalized steps; only `builtin` is left as it was. */
    method Prepare() returns (r: Result<(), PrepareError>)
      modifies this`steps, this`name, this`builtin
      ensures BUILTIN_PREFIX <= uid ==> r == Failure(Builtin(uid)) && unchanged(this)
      ensures !(BUILTIN_PREFIX <= uid) ==>
                && steps == Normalized(old(steps))
                && name == (if old(name) == "" then uid else old(name))
                && (r.Success? <==> WellFormed(uid, steps) && Acyclic(steps))
                && (r.Success? ==> !builtin)
                && (r.Failure? ==> builtin == old(builtin) && r.error.Validation?
                                   && Verdict(uid, steps, Failure(r.error.error)))
    {
      if BUILTIN_PREFIX <= uid {
        return Failure(Builtin(uid));
      }
      Normalize();
      var v := Validate();
      SuccessExactly(uid, steps, v);
      if v.Failure? {
        return Failure(Validation(v.error));
      }
      builtin := false;
      r := Success(());
    }
  }

  // ---------------------------------------------------------------- what a verdict tells

  /** A definition is accepted exactly when it is well formed and acyclic. */
  lemma SuccessExactly(uid: string, steps: seq<Step>, r: Result<seq<string>, PipelineError>)
    requires Verdict(uid, steps, r)
    ensures r.Success? <==> WellFormed(uid, steps) && Acyclic(steps)
    ensures r.Success? ==> exists ord :: KahnOrder(steps, ord) && r.value == IdsOf(steps, ord)
  {
  }

  /** `order[k]` is the id of a step all of whose dependencies come before. */
  ghost predicate AfterItsDeps(steps: seq<Step>, order: seq<string>, k: nat)
    requires k < |order|
  {
    exists i :: 0 <= i < |steps| && steps[i].id == order[k] && forall d :: d in steps[i].dependsOn ==> d in order[..k]
  }

  /** An accepted order lists every step once, and each after everything it depends on. */
  lemma AcceptedOrder(uid: string, steps: seq<Step>, order: seq<string>)
    requires Verdict(uid, steps, Success(order))
    ensures Distinct(order) && Elements(order) == StepIds(steps)
    ensures forall k :: 0 <= k < |order| ==> AfterItsDeps(steps, order, k)
  {
    var ord :| KahnOrder(steps, ord) && order == IdsOf(steps, ord);
    AllListed(steps, ord);
    forall k | 0 <= k < |order| ensures AfterItsDeps(steps, order, k) {
      forall d | d in steps[ord[k]].dependsOn ensures d in order[..k] {
        DepListedBefore(steps, ord, k, d);
      }
    }
  }

  lemma AllListed(steps: seq<Step>, ord: seq<nat>)
    requires UniqueIds(steps) && KahnOrder(steps, ord)
    ensures Distinct(IdsOf(steps, ord)) && Elements(IdsOf(steps, ord)) == StepIds(steps)
  {
    var order := IdsOf(steps, ord);
    forall x | x in StepIds(steps) ensures x in order {
      var i: nat :| i < |steps| && steps[i].id == x;
      IsListed(steps, ord, i);
    }
  }

  lemma IsListed(steps: seq<Step>, ord: seq<nat>, i: nat)
    requires KahnOrder(steps, ord) && i < |steps|
    ensures steps[i].id in IdsOf(steps, ord)
  {
    var k := PositionOf(steps, ord, i);
    assert IdsOf(steps, ord)[k] == steps[i].id;
  }

  lemma DepListedBefore(steps: seq<Step>, ord: seq<nat>, k: nat, d: string)
    requires NoStepProblem(steps) && KahnOrder(steps, ord) && k < |ord| && d in steps[ord[k]].dependsOn
    ensures d in IdsOf(steps, ord)[..k]
  {
    AllKnown(StepIds(steps), steps[ord[k]]);
    var j: nat :| j < |steps| && steps[j].id == d;
    assert Dep(steps, ord[k], j);
    var q :| 0 <= q < k && ord[q] == j;
    assert IdsOf(steps, ord)[..k][q] == d;
  }

  /** The answer to a definition is fixed, error or order. */
  lemma VerdictUnique(uid: string, steps: seq<Step>, a: Result<seq<string>, PipelineError>,
      b: Result<seq<string>, PipelineError>)
    requires Verdict(uid, steps, a) && Verdict(uid, steps, b)
    ensures a == b
  {
    if !ValidUid(uid) || steps == [] {
    } else if !UniqueIds(steps) {
      var i: nat :| FirstRepeat(steps, i) && a == Failure(DuplicateStep(steps[i].id));
      var j: nat :| FirstRepeat(steps, j) && b == Failure(DuplicateStep(steps[j].id));
      OneFirstRepeat(steps, i, j);
      OneFirstRepeat(steps, j, i);
      assert i == j;
    } else if !NoStepProblem(steps) {
      var i: nat :| FirstProblem(steps, i) && a == Failure(StepProblem(StepIds(steps), steps[i]).value);
      var j: nat :| FirstProblem(steps, j) && b == Failure(StepProblem(StepIds(steps), steps[j]).value);
      OneFirstProblem(steps, i, j);
      OneFirstProblem(steps, j, i);
      assert i == j;
    } else if Acyclic(steps) {
      var o :| KahnOrder(steps, o) && a == Success(IdsOf(steps, o));
      var p :| KahnOrder(steps, p) && b == Success(IdsOf(steps, p));
      KahnOrderUnique(steps, o, p);
    }
  }

  lemma UniqueShorter(steps: seq<Step>, n: nat, m: nat)
    requires m <= n <= |steps|
    ensures UniqueIds(steps[..n]) ==> UniqueIds(steps[..m])
  {
    assert steps[..n][..m] == steps[..m];
  }

  lemma OneFirstRepeat(steps: seq<Step>, i: nat, j: nat)
    requires FirstRepeat(steps, i) && FirstRepeat(steps, j)
    ensures i <= j
  {
    if j < i {
      UniqueShorter(steps, i, j + 1);
    }
  }

  lemma OneFirstProblem(steps: seq<Step>, i: nat, j: nat)
    requires FirstProblem(steps, i) && FirstProblem(steps, j)
    ensures i <= j
  {
  }

  /** A reported cycle names exactly the steps that lie on a cycle or depend on one, in step
      order, and among them are the steps of an actual cycle. */
  lemma CycleReport(uid: string, steps: seq<Step>, stuck: seq<string>)
    requires Verdict(uid, steps, Failure(Cycle(stuck)))
    ensures forall i: nat :: i < |steps| ==> (steps[i].id in stuck <==> Stuck(steps, i))
    ensures exists i: nat :: i < |steps| && OnCycle(steps, i) && steps[i].id in stuck
    ensures InStepOrder(steps, stuck)
  {
    if UniqueIds(steps) && NoStepProblem(steps) {
      StuckIdsAre(steps, |steps|);
      StuckAtAscends(steps, |steps|);
      StuckIdsAt(steps, |steps|);
      var i: nat :| i < |steps| && OnCycle(steps, i);
      assert Stuck(steps, i);
    }
  }

  /** `ids` lists steps by ascending position, none twice. */
  ghost predicate InStepOrder(steps: seq<Step>, ids: seq<string>) {
    exists at: seq<nat> :: Below(at, |steps|) && IdsAt(steps, at, ids) && StrictlyAscending(at)
  }

  ghost predicate IdsAt(steps: seq<Step>, at: seq<nat>, ids: seq<string>)
    requires Below(at, |steps|)
  {
    |ids| == |at| && forall k :: 0 <= k < |at| ==> ids[k] == steps[at[k]].id
  }

  ghost predicate StrictlyAscending(at: seq<nat>) {
    forall k, l :: 0 <= k < l < |at| ==> at[k] < at[l]
  }

  lemma AscendingAppend(at: seq<nat>, x: nat)
    requires Below(at, x) && StrictlyAscending(at)
    ensures Below(at + [x], x + 1) && StrictlyAscending(at + [x])
  {
  }

  lemma BelowMore(at: seq<nat>, n: nat, m: nat)
    requires Below(at, n) && n <= m
    ensures Below(at, m)
  {
  }

  lemma {:induction false} StuckIdsAre(steps: seq<Step>, n: nat)
    requires n <= |steps| && UniqueIds(steps)
    ensures forall i: nat :: i < |steps| ==> (steps[i].id in StuckIds(steps, n) <==> i < n && Stuck(steps, i))
  {
    if n > 0 {
      StuckIdsAre(steps, n - 1);
      assert forall i: nat :: i < |steps| && steps[i].id == steps[n - 1].id ==> i == n - 1;
    }
  }

  /** The positions of the stuck steps among the first `n`. */
  ghost function StuckAt(steps: seq<Step>, n: nat): seq<nat>
    requires n <= |steps|
  {
    if n == 0 then []
    else if Stuck(steps, n - 1) then StuckAt(steps, n - 1) + [n - 1]
    else StuckAt(steps, n - 1)
  }

  lemma {:induction false} StuckAtAscends(steps: seq<Step>, n: nat)
    requires n <= |steps|
    ensures Below(StuckAt(steps, n), n) && StrictlyAscending(StuckAt(steps, n))
  {
    if n > 0 {
      StuckAtAscends(steps, n - 1);
      BelowMore(StuckAt(steps, n - 1), n - 1, n);
      AscendingAppend(StuckAt(steps, n - 1), n - 1);
    }
  }

  lemma {:induction false} StuckIdsAt(steps: seq<Step>, n: nat)
    requires n <= |steps| && Below(StuckAt(steps, n), |steps|)
    ensures IdsAt(steps, StuckAt(steps, n), StuckIds(steps, n))
    decreases n
  {
    if n > 0 {
      StuckAtAscends(steps, n - 1);
      BelowMore(StuckAt(steps, n - 1), n - 1, |steps|);
      StuckIdsAt(steps, n - 1);
      StuckAtNext(steps, n);
      IdsAtAppend(steps, StuckAt(steps, n - 1), StuckIds(steps, n - 1), n - 1);
    }
  }

  lemma IdsAtAppend(steps: seq<Step>, at: seq<nat>, ids: seq<string>, x: nat)
    requires Below(at, |steps|) && x < |steps| && IdsAt(steps, at, ids)
    ensures Below(at + [x], |steps|) && IdsAt(steps, at + [x], ids + [steps[x].id])
  {
  }

  lemma StuckAtNext(steps: seq<Step>, n: nat)
    requires 0 < n <= |steps|
    ensures StuckAt(steps, n) == if Stuck(steps, n - 1) then StuckAt(steps, n - 1) + [n - 1] else StuckAt(steps, n - 1)
    ensures StuckIds(steps, n) == if Stuck(steps, n - 1) then StuckIds(steps, n - 1) + [steps[n - 1].id]
              else StuckIds(steps, n - 1)
  {
  }

  // ---------------------------------------------------------------- after normalization

  lemma NormalizedTwice(steps: seq<Step>)
    ensures Normalized(Normalized(steps)) == Normalized(steps)
  {
  }

  /** A normalized definition that is accepted has one root, its first step: it comes first and
      every other step waits for it, directly or not. */
  lemma NormalizedHasOneRoot(uid: string, steps: seq<Step>, ord: seq<nat>)
    requires WellFormed(uid, Normalized(steps)) && KahnOrder(Normalized(steps), ord)
    ensures steps[0].dependsOn == []
    ensures ord[0] == 0
    ensures forall i: nat :: 0 < i < |steps| ==> Reaches(Normalized(steps), i, 0)
  {
    var s := Normalized(steps);
    DistinctBelow(ord, |s|);
    FirstIsRoot(uid, steps, ord);
    forall i: nat | 0 < i < |steps| ensures Reaches(s, i, 0) {
      var k := PositionOf(s, ord, i);
      ReachesFirst(uid, steps, ord, k);
    }
  }

  lemma NonRootWaits(uid: string, steps: seq<Step>, i: nat) returns (j: nat)
    requires WellFormed(uid, Normalized(steps)) && i < |steps| && Normalized(steps)[i].dependsOn != []
    ensures Dep(Normalized(steps), i, j)
  {
    var s := Normalized(steps);
    AllKnown(StepIds(s), s[i]);
    assert s[i].dependsOn[0] in StepIds(s);
    j :| 0 <= j < |s| && s[j].id == s[i].dependsOn[0];
  }

  lemma FirstIsRoot(uid: string, steps: seq<Step>, ord: seq<nat>)
    requires WellFormed(uid, Normalized(steps)) && KahnOrder(Normalized(steps), ord)
    ensures ord[0] == 0 && steps[0].dependsOn == []
  {
    var s := Normalized(steps);
    if s[ord[0]].dependsOn != [] {
      var j := NonRootWaits(uid, steps, ord[0]);
    }
  }

  lemma {:induction false} ReachesFirst(uid: string, steps: seq<Step>, ord: seq<nat>, k: nat)
    requires WellFormed(uid, Normalized(steps)) && KahnOrder(Normalized(steps), ord)
    requires k < |ord| && ord[k] != 0
    ensures Reaches(Normalized(steps), ord[k], 0)
    decreases k
  {
    var s := Normalized(steps);
    var j := NonRootWaits(uid, steps, ord[k]);
    DepReaches(s, ord[k], j);
    if j != 0 {
      var q :| 0 <= q < k && ord[q] == j;
      ReachesFirst(uid, steps, ord, q);
      ReachesTransitive(s, ord[k], j, 0);
    }
  }

  /** A first step with dependencies can never be accepted: everything then waits for something. */
  lemma FirstStepWithDepsIsRefused(uid: string, steps: seq<Step>, r: Result<seq<string>, PipelineError>)
    requires steps != [] && steps[0].dependsOn != []
    requires Verdict(uid, Normalized(steps), r)
    ensures r.Failure?
    ensures WellFormed(uid, Normalized(steps)) ==>
              && r.error.Cycle? && |r.error.stuck| == |steps|
              && forall i :: 0 <= i < |steps| ==> r.error.stuck[i] == Normalized(steps)[i].id
  {
    var s := Normalized(steps);
    if WellFormed(uid, s) {
      AllStuck(uid, steps);
      StuckHoldsACycle(s, 0);
      AllStuckIds(s, |s|);
    }
  }

  lemma WaitsForSome(uid: string, steps: seq<Step>, x: nat)
    requires steps != [] && steps[0].dependsOn != [] && WellFormed(uid, Normalized(steps)) && x < |steps|
    ensures WaitsIn(Normalized(steps), x, UpTo(|steps|))
  {
    var y := NonRootWaits(uid, steps, x);
  }

  lemma AllWait(uid: string, steps: seq<Step>)
    requires steps != [] && steps[0].dependsOn != [] && WellFormed(uid, Normalized(steps))
    ensures Closed(Normalized(steps), UpTo(|steps|))
  {
    forall x | x in UpTo(|steps|) ensures WaitsIn(Normalized(steps), x, UpTo(|steps|)) {
      WaitsForSome(uid, steps, x);
    }
  }

  lemma AllStuck(uid: string, steps: seq<Step>)
    requires steps != [] && steps[0].dependsOn != [] && WellFormed(uid, Normalized(steps))
    ensures forall i: nat :: i < |steps| ==> Stuck(Normalized(steps), i)
  {
    AllWait(uid, steps);
    forall i: nat | i < |steps| ensures Stuck(Normalized(steps), i) {
      ClosedSetIsStuck(Normalized(steps), UpTo(|steps|), i);
    }
  }

  lemma {:induction false} AllStuckIds(steps: seq<Step>, n: nat)
    requires n <= |steps| && forall i: nat :: i < n ==> Stuck(steps, i)
    ensures |StuckIds(steps, n)| == n && forall i :: 0 <= i < n ==> StuckIds(steps, n)[i] == steps[i].id
  {
    if n > 0 {
      AllStuckIds(steps, n - 1);
    }
  }
}
