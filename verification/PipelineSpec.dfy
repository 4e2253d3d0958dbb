/** What it means for a pipeline definition to be accepted, stated without the algorithm. */
module PipelineSpec {
  import opened Wrappers
  import opened PipelineGraph
  import opened PipelineOrder

  datatype PipelineError =
    | Empty
    | InvalidUid(uid: string)
    | DuplicateStep(id: string)
    | UnknownDependency(step: string, dep: string)
    | Cycle(stuck: seq<string>)
    | FanOutArity(step: string)
    | FanOutPath(step: string, path: string)

  // ---------------------------------------------------------------- structure

  predicate UidChar(c: char) {
    || 'a' <= c <= 'z' || 'A' <= c <= 'Z' || '0' <= c <= '9'
    || c == '.' || c == '_' || c == '-'
  }

  predicate ValidUid(uid: string) {
    uid != "" && forall c :: c in uid ==> UidChar(c)
  }

  ghost predicate UniqueIds(steps: seq<Step>) {
    forall i, j :: 0 <= i < j < |steps| ==> steps[i].id != steps[j].id
  }

  ghost function StepIds(steps: seq<Step>): set<string> {
    set i | 0 <= i < |steps| :: steps[i].id
  }

  /** The first listed dependency that is no step's id. */
  function FirstUnknown(ids: set<string>, deps: seq<string>): Option<string> {
    if deps == [] then None
    else if deps[0] !in ids then Some(deps[0])
    else FirstUnknown(ids, deps[1..])
  }

  /** What is wrong with one step on its own. */
  function StepProblem(ids: set<string>, s: Step): Option<PipelineError> {
    match FirstUnknown(ids, s.dependsOn)
    case Some(d) => Some(UnknownDependency(s.id, d))
    case None =>
      match s.fanOut
      case None => None
      case Some(path) =>
        if |s.dependsOn| != 1 then Some(FanOutArity(s.id))
        else if path != "$.documents" && path != "$.many" && path != "$" then Some(FanOutPath(s.id, path))
        else None
  }

  ghost predicate WellFormed(uid: string, steps: seq<Step>) {
    && ValidUid(uid) && steps != [] && UniqueIds(steps)
    && NoStepProblem(steps)
  }

  ghost predicate NoStepProblem(steps: seq<Step>) {
    forall i :: 0 <= i < |steps| ==> StepProblem(StepIds(steps), steps[i]) == None
  }

  /** Step `i` repeats an earlier id, and no step before it does. */
  ghost predicate FirstRepeat(steps: seq<Step>, i: nat) {
    i < |steps| && UniqueIds(steps[..i]) && !UniqueIds(steps[..i + 1])
  }

  /** Step `i` is the first with a problem of its own. */
  ghost predicate FirstProblem(steps: seq<Step>, i: nat) {
    && i < |steps| && StepProblem(StepIds(steps), steps[i]) != None
    && forall k :: 0 <= k < i ==> StepProblem(StepIds(steps), steps[k]) == None
  }

  ghost function IdsOf(steps: seq<Step>, ord: seq<nat>): seq<string>
    requires Below(ord, |steps|)
  {
    seq(|ord|, k requires 0 <= k < |ord| => steps[ord[k]].id)
  }

  /** The ids of the stuck steps among the first `n`, in step order. */
  ghost function StuckIds(steps: seq<Step>, n: nat): seq<string>
    requires n <= |steps|
  {
    if n == 0 then []
    else if Stuck(steps, n - 1) then StuckIds(steps, n - 1) + [steps[n - 1].id]
    else StuckIds(steps, n - 1)
  }

  /** What `Validate` answers, stated without its algorithm. Checks come in this order, and
      each reports the first offender in step order. */
  ghost predicate Verdict(uid: string, steps: seq<Step>, r: Result<seq<string>, PipelineError>) {
    if !ValidUid(uid) then r == Failure(InvalidUid(uid))
    else if steps == [] then r == Failure(Empty)
    else if !UniqueIds(steps) then
      exists i: nat :: FirstRepeat(steps, i) && r == Failure(DuplicateStep(steps[i].id))
    else if !NoStepProblem(steps) then
      exists i: nat :: FirstProblem(steps, i) && r == Failure(StepProblem(StepIds(steps), steps[i]).value)
    else if !Acyclic(steps) then r == Failure(Cycle(StuckIds(steps, |steps|)))
    else exists ord :: KahnOrder(steps, ord) && r == Success(IdsOf(steps, ord))
  }

  lemma {:induction false} FirstUnknownNone(ids: set<string>, deps: seq<string>)
    ensures FirstUnknown(ids, deps) == None <==> forall d :: d in deps ==> d in ids
  {
    if deps != [] {
      FirstUnknownNone(ids, deps[1..]);
      assert deps == [deps[0]] + deps[1..];
    }
  }

  lemma AllKnown(ids: set<string>, s: Step)
    requires StepProblem(ids, s) == None
    ensures forall d :: d in s.dependsOn ==> d in ids
  {
    FirstUnknownNone(ids, s.dependsOn);
  }

  /** The first listed dependency that is no step's id. */
  lemma {:induction false} FirstUnknownExactly(ids: set<string>, deps: seq<string>, d: string)
    ensures FirstUnknown(ids, deps) == Some(d)
       <==> exists k :: 0 <= k < |deps| && deps[k] == d && d !in ids && forall j :: 0 <= j < k ==> deps[j] in ids
  {
    if deps != [] && deps[0] in ids {
      var rest := deps[1..];
      FirstUnknownExactly(ids, rest, d);
      if k :| 0 <= k < |rest| && rest[k] == d && d !in ids && forall j :: 0 <= j < k ==> rest[j] in ids {
        assert deps[k + 1] == d && forall j :: 0 < j < k + 1 ==> deps[j] == rest[j - 1];
      }
      if k :| 0 <= k < |deps| && deps[k] == d && d !in ids && forall j :: 0 <= j < k ==> deps[j] in ids {
        assert rest[k - 1] == d && forall j :: 0 <= j < k - 1 ==> rest[j] == deps[j + 1];
      }
    }
  }

  /** When a step is right, and what is wrong with it otherwise: an unknown dependency comes first, then
      a fan-out that does not wait for one step, then one over no known path. */
  lemma StepProblemExactly(ids: set<string>, s: Step)
    ensures var known := forall d :: d in s.dependsOn ==> d in ids;
            var paths := {"$.documents", "$.many", "$"};
            && (StepProblem(ids, s) == None
                <==> known && (s.fanOut == None || (|s.dependsOn| == 1 && s.fanOut.value in paths)))
            && (!known ==> exists k :: 0 <= k < |s.dependsOn| && s.dependsOn[k] !in ids
                             && (forall j :: 0 <= j < k ==> s.dependsOn[j] in ids)
                             && StepProblem(ids, s) == Some(UnknownDependency(s.id, s.dependsOn[k])))
            && (known && s.fanOut.Some? && |s.dependsOn| != 1 ==> StepProblem(ids, s) == Some(FanOutArity(s.id)))
            && (known && s.fanOut.Some? && |s.dependsOn| == 1 && s.fanOut.value !in paths ==>
                  StepProblem(ids, s) == Some(FanOutPath(s.id, s.fanOut.value)))
  {
    FirstUnknownNone(ids, s.dependsOn);
    if FirstUnknown(ids, s.dependsOn).Some? {
      FirstUnknownExactly(ids, s.dependsOn, FirstUnknown(ids, s.dependsOn).value);
    }
  }

  /** A uid is made of ASCII letters, digits, dots, dashes and underscores, at least one. */
  lemma ValidUidExactly(uid: string)
    ensures ValidUid(uid)
       <==> && |uid| >= 1
            && forall k :: 0 <= k < |uid| ==>
                 var n := uid[k] as int; 48 <= n <= 57 || 65 <= n <= 90 || 97 <= n <= 122 || n in {45, 46, 95}
  {
    forall k | 0 <= k < |uid|
      ensures UidChar(uid[k])
         <==> var n := uid[k] as int; 48 <= n <= 57 || 65 <= n <= 90 || 97 <= n <= 122 || n in {45, 46, 95}
    {
    }
    assert ValidUid(uid) ==> forall k :: 0 <= k < |uid| ==> UidChar(uid[k]);
  }

  /** Which error is reported when several apply: the uid's, then that there are no steps, then the first
      repeated id, then the first step that is wrong on its own, then a cycle. */
  lemma ErrorPrecedence(uid: string, steps: seq<Step>, r: Result<seq<string>, PipelineError>)
    requires Verdict(uid, steps, r)
    ensures !ValidUid(uid) ==> r == Failure(InvalidUid(uid))
    ensures ValidUid(uid) && |steps| == 0 ==> r == Failure(Empty)
    ensures ValidUid(uid) && |steps| > 0 && !UniqueIds(steps) ==>
              exists i: nat, j: nat :: j < i < |steps| && steps[j].id == steps[i].id && UniqueIds(steps[..i])
                && r == Failure(DuplicateStep(steps[i].id))
    ensures ValidUid(uid) && |steps| > 0 && UniqueIds(steps) && !NoStepProblem(steps) ==>
              exists i: nat :: i < |steps| && (forall k :: 0 <= k < i ==> StepProblem(StepIds(steps), steps[k]) == None)
                && StepProblem(StepIds(steps), steps[i]).Some?
                     && r == Failure(StepProblem(StepIds(steps), steps[i]).value)
    ensures WellFormed(uid, steps) && !Acyclic(steps) ==> r.Failure? && r.error.Cycle?
  {
    if ValidUid(uid) && |steps| > 0 && !UniqueIds(steps) {
      var i: nat :| FirstRepeat(steps, i) && r == Failure(DuplicateStep(steps[i].id));
      var j := RepeatedBefore(steps, i);
    }
  }

  lemma RepeatedBefore(steps: seq<Step>, i: nat) returns (j: nat)
    requires FirstRepeat(steps, i)
    ensures j < i && steps[j].id == steps[i].id
  {
    var more := steps[..i + 1];
    forall x, y | 0 <= x < y < i ensures steps[x].id != steps[y].id {
      assert steps[..i][x] == steps[x] && steps[..i][y] == steps[y];
    }
    var a, b :| 0 <= a < b < |more| && more[a].id == more[b].id;
    j := a;
  }
}
