/** The topological sort: dependency counts, child lists and a queue. */
module KahnSort {
  import opened Wrappers
  import opened PipelineGraph
  import opened PipelineOrder
  import opened PipelineSpec

  // ---------------------------------------------------------------- dependency counts

  /** Entries of a dependency list, counted with repetitions, that are not in `done`. */
  ghost function Remaining(deps: seq<string>, done: set<string>): nat {
    if deps == [] then 0
    else (if deps[|deps| - 1] in done then 0 else 1) + Remaining(deps[..|deps| - 1], done)
  }

  lemma RemainingNone(deps: seq<string>)
    ensures Remaining(deps, {}) == |deps|
  {
  }

  lemma {:induction false} RemainingZero(deps: seq<string>, done: set<string>)
    ensures Remaining(deps, done) == 0 <==> forall d :: d in deps ==> d in done
  {
    if deps != [] {
      RemainingZero(deps[..|deps| - 1], done);
      assert deps == deps[..|deps| - 1] + [deps[|deps| - 1]];
    }
  }

  /** Finishing one more step removes each of its occurrences from the count. */
  lemma {:induction false} RemainingDone(deps: seq<string>, done: set<string>, x: string)
    requires x !in done
    ensures Remaining(deps, done) == Remaining(deps, done + {x}) + multiset(deps)[x]
  {
    if deps != [] {
      RemainingDone(deps[..|deps| - 1], done, x);
      assert deps == deps[..|deps| - 1] + [deps[|deps| - 1]];
    }
  }

  // ---------------------------------------------------------------- the Kahn loop's state

  ghost function DoneIds(steps: seq<Step>, ord: seq<nat>): set<string>
    requires Below(ord, |steps|)
  {
    set k | 0 <= k < |ord| :: steps[ord[k]].id
  }

  /** `indegree` counts, for each step, the dependency entries not yet in `ord`. */
  ghost predicate Counted(steps: seq<Step>, ord: seq<nat>, indegree: seq<nat>)
    requires Below(ord, |steps|)
  {
    && |indegree| == |steps|
    && forall i :: 0 <= i < |steps| ==> indegree[i] == Remaining(steps[i].dependsOn, DoneIds(steps, ord))
  }

  /** `children[j]` lists each step once for every time it names `j`. */
  ghost predicate Linked(steps: seq<Step>, children: seq<seq<nat>>) {
    && |children| == |steps|
    && forall j :: 0 <= j < |steps| ==> LinkedTo(steps, children[j], j, |steps|)
  }

  ghost predicate LinkedTo(steps: seq<Step>, kids: seq<nat>, j: nat, n: nat)
    requires j < |steps| && n <= |steps|
  {
    && Below(kids, n)
    && forall i :: 0 <= i < n ==> multiset(kids)[i] == multiset(steps[i].dependsOn)[steps[j].id]
  }

  ghost predicate KahnState(steps: seq<Step>, ord: seq<nat>, queue: seq<nat>, indegree: seq<nat>) {
    && Distinct(ord + queue) && Below(ord + queue, |steps|) && Below(ord, |steps|)
    && Counted(steps, ord, indegree)
    && (forall i: nat :: i < |steps| ==> (i in ord + queue <==> indegree[i] == 0))
    && DepsBefore(steps, ord)
    && Fifo(steps, ord, ord + queue)
  }

  // ---------------------------------------------------------------- building the graph

  ghost predicate Indexed(steps: seq<Step>, index: map<string, nat>) {
    && index.Keys == StepIds(steps)
    && forall d :: d in index ==> index[d] < |steps| && steps[index[d]].id == d
  }

  method IndexIds(steps: seq<Step>) returns (index: map<string, nat>)
    requires UniqueIds(steps)
    ensures Indexed(steps, index)
  {
    index := map[];
    for i := 0 to |steps|
      invariant index.Keys == set j | 0 <= j < i :: steps[j].id
      invariant forall d :: d in index ==> index[d] < |steps| && steps[index[d]].id == d
    {
      index := index[steps[i].id := i];
    }
  }

  ghost predicate KnownDeps(steps: seq<Step>, i: nat)
    requires i < |steps|
  {
    forall d :: d in steps[i].dependsOn ==> d in StepIds(steps)
  }

  /** `kids` lists the children of step `j` among the steps before `i` and the first `k`
      dependency entries of step `i`. */
  ghost predicate LinkedUpTo(steps: seq<Step>, kids: seq<nat>, j: nat, i: nat, k: nat)
    requires i < |steps| && j < |steps| && k <= |steps[i].dependsOn|
  {
    && Below(kids, i + 1)
    && (forall x :: 0 <= x < i ==> multiset(kids)[x] == multiset(steps[x].dependsOn)[steps[j].id])
    && multiset(kids)[i] == multiset(steps[i].dependsOn[..k])[steps[j].id]
  }

  lemma LinkedStart(steps: seq<Step>, kids: seq<nat>, j: nat, i: nat)
    requires i < |steps| && j < |steps| && LinkedTo(steps, kids, j, i)
    ensures LinkedUpTo(steps, kids, j, i, 0)
  {
    assert i !in kids;
  }

  lemma LinkedNext(steps: seq<Step>, kids: seq<nat>, j: nat, i: nat, k: nat)
    requires i < |steps| && j < |steps| && k < |steps[i].dependsOn| && LinkedUpTo(steps, kids, j, i, k)
    ensures LinkedUpTo(steps, if steps[i].dependsOn[k] == steps[j].id then kids + [i] else kids, j, i, k + 1)
  {
    var deps := steps[i].dependsOn;
    assert deps[..k + 1] == deps[..k] + [deps[k]];
  }

  lemma LinkedEnd(steps: seq<Step>, kids: seq<nat>, j: nat, i: nat)
    requires i < |steps| && j < |steps| && LinkedUpTo(steps, kids, j, i, |steps[i].dependsOn|)
    ensures LinkedTo(steps, kids, j, i + 1)
  {
    assert steps[i].dependsOn[..|steps[i].dependsOn|] == steps[i].dependsOn;
  }

  /** Link step `i` below each of its dependencies. */
  method LinkStep(steps: seq<Step>, index: map<string, nat>, i: nat, indegree: array<nat>, children: array<seq<nat>>)
    requires UniqueIds(steps) && Indexed(steps, index)
    requires i < |steps| == indegree.Length == children.Length && KnownDeps(steps, i)
    requires indegree[i] == 0
    requires forall j :: 0 <= j < |steps| ==> LinkedTo(steps, children[j], j, i)
    modifies indegree, children
    ensures indegree[i] == |steps[i].dependsOn|
    ensures forall x :: 0 <= x < |steps| && x != i ==> indegree[x] == old(indegree[x])
    ensures forall j :: 0 <= j < |steps| ==> LinkedTo(steps, children[j], j, i + 1)
  {
    var deps := steps[i].dependsOn;
    forall j | 0 <= j < |steps| {
      LinkedStart(steps, children[j], j, i);
    }
    for k := 0 to |deps|
      invariant indegree[i] == k
      invariant forall x :: 0 <= x < |steps| && x != i ==> indegree[x] == old(indegree[x])
      invariant forall j :: 0 <= j < |steps| ==> LinkedUpTo(steps, children[j], j, i, k)
    {
      assert deps[k] in StepIds(steps);
      ghost var before := children[..];
      var j := index[deps[k]];
      indegree[i] := indegree[i] + 1;
      children[j] := children[j] + [i];
      forall j' | 0 <= j' < |steps| ensures LinkedUpTo(steps, children[j'], j', i, k + 1) {
        LinkedNext(steps, before[j'], j', i, k);
        assert steps[j'].id == deps[k] <==> j' == j;
      }
    }
    forall j | 0 <= j < |steps| {
      LinkedEnd(steps, children[j], j, i);
    }
  }

  method BuildGraph(steps: seq<Step>, index: map<string, nat>) returns (indegree: array<nat>, children: array<seq<nat>>)
    requires UniqueIds(steps) && Indexed(steps, index)
    requires forall i :: 0 <= i < |steps| ==> KnownDeps(steps, i)
    ensures fresh(indegree) && fresh(children)
    ensures Counted(steps, [], indegree[..]) && Linked(steps, children[..])
  {
    indegree := new nat[|steps|](_ => 0);
    children := new seq<nat>[|steps|](_ => []);
    for i := 0 to |steps|
      invariant forall x :: 0 <= x < |steps| ==> indegree[x] == if x < i then |steps[x].dependsOn| else 0
      invariant forall j :: 0 <= j < |steps| ==> LinkedTo(steps, children[j], j, i)
    {
      LinkStep(steps, index, i, indegree, children);
    }
    forall i | 0 <= i < |steps| {
      RemainingNone(steps[i].dependsOn);
    }
    assert DoneIds(steps, []) == {};
  }

  // ---------------------------------------------------------------- the Kahn loop

  ghost predicate Ascending(s: seq<nat>) {
    forall a, b :: 0 <= a < b < |s| ==> s[a] <= s[b]
  }

  function Insert(s: seq<nat>, x: nat): (t: seq<nat>)
    requires Ascending(s)
    ensures Ascending(t) && multiset(t) == multiset(s) + multiset{x}
    ensures forall y :: y in t ==> y == x || y in s
  {
    if s == [] || s[|s| - 1] <= x then s + [x]
    else
      assert s == s[..|s| - 1] + [s[|s| - 1]];
      var t := Insert(s[..|s| - 1], x);
      assert forall k :: 0 <= k < |t| ==> t[k] in t;
      t + [s[|s| - 1]]
  }

  /** Insertion sort, standing for the library's `sort_unstable`. */
  method SortUnstable(s: seq<nat>) returns (t: seq<nat>)
    ensures Ascending(t) && multiset(t) == multiset(s)
  {
    t := [];
    for k := 0 to |s|
      invariant Ascending(t) && multiset(t) == multiset(s[..k])
    {
      t := Insert(t, s[k]);
      assert s[..k + 1] == s[..k] + [s[k]];
    }
    assert s[..|s|] == s;
  }

  lemma DistinctCounts<T(!new)>(s: seq<T>)
    ensures Distinct(s) <==> forall x :: multiset(s)[x] <= 1
  {
    if Distinct(s) {
      forall x ensures multiset(s)[x] <= 1 {
        AtMostOnce(s, x);
      }
    } else {
      var i, j :| 0 <= i < j < |s| && s[i] == s[j];
      assert s == s[..j] + s[j..];
      assert s[..j][i] == s[j..][0];
      assert multiset(s)[s[i]] >= 2;
    }
  }

  lemma {:induction false} AtMostOnce<T(!new)>(s: seq<T>, x: T)
    requires Distinct(s)
    ensures multiset(s)[x] <= 1
  {
    if s != [] {
      var init, last := s[..|s| - 1], s[|s| - 1];
      AtMostOnce(init, x);
      assert s == init + [last];
      assert last !in init;
    }
  }

  /** Count down the children of a finished step and collect those that reach zero. */
  method CountDown(kids: seq<nat>, indegree: array<nat>) returns (ready: seq<nat>)
    requires Below(kids, indegree.Length)
    requires forall c :: 0 <= c < indegree.Length ==> multiset(kids)[c] <= indegree[c]
    modifies indegree
    ensures forall c :: 0 <= c < indegree.Length ==> indegree[c] + multiset(kids)[c] == old(indegree[c])
    ensures Distinct(ready)
    ensures Below(ready, indegree.Length)
    ensures forall c :: c in ready <==> c in kids && c < indegree.Length && indegree[c] == 0
  {
    ready := [];
    for k := 0 to |kids|
      invariant Distinct(ready) && Below(ready, indegree.Length)
      invariant forall c :: 0 <= c < indegree.Length ==> indegree[c] + multiset(kids[..k])[c] == old(indegree[c])
      invariant forall c :: c in ready <==> c in kids[..k] && c < indegree.Length && indegree[c] == 0
    {
      var c := kids[k];
      PrefixCounts(kids, k);
      indegree[c] := indegree[c] - 1;
      if indegree[c] == 0 {
        ready := ready + [c];
      }
    }
    assert kids[..|kids|] == kids;
  }

  lemma PrefixCounts(s: seq<nat>, k: nat)
    requires k < |s|
    ensures s[..k + 1] == s[..k] + [s[k]]
    ensures multiset(s[..k + 1]) == multiset(s[..k]) + multiset{s[k]}
    ensures multiset(s[..k + 1]) <= multiset(s)
  {
    assert s == s[..k + 1] + s[k + 1..];
  }

  /** Take step `v` out: its children are counted down, and those nothing else holds back are
      ready. */
  method Release(steps: seq<Step>, ghost ord: seq<nat>, v: nat, kids: seq<nat>, indegree: array<nat>)
    returns (ready: seq<nat>)
    requires UniqueIds(steps) && v < |steps| && Below(ord, |steps|) && v !in ord
    requires Counted(steps, ord, indegree[..]) && LinkedTo(steps, kids, v, |steps|)
    modifies indegree
    ensures Counted(steps, ord + [v], indegree[..])
    ensures Distinct(ready) && Below(ready, |steps|)
    ensures forall c: nat :: c < |steps| ==> (c in ready <==> indegree[c] == 0 && old(indegree[c]) > 0)
  {
    ghost var before := indegree[..];
    CountsAfter(steps, ord, v, kids, before);
    ready := CountDown(kids, indegree);
  }

  lemma CountsAfter(steps: seq<Step>, ord: seq<nat>, v: nat, kids: seq<nat>, before: seq<nat>)
    requires UniqueIds(steps) && v < |steps| && Below(ord, |steps|) && v !in ord
    requires Counted(steps, ord, before) && LinkedTo(steps, kids, v, |steps|)
    ensures forall c :: 0 <= c < |steps| ==>
              before[c] == Remaining(steps[c].dependsOn, DoneIds(steps, ord + [v])) + multiset(kids)[c]
  {
    NotDone(steps, ord, v);
    DoneAppend(steps, ord, v);
    forall c | 0 <= c < |steps| {
      RemainingDone(steps[c].dependsOn, DoneIds(steps, ord), steps[v].id);
    }
  }

  lemma DoneAppend(steps: seq<Step>, ord: seq<nat>, v: nat)
    requires v < |steps| && Below(ord, |steps|)
    ensures DoneIds(steps, ord + [v]) == DoneIds(steps, ord) + {steps[v].id}
  {
    var next := ord + [v];
    assert forall k :: 0 <= k < |ord| ==> next[k] == ord[k];
    assert next[|ord|] == v;
    forall d | d in DoneIds(steps, ord) ensures d in DoneIds(steps, next) {
      var k :| 0 <= k < |ord| && steps[ord[k]].id == d;
      assert steps[next[k]].id == d;
    }
  }

  lemma NotDone(steps: seq<Step>, ord: seq<nat>, v: nat)
    requires UniqueIds(steps) && v < |steps| && Below(ord, |steps|) && v !in ord
    ensures steps[v].id !in DoneIds(steps, ord)
  {
    forall k | 0 <= k < |ord| ensures steps[ord[k]].id != steps[v].id {
      assert ord[k] != v;
    }
  }

  lemma ReadyMeansDone(steps: seq<Step>, ord: seq<nat>, indegree: seq<nat>, i: nat, j: nat)
    requires UniqueIds(steps) && Below(ord, |steps|) && Counted(steps, ord, indegree)
    requires i < |steps| && indegree[i] == 0 && Dep(steps, i, j)
    ensures j in ord
  {
    RemainingZero(steps[i].dependsOn, DoneIds(steps, ord));
    var k :| 0 <= k < |ord| && steps[ord[k]].id == steps[j].id;
    assert ord[k] == j;
  }

  /** A step released by finishing `v` waits for `v`. */
  lemma ReleasedByLast(steps: seq<Step>, ord: seq<nat>, v: nat, before: seq<nat>, after: seq<nat>, c: nat)
    requires UniqueIds(steps) && v < |steps| && Below(ord, |steps|)
    requires Counted(steps, ord, before) && Counted(steps, ord + [v], after)
    requires c < |steps| && after[c] == 0 && before[c] > 0
    ensures Dep(steps, c, v)
  {
    DoneAppend(steps, ord, v);
    RemainingZero(steps[c].dependsOn, DoneIds(steps, ord));
    RemainingZero(steps[c].dependsOn, DoneIds(steps, ord + [v]));
  }

  lemma DoneStaysDone(steps: seq<Step>, ord: seq<nat>, v: nat, before: seq<nat>, after: seq<nat>, c: nat)
    requires v < |steps| && Below(ord, |steps|)
    requires Counted(steps, ord, before) && Counted(steps, ord + [v], after)
    requires c < |steps| && before[c] == 0
    ensures after[c] == 0
  {
    DoneAppend(steps, ord, v);
    RemainingZero(steps[c].dependsOn, DoneIds(steps, ord));
    RemainingZero(steps[c].dependsOn, DoneIds(steps, ord + [v]));
  }

  /** One turn of the loop: `v` leaves the queue, the steps it releases join it. */
  ghost predicate Turn(steps: seq<Step>, ord: seq<nat>, v: nat, rest: seq<nat>, ready: seq<nat>, before: seq<nat>,
      after: seq<nat>) {
    && UniqueIds(steps)
    && KahnState(steps, ord, [v] + rest, before)
    && v < |steps| && Counted(steps, ord + [v], after)
    && Distinct(ready) && Ascending(ready) && Below(ready, |steps|)
    && forall c: nat :: c < |steps| ==> (c in ready <==> after[c] == 0 && before[c] > 0)
  }

  lemma TurnMembers(steps: seq<Step>, ord: seq<nat>, v: nat, rest: seq<nat>, ready: seq<nat>, before: seq<nat>,
      after: seq<nat>)
    requires Turn(steps, ord, v, rest, ready, before, after)
    ensures ord + [v] + (rest + ready) == ord + ([v] + rest) + ready
    ensures Distinct(ord + [v] + (rest + ready)) && Below(ord + [v] + (rest + ready), |steps|)
    ensures forall i: nat :: i < |steps| ==> (i in ord + [v] + (rest + ready) <==> after[i] == 0)
  {
    var known, known' := ord + ([v] + rest), ord + [v] + (rest + ready);
    assert known' == known + ready;
    forall i: nat | i < |steps| ensures i in known' <==> after[i] == 0 {
      if before[i] == 0 {
        DoneStaysDone(steps, ord, v, before, after, i);
      }
      assert i in known' <==> i in known || i in ready;
    }
    forall a, b | 0 <= a < b < |known'| ensures known'[a] != known'[b] {
      if a < |known| <= b {
        assert known'[a] in known && known'[b] in ready;
      }
    }
  }

  lemma TurnDeps(steps: seq<Step>, ord: seq<nat>, v: nat, rest: seq<nat>, ready: seq<nat>, before: seq<nat>,
      after: seq<nat>)
    requires Turn(steps, ord, v, rest, ready, before, after)
    ensures DepsBefore(steps, ord + [v])
  {
    var next := ord + [v];
    assert (ord + ([v] + rest))[|ord|] == v;
    forall k, j: nat | 0 <= k < |next| && Dep(steps, next[k], j) ensures j in next[..k] {
      if k < |ord| {
        assert next[..k] == ord[..k] && next[k] == ord[k];
      } else {
        assert next[..k] == ord;
        ReadyMeansDone(steps, ord, before, v, j);
      }
    }
  }

  lemma VNotListed(ord: seq<nat>, v: nat, rest: seq<nat>)
    requires Distinct(ord + ([v] + rest))
    ensures v !in ord
  {
    var held := ord + ([v] + rest);
    assert held[|ord|] == v;
    assert forall k :: 0 <= k < |ord| ==> held[k] == ord[k];
  }

  lemma TurnLastDep(steps: seq<Step>, ord: seq<nat>, v: nat, rest: seq<nat>, ready: seq<nat>, before: seq<nat>,
      after: seq<nat>, x: nat)
    requires Turn(steps, ord, v, rest, ready, before, after)
    ensures x in ord + ([v] + rest) ==> LastDep(steps, ord + [v], x) == LastDep(steps, ord, x) < |ord|
    ensures x in ready ==> LastDep(steps, ord + [v], x) == |ord|
  {
    LastDepAppend(steps, ord, v, x);
    VNotListed(ord, v, rest);
    if x in ord + ([v] + rest) && Dep(steps, x, v) {
      ReadyMeansDone(steps, ord, before, x, v);
    }
    if x in ready {
      ReleasedByLast(steps, ord, v, before, after, x);
    }
  }

  lemma FifoAppend(steps: seq<Step>, ord: seq<nat>, next: seq<nat>, held: seq<nat>, ready: seq<nat>)
    requires Fifo(steps, ord, held) && Distinct(ready) && Ascending(ready)
    requires forall x :: x in held ==> LastDep(steps, next, x) == LastDep(steps, ord, x) < |ord|
    requires forall x :: x in ready ==> LastDep(steps, next, x) == |ord|
    ensures Fifo(steps, next, held + ready)
  {
    var rel := held + ready;
    forall k, l | 0 <= k < l < |rel| ensures ReleasedFirst(steps, next, rel[k], rel[l]) {
      if l < |held| {
        assert ReleasedFirst(steps, ord, held[k], held[l]);
      } else {
        assert rel[l] == ready[l - |held|] && (k >= |held| ==> rel[k] == ready[k - |held|]);
        assert k < |held| ==> rel[k] in held;
      }
    }
  }

  lemma TurnFifo(steps: seq<Step>, ord: seq<nat>, v: nat, rest: seq<nat>, ready: seq<nat>, before: seq<nat>,
      after: seq<nat>)
    requires Turn(steps, ord, v, rest, ready, before, after)
    ensures Fifo(steps, ord + [v], ord + ([v] + rest) + ready)
  {
    forall x | x in ord + ([v] + rest) || x in ready {
      TurnLastDep(steps, ord, v, rest, ready, before, after, x);
    }
    FifoAppend(steps, ord, ord + [v], ord + ([v] + rest), ready);
  }

  lemma TurnKeepsState(steps: seq<Step>, ord: seq<nat>, v: nat, rest: seq<nat>, ready: seq<nat>, before: seq<nat>,
      after: seq<nat>)
    requires Turn(steps, ord, v, rest, ready, before, after)
    ensures KahnState(steps, ord + [v], rest + ready, after)
  {
    TurnMembers(steps, ord, v, rest, ready, before, after);
    TurnDeps(steps, ord, v, rest, ready, before, after);
    TurnFifo(steps, ord, v, rest, ready, before, after);
  }

  lemma SortKeeps(s: seq<nat>, t: seq<nat>, n: nat)
    requires multiset(s) == multiset(t) && Distinct(s) && Below(s, n)
    ensures Distinct(t) && Below(t, n) && forall c :: c in t <==> c in s
  {
    DistinctCounts(s);
    DistinctCounts(t);
    forall c ensures c in t <==> c in s {
      assert c in t <==> c in multiset(t);
    }
    forall k | 0 <= k < |t| ensures t[k] < n {
      assert t[k] in s;
    }
  }

  /** The roots, by position. */
  method Roots(steps: seq<Step>, indegree: array<nat>) returns (queue: seq<nat>)
    requires Counted(steps, [], indegree[..])
    ensures KahnState(steps, [], queue, indegree[..])
  {
    queue := [];
    for i := 0 to indegree.Length
      invariant Below(queue, i)
      invariant forall a, b :: 0 <= a < b < |queue| ==> queue[a] < queue[b]
      invariant forall x: nat :: x in queue <==> x < i && indegree[x] == 0
    {
      if indegree[i] == 0 {
        queue := queue + [i];
      }
    }
    RootsStart(steps, queue, indegree[..]);
  }

  lemma RootsStart(steps: seq<Step>, queue: seq<nat>, indegree: seq<nat>)
    requires Counted(steps, [], indegree) && Below(queue, |steps|)
    requires forall a, b :: 0 <= a < b < |queue| ==> queue[a] < queue[b]
    requires forall x: nat :: x in queue <==> x < |steps| && indegree[x] == 0
    ensures KahnState(steps, [], queue, indegree)
  {
    assert [] + queue == queue;
  }

  /** The queue loop. */
  method Drain(steps: seq<Step>, indegree: array<nat>, children: array<seq<nat>>)
    returns (order: seq<string>, ghost ord: seq<nat>)
    requires UniqueIds(steps) && indegree.Length == |steps|
    requires Counted(steps, [], indegree[..]) && Linked(steps, children[..])
    modifies indegree
    ensures KahnState(steps, ord, [], indegree[..]) && order == IdsOf(steps, ord)
  {
    var queue := Roots(steps, indegree);
    order, ord := [], [];
    while queue != []
      invariant KahnState(steps, ord, queue, indegree[..])
      invariant order == IdsOf(steps, ord)
      decreases |steps| - |ord|
    {
      ghost var before := indegree[..];
      var v, rest := queue[0], queue[1..];
      assert queue == [v] + rest;
      DistinctBelow(ord + queue, |steps|);
      VNotListed(ord, v, rest);
      assert v in ord + queue;
      order := order + [steps[v].id];
      var released := Release(steps, ord, v, children[v], indegree);
      var ready := SortUnstable(released);
      SortKeeps(released, ready, |steps|);
      TurnKeepsState(steps, ord, v, rest, ready, before, indegree[..]);
      queue := rest + ready;
      ord := ord + [v];
    }
  }

  // ---------------------------------------------------------------- when the queue runs dry

  /** The loop left out exactly the stuck steps. */
  lemma LeftOutIsStuck(steps: seq<Step>, ord: seq<nat>, indegree: seq<nat>, i: nat)
    requires UniqueIds(steps) && NoStepProblem(steps) && KahnState(steps, ord, [], indegree) && i < |steps|
    ensures Stuck(steps, i) <==> indegree[i] > 0
  {
    assert ord + [] == ord;
    if indegree[i] > 0 {
      var left := set x: nat | x < |steps| && indegree[x] > 0;
      forall x | x in left ensures WaitsIn(steps, x, left) {
        LeftOutWaits(steps, ord, indegree, x, left);
      }
      ClosedSetIsStuck(steps, left, i);
    } else {
      assert i in ord;
      var k :| 0 <= k < |ord| && ord[k] == i;
      ListedIsNotStuck(steps, ord, k);
    }
  }

  lemma LeftOutWaits(steps: seq<Step>, ord: seq<nat>, indegree: seq<nat>, x: nat, left: set<nat>)
    requires UniqueIds(steps) && NoStepProblem(steps) && KahnState(steps, ord, [], indegree)
    requires left == set y: nat | y < |steps| && indegree[y] > 0
    requires x in left
    ensures WaitsIn(steps, x, left)
  {
    assert ord + [] == ord;
    RemainingZero(steps[x].dependsOn, DoneIds(steps, ord));
    var d :| d in steps[x].dependsOn && d !in DoneIds(steps, ord);
    AllKnown(StepIds(steps), steps[x]);
    var y: nat :| y < |steps| && steps[y].id == d;
    assert y !in ord;
    assert y in left && Dep(steps, x, y);
  }

  lemma CompleteMeansAcyclic(steps: seq<Step>, ord: seq<nat>, indegree: seq<nat>)
    requires UniqueIds(steps) && NoStepProblem(steps) && KahnState(steps, ord, [], indegree)
    ensures |ord| == |steps| <==> Acyclic(steps)
    ensures |ord| == |steps| ==> KahnOrder(steps, ord)
  {
    assert ord + [] == ord;
    DistinctBelow(ord, |steps|);
    if |ord| == |steps| {
      forall i: nat | i < |steps| ensures !OnCycle(steps, i) {
        assert i in ord;
        LeftOutIsStuck(steps, ord, indegree, i);
        assert OnCycle(steps, i) ==> Stuck(steps, i);
      }
    } else {
      var i: nat :| i < |steps| && i !in ord;
      LeftOutIsStuck(steps, ord, indegree, i);
      StuckHoldsACycle(steps, i);
    }
  }

  // ---------------------------------------------------------------- the sort

  method StuckList(steps: seq<Step>, indegree: array<nat>) returns (stuck: seq<string>)
    requires indegree.Length == |steps|
    requires forall i :: 0 <= i < |steps| ==> (Stuck(steps, i) <==> indegree[i] > 0)
    ensures stuck == StuckIds(steps, |steps|)
  {
    stuck := [];
    for i := 0 to |steps|
      invariant stuck == StuckIds(steps, i)
    {
      if indegree[i] > 0 {
        stuck := stuck + [steps[i].id];
      }
    }
  }

  /** The sort: an order of all steps, or the stuck ones. */
  method Sort(steps: seq<Step>) returns (r: Result<seq<string>, PipelineError>)
    requires UniqueIds(steps) && NoStepProblem(steps)
    ensures !Acyclic(steps) ==> r == Failure(Cycle(StuckIds(steps, |steps|)))
    ensures Acyclic(steps) ==> exists ord :: KahnOrder(steps, ord) && r == Success(IdsOf(steps, ord))
  {
    forall i | 0 <= i < |steps| ensures KnownDeps(steps, i) {
      AllKnown(StepIds(steps), steps[i]);
    }
    var index := IndexIds(steps);
    var indegree, children := BuildGraph(steps, index);
    var order, ord := Drain(steps, indegree, children);
    CompleteMeansAcyclic(steps, ord, indegree[..]);
    if |order| != |steps| {
      forall i | 0 <= i < |steps| {
        LeftOutIsStuck(steps, ord, indegree[..], i);
      }
      var stuck := StuckList(steps, indegree);
      r := Failure(Cycle(stuck));
    } else {
      r := Success(order);
    }
  }
}
