/** Runs of a system that is given by its steps: what an action makes of a state, None when it cannot
    be taken there. */
module Runs {
  import opened Wrappers

  /** The actions lead from `w` to `w'`. */
  ghost predicate Leads<W, A>(step: (W, A) -> Option<W>, w: W, acts: seq<A>, w': W)
    decreases |acts|
  {
    if acts == [] then w == w'
    else step(w, acts[0]).Some? && Leads(step, step(w, acts[0]).value, acts[1..], w')
  }

  lemma {:induction false} LeadsJoin<W, A>(step: (W, A) -> Option<W>, w: W, a: seq<A>, m: W, b: seq<A>, w': W)
    requires Leads(step, w, a, m) && Leads(step, m, b, w')
    ensures Leads(step, w, a + b, w')
    decreases |a|
  {
    if a == [] {
      assert a + b == b;
    } else {
      LeadsJoin(step, step(w, a[0]).value, a[1..], m, b, w');
      assert (a + b)[1..] == a[1..] + b;
    }
  }

  lemma LeadsOne<W, A>(step: (W, A) -> Option<W>, w: W, a: A)
    requires step(w, a).Some?
    ensures Leads(step, w, [a], step(w, a).value)
  {
    assert [a][1..] == [];
    assert Leads(step, step(w, a).value, [], step(w, a).value);
  }

  /** One action more. */
  lemma Further<W, A>(step: (W, A) -> Option<W>, w: W, acts: seq<A>, m: W, a: A) returns (acts': seq<A>, w': W)
    requires Leads(step, w, acts, m) && step(m, a).Some?
    ensures acts' == acts + [a] && Some(w') == step(m, a) && Leads(step, w, acts', w')
  {
    acts', w' := acts + [a], step(m, a).value;
    LeadsOne(step, m, a);
    LeadsJoin(step, w, acts, m, [a], w');
  }
}
