/** The documents of an output told by the positions of its parts. */
module Documents {
  import opened Wrappers
  import opened PluginData

  /** The part at a position: which branch, which branch of that, and so on. */
  function At(o: PluginOutput, path: seq<nat>): Option<PluginOutput>
    decreases |path|
  {
    if path == [] then Some(o)
    else if o.Many? && path[0] < |o.outs| then At(o.outs[path[0]], path[1..])
    else None
  }

  /** At this position there are bytes, or a reference. */
  ghost predicate RefusesAt(o: PluginOutput, path: seq<nat>) {
    At(o, path).Some? && (At(o, path).value.BytesOut? || At(o, path).value.RefOut?)
  }

  ghost predicate RefusesIn(outs: seq<PluginOutput>, k: nat, path: seq<nat>) {
    k < |outs| && RefusesAt(outs[k], path)
  }

  /** Flattening is refused if and only if there are bytes or a reference at some depth. */
  lemma {:induction false} RefusedExactly(o: PluginOutput)
    ensures Docs(o).Failure? <==> exists path :: RefusesAt(o, path)
    decreases o, 1
  {
    if o.Many? {
      RefusedAllExactly(o.outs);
      if path :| RefusesAt(o, path) {
        assert RefusesIn(o.outs, path[0], path[1..]);
      }
      if k, path :| RefusesIn(o.outs, k, path) {
        assert ([k] + path)[1..] == path;
        assert RefusesAt(o, [k] + path);
      }
    } else {
      assert At(o, []) == Some(o);
      assert o.BytesOut? || o.RefOut? ==> RefusesAt(o, []);
      assert forall path :: RefusesAt(o, path) ==> path == [];
    }
  }

  lemma {:induction false} RefusedAllExactly(outs: seq<PluginOutput>)
    ensures DocsOfAll(outs).Failure? <==> exists k: nat, path :: RefusesIn(outs, k, path)
    decreases outs, 0
  {
    if outs != [] {
      RefusedExactly(outs[0]);
      RefusedAllExactly(outs[1..]);
      if path :| RefusesAt(outs[0], path) {
        assert RefusesIn(outs, 0, path);
      }
      if k: nat, path :| RefusesIn(outs[1..], k, path) {
        assert RefusesIn(outs, k + 1, path);
      }
      if k: nat, path :| RefusesIn(outs, k, path) {
        assert k > 0 ==> RefusesIn(outs[1..], k - 1, path);
      }
    }
  }

  /** How many documents the parts hold. */
  function Count(o: PluginOutput): nat
    decreases o, 1
  {
    match o
    case DocumentsOut(d) => |d|
    case Many(m) => CountAll(m)
    case _ => 0
  }

  function CountAll(outs: seq<PluginOutput>): nat
    decreases outs, 0
  {
    if outs == [] then 0 else Count(outs[0]) + CountAll(outs[1..])
  }

  /** How many documents the parts before a position hold. */
  function Before(o: PluginOutput, path: seq<nat>): nat
    requires At(o, path).Some?
    decreases |path|
  {
    if path == [] then 0 else CountAll(o.outs[..path[0]]) + Before(o.outs[path[0]], path[1..])
  }

  lemma {:induction false} CountIs(o: PluginOutput)
    requires Docs(o).Success?
    ensures |Docs(o).value| == Count(o)
    decreases o, 1
  {
    if o.Many? {
      CountAllIs(o.outs);
    }
  }

  lemma {:induction false} CountAllIs(outs: seq<PluginOutput>)
    requires DocsOfAll(outs).Success?
    ensures |DocsOfAll(outs).value| == CountAll(outs)
    decreases outs, 0
  {
    if outs != [] {
      CountIs(outs[0]);
      CountAllIs(outs[1..]);
    }
  }

  /** Part `k` of a fan-out has its documents after those of the parts before it. */
  lemma PartInPlace(outs: seq<PluginOutput>, k: nat)
    requires DocsOfAll(outs).Success? && k < |outs|
    ensures Docs(outs[k]).Success?
    ensures var v, part := DocsOfAll(outs).value, Docs(outs[k]).value;
            var from := CountAll(outs[..k]);
            from + |part| <= |v| && v[from..from + |part|] == part
  {
    var head, tail := outs[..k], outs[k..];
    assert outs == head + tail && tail[0] == outs[k];
    DocsOfConcat(head, tail);
    CountAllIs(head);
    var a, b, c := DocsOfAll(head).value, Docs(tail[0]).value, DocsOfAll(tail[1..]).value;
    assert DocsOfAll(outs).value == a + (b + c);
  }

  lemma SliceOfSlice<T>(v: seq<T>, a: nat, m: nat, b: nat, n: nat)
    requires a + m <= |v| && b + n <= m
    ensures v[a..a + m][b..b + n] == v[a + b..a + b + n]
  {
    var l, r := v[a..a + m][b..b + n], v[a + b..a + b + n];
    forall k | 0 <= k < n ensures l[k] == r[k] {
      assert l[k] == v[a..a + m][b + k] == v[a + (b + k)];
    }
  }

  /** A list of documents at some position comes, whole and in order, after the documents of the parts
      before that position. */
  lemma {:induction false} LeafInPlace(o: PluginOutput, path: seq<nat>)
    requires Docs(o).Success? && At(o, path).Some? && At(o, path).value.DocumentsOut?
    ensures var v, d := Docs(o).value, At(o, path).value.docs;
            Before(o, path) + |d| <= |v| && v[Before(o, path)..Before(o, path) + |d|] == d
    decreases |path|
  {
    if path != [] {
      var k := path[0];
      PartInPlace(o.outs, k);
      LeafInPlace(o.outs[k], path[1..]);
      var v, part, d := Docs(o).value, Docs(o.outs[k]).value, At(o, path).value.docs;
      var from, within := CountAll(o.outs[..k]), Before(o.outs[k], path[1..]);
      SliceOfSlice(v, from, |part|, within, |d|);
    }
  }

  /** Each document of the result is one of such a list. */
  lemma {:induction false} EachDocHasALeaf(o: PluginOutput, n: nat) returns (path: seq<nat>, k: nat)
    requires Docs(o).Success? && n < |Docs(o).value|
    ensures At(o, path).Some? && At(o, path).value.DocumentsOut?
    ensures k < |At(o, path).value.docs| && n == Before(o, path) + k
    ensures Docs(o).value[n] == At(o, path).value.docs[k]
    decreases o, 1
  {
    if o.DocumentsOut? {
      path, k := [], n;
    } else {
      var i, rest, j := EachDocHasAPart(o.outs, n);
      path, k := [i] + rest, j;
      assert path[1..] == rest;
      LeafInPlace(o, path);
    }
  }

  lemma {:induction false} EachDocHasAPart(outs: seq<PluginOutput>, n: nat) returns (i: nat, path: seq<nat>, k: nat)
    requires DocsOfAll(outs).Success? && n < |DocsOfAll(outs).value|
    ensures i < |outs| && At(outs[i], path).Some? && At(outs[i], path).value.DocumentsOut?
    ensures k < |At(outs[i], path).value.docs| && n == CountAll(outs[..i]) + Before(outs[i], path) + k
    decreases outs, 0
  {
    CountIs(outs[0]);
    if n < Count(outs[0]) {
      i := 0;
      path, k := EachDocHasALeaf(outs[0], n);
    } else {
      var j;
      j, path, k := EachDocHasAPart(outs[1..], n - Count(outs[0]));
      i := j + 1;
      assert outs[..i][1..] == outs[1..][..j];
    }
  }

  /** An input has the documents of the output it stands for: its own list, those of its branches, none,
      or it is refused. */
  lemma InputDocsExactly(i: PluginInput)
    ensures InputDocs(i).Failure?
       <==> i.BytesIn? || i.RefIn? || (i.ManyIn? && exists path :: RefusesAt(Many(i.outs), path))
    ensures i.DocumentsIn? ==> InputDocs(i) == Success(i.docs)
    ensures i.EmptyIn? ==> InputDocs(i) == Success([])
    ensures i.ManyIn? ==> InputDocs(i) == Docs(Many(i.outs))
  {
    if i.ManyIn? {
      RefusedExactly(Many(i.outs));
    }
  }
}
