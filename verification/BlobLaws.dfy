/** What a staged reference reads as, and which failure reading back ends in, told by names and trails. */
module BlobLaws {
  import opened Wrappers
  import opened Text
  import opened PluginData
  import opened BlobStore
  import opened BlobTermination

  // ---------------------------------------------------------------- names

  predicate AllSlashes(s: string) {
    forall k :: 0 <= k < |s| ==> s[k] == '/'
  }

  /** `name` is the last component of the path: only slashes follow, and none is in it. */
  predicate LastNamed(path: string, dir: string, name: string, tail: string) {
    && path == dir + name + tail && name != "" && '/' !in name && AllSlashes(tail)
    && (dir == "" || dir[|dir| - 1] == '/')
  }

  lemma {:induction false} LastSegmentIs(path: string, dir: string, name: string, tail: string)
    requires LastNamed(path, dir, name, tail)
    ensures LastSegment(path) == Some(name)
    decreases |tail|
  {
    if tail == "" {
      assert path == dir + name;
      assert forall k :: |dir| <= k < |path| ==> path[k] == name[k - |dir|];
      assert dir != "" ==> path[|dir| - 1] == '/';
      assert LastIndex(path, '/') == |dir| - 1;
      assert path[|dir|..] == name;
      LastPart(path);
    } else {
      var init := path[..|path| - 1];
      assert path[|path| - 1] == tail[|tail| - 1];
      assert init == dir + name + tail[..|tail| - 1];
      LastSegmentIs(init, dir, name, tail[..|tail| - 1]);
      SlashDropped(path);
    }
  }

  /** The last of the parts is what follows the last slash. */
  lemma LastPart(path: string)
    ensures var parts := Split(path, '/'); parts[|parts| - 1] == path[LastIndex(path, '/') + 1..]
  {
    if LastIndex(path, '/') < 0 {
      assert path[0..] == path;
    }
  }

  lemma SlashDropped(path: string)
    requires path != "" && path[|path| - 1] == '/'
    ensures LastSegment(path) == LastSegment(path[..|path| - 1])
  {
    var init := path[..|path| - 1];
    assert LastIndex(path, '/') == |path| - 1;
    assert path[|path|..] == "";
    var parts := Split(path, '/');
    assert parts == Split(init, '/') + [""];
    assert parts[..|parts| - 1] == Split(init, '/');
  }

  lemma {:induction false} NoSegment(path: string)
    requires AllSlashes(path)
    ensures LastSegment(path) == None
    decreases |path|
  {
    if path == "" {
      assert Split(path, '/') == [""];
      assert [""][..0] == [];
    } else {
      NoSegment(path[..|path| - 1]);
      SlashDropped(path);
    }
  }

  /** Uploads go to the job's input folder, under the last name of their filename, or "upload.bin". */
  lemma UploadKeyExactly(job: string, filename: Option<string>, dir: string, name: string, tail: string)
    ensures filename.Some? && LastNamed(filename.value, dir, name, tail) ==>
              UploadKey(job, filename) == "jobs/" + job + "/" + ("input/" + name)
    ensures filename == None || AllSlashes(filename.value) ==>
              UploadKey(job, filename) == "jobs/" + job + "/" + ("input/" + "upload.bin")
  {
    if filename.Some? && LastNamed(filename.value, dir, name, tail) {
      LastSegmentIs(filename.value, dir, name, tail);
    }
    if filename.Some? && AllSlashes(filename.value) {
      NoSegment(filename.value);
    }
  }

  // ---------------------------------------------------------------- fetching

  /** A staged reference reads as the stored bytes. Its name is the one it carries, else the last name of
      its key; its type the one it carries, else what the name suggests, else bytes of any kind. */
  lemma StagedExactly(objs: Objects, out: Outside, uri: string, mime: Option<string>, filename: Option<string>,
      dir: string, last: string, tail: string)
    requires LastNamed(uri, dir, last, tail)
    ensures var name := if filename.Some? then filename.value else last;
            var b := Fetched(objs, out, Staged(uri, mime, filename));
            && (uri !in objs ==> b == Failure(NotFound(uri)))
            && (uri in objs ==> b.Success? && b.value.data == objs[uri] && b.value.filename == Some(name))
            && (uri in objs && mime.Some? ==> b.value.mime == mime.value)
            && (uri in objs && mime == None && out.guessMime(name).Some? ==> b.value.mime == out.guessMime(name).value)
            && (uri in objs && mime == None && out.guessMime(name) == None ==>
                  b.value.mime == "application/octet-stream")
  {
    LastSegmentIs(uri, dir, last, tail);
  }

  /** A fan-out is fetched part by part: each in its place, or the first that fails. */
  lemma {:induction false} FetchedInPlace(objs: Objects, out: Outside, outs: seq<PluginOutput>, v: seq<PluginOutput>,
      e: BlobError)
    ensures FetchedEach(objs, out, outs) == Success(v)
       <==> |v| == |outs| && forall i :: 0 <= i < |outs| ==> FetchedAll(objs, out, outs[i]) == Success(v[i])
    ensures FetchedEach(objs, out, outs) == Failure(e) <==> FirstFails(objs, out, outs, e)
    decreases |outs|
  {
    if outs != [] {
      var rest := outs[1..];
      var h := FetchedAll(objs, out, outs[0]);
      FetchedInPlace(objs, out, rest, if v == [] then [] else v[1..], e);
      FirstFailsNext(objs, out, outs, e);
      if |v| == |outs| {
        assert v == [v[0]] + v[1..];
        assert (forall i :: 0 <= i < |outs| ==> FetchedAll(objs, out, outs[i]) == Success(v[i])) ==>
          forall i :: 0 <= i < |rest| ==> FetchedAll(objs, out, rest[i]) == Success(v[1..][i]);
      }
      if FetchedEach(objs, out, outs) == Success(v) {
        assert v == [h.value] + v[1..];
        forall i | 0 <= i < |outs| ensures FetchedAll(objs, out, outs[i]) == Success(v[i]) {
          assert i > 0 ==> FetchedAll(objs, out, rest[i - 1]) == Success(v[1..][i - 1]);
        }
      }
    }
  }

  ghost predicate FirstFails(objs: Objects, out: Outside, outs: seq<PluginOutput>, e: BlobError) {
    exists i :: 0 <= i < |outs| && FetchedAll(objs, out, outs[i]) == Failure(e)
      && forall j :: 0 <= j < i ==> FetchedAll(objs, out, outs[j]).Success?
  }

  lemma FirstFailsNext(objs: Objects, out: Outside, outs: seq<PluginOutput>, e: BlobError)
    requires outs != []
    ensures FirstFails(objs, out, outs, e)
       <==> || FetchedAll(objs, out, outs[0]) == Failure(e)
            || (FetchedAll(objs, out, outs[0]).Success? && FirstFails(objs, out, outs[1..], e))
  {
    var rest := outs[1..];
    if i :| 0 <= i < |outs| && FetchedAll(objs, out, outs[i]) == Failure(e)
            && forall j :: 0 <= j < i ==> FetchedAll(objs, out, outs[j]).Success? {
      if i > 0 {
        assert rest[i - 1] == outs[i];
        assert forall j :: 0 <= j < i - 1 ==> rest[j] == outs[j + 1];
      }
    }
    if FetchedAll(objs, out, outs[0]).Success? && FirstFails(objs, out, rest, e) {
      var i :| 0 <= i < |rest| && FetchedAll(objs, out, rest[i]) == Failure(e)
               && forall j :: 0 <= j < i ==> FetchedAll(objs, out, rest[j]).Success?;
      assert outs[i + 1] == rest[i];
      assert forall j :: 0 < j < i + 1 ==> outs[j] == rest[j - 1];
    }
  }

  // ---------------------------------------------------------------- which failure

  /** Nothing is stored at the key, or something that is no output. */
  ghost predicate Bad(c: Codec, objs: Objects, key: string) {
    key !in objs || c.decode(objs[key]) == None
  }

  function Fault(objs: Objects, key: string): BlobError {
    if key in objs then Json else NotFound(key)
  }

  /** Reading ends in failure exactly when some trail leads to a bad key, and the failure is that key's. */
  lemma FailureExactly(c: Codec, objs: Objects, hops: nat, o: PluginOutput)
    requires Hydration(c, objs, hops, o).Some?
    ensures Hydration(c, objs, hops, o).value.Failure?
       <==> exists ks :: Trail(c, objs, o, ks) && Bad(c, objs, ks[|ks| - 1])
    ensures forall ks :: Trail(c, objs, o, ks) && Bad(c, objs, ks[|ks| - 1]) ==>
              Hydration(c, objs, hops, o) == Some(Failure(Fault(objs, ks[|ks| - 1])))
  {
    if Hydration(c, objs, hops, o).value.Failure? {
      var ks := FailureHasATrail(c, objs, hops, o);
    }
    forall ks | Trail(c, objs, o, ks) && Bad(c, objs, ks[|ks| - 1])
      ensures Hydration(c, objs, hops, o) == Some(Failure(Fault(objs, ks[|ks| - 1])))
    {
      TrailFails(c, objs, hops, o, ks);
    }
  }

  /** What is looked at and is bad, or holds what fails, makes the output fail the same way. */
  lemma {:induction false} VisitFails(c: Codec, objs: Objects, hops: nat, o: PluginOutput, key: string, e: BlobError)
    requires Hydration(c, objs, hops, o).Some? && Visits(c, objs, o, key)
    requires if Bad(c, objs, key) then e == Fault(objs, key)
             else hops > 0 && Hydration(c, objs, hops - 1, c.decode(objs[key]).value) == Some(Failure(e))
    ensures Hydration(c, objs, hops, o) == Some(Failure(e))
    decreases o, 1
  {
    if !IsSpilled(o) {
      VisitOfAllFails(c, objs, hops, o.outs, key, e);
    }
  }

  lemma {:induction false} VisitOfAllFails(c: Codec, objs: Objects, hops: nat, outs: seq<PluginOutput>, key: string,
      e: BlobError)
    requires HydrationAll(c, objs, hops, outs).Some? && VisitsAny(c, objs, outs, key)
    requires if Bad(c, objs, key) then e == Fault(objs, key)
             else hops > 0 && Hydration(c, objs, hops - 1, c.decode(objs[key]).value) == Some(Failure(e))
    ensures HydrationAll(c, objs, hops, outs) == Some(Failure(e))
    decreases outs, 0
  {
    if Visits(c, objs, outs[0], key) {
      VisitFails(c, objs, hops, outs[0], key, e);
    } else {
      var n: nat :| Hydration(c, objs, n, outs[0]).Some? && Hydration(c, objs, n, outs[0]).value.Success?;
      OneOutcome(c, objs, n, hops, outs[0]);
      VisitOfAllFails(c, objs, hops, outs[1..], key, e);
    }
  }

  lemma {:induction false} TrailFails(c: Codec, objs: Objects, hops: nat, o: PluginOutput, ks: seq<string>)
    requires Hydration(c, objs, hops, o).Some? && Trail(c, objs, o, ks) && Bad(c, objs, ks[|ks| - 1])
    ensures Hydration(c, objs, hops, o) == Some(Failure(Fault(objs, ks[|ks| - 1])))
    decreases |ks|
  {
    if |ks| > 1 {
      TrailTakesHops(c, objs, hops, o, ks, 0);
      TrailPart(c, objs, o, ks, 0, |ks| - 1);
      var inner, rest := c.decode(objs[ks[0]]).value, ks[1..|ks|];
      TrailFails(c, objs, hops - 1, inner, rest);
    }
    VisitFails(c, objs, hops, o, ks[0], Fault(objs, ks[|ks| - 1]));
  }

  lemma {:induction false} FailureHasATrail(c: Codec, objs: Objects, hops: nat, o: PluginOutput)
      returns (ks: seq<string>)
    requires Hydration(c, objs, hops, o).Some? && Hydration(c, objs, hops, o).value.Failure?
    ensures Trail(c, objs, o, ks) && Bad(c, objs, ks[|ks| - 1])
    decreases hops, o, 1
  {
    if IsSpilled(o) {
      var key := o.ref.uri;
      if Bad(c, objs, key) {
        ks := [key];
      } else {
        var rest := FailureHasATrail(c, objs, hops - 1, c.decode(objs[key]).value);
        ks := [key] + rest;
        TrailFrom(c, objs, o, key, rest);
      }
    } else {
      ks := FailureOfAllHasATrail(c, objs, hops, o.outs);
      TrailOfAll(c, objs, o, ks);
    }
  }

  /** A trail read off a fan-out. */
  ghost predicate TrailAny(c: Codec, objs: Objects, outs: seq<PluginOutput>, ks: seq<string>) {
    |ks| > 0 && VisitsAny(c, objs, outs, ks[0]) && HopsOn(c, objs, ks)
  }

  ghost predicate HopsOn(c: Codec, objs: Objects, ks: seq<string>) {
    forall i, j {:trigger Hop(c, objs, ks[i], ks[j])} :: 0 <= i < |ks| && j == i + 1 && j < |ks| ==>
      Hop(c, objs, ks[i], ks[j])
  }

  lemma TrailOfAll(c: Codec, objs: Objects, o: PluginOutput, ks: seq<string>)
    requires !IsSpilled(o) && o.Many? && TrailAny(c, objs, o.outs, ks)
    ensures Trail(c, objs, o, ks)
  {
  }

  lemma TrailFrom(c: Codec, objs: Objects, o: PluginOutput, key: string, rest: seq<string>)
    requires Visits(c, objs, o, key) && key in objs && c.decode(objs[key]).Some?
    requires Trail(c, objs, c.decode(objs[key]).value, rest)
    ensures Trail(c, objs, o, [key] + rest)
  {
    var ks := [key] + rest;
    forall i, j | 0 <= i < |ks| && j == i + 1 && j < |ks| ensures Hop(c, objs, ks[i], ks[j]) {
      if i > 0 {
        assert Hop(c, objs, rest[i - 1], rest[j - 1]);
      }
    }
  }

  lemma {:induction false} FailureOfAllHasATrail(c: Codec, objs: Objects, hops: nat, outs: seq<PluginOutput>)
    returns (ks: seq<string>)
    requires HydrationAll(c, objs, hops, outs).Some? && HydrationAll(c, objs, hops, outs).value.Failure?
    ensures TrailAny(c, objs, outs, ks) && Bad(c, objs, ks[|ks| - 1])
    decreases hops, outs, 0
  {
    if Hydration(c, objs, hops, outs[0]).value.Failure? {
      ks := FailureHasATrail(c, objs, hops, outs[0]);
    } else {
      ks := FailureOfAllHasATrail(c, objs, hops, outs[1..]);
      assert Succeeds(c, objs, outs[0]);
    }
  }

  // ---------------------------------------------------------------- sizes

  /** The size that decides on spilling: bytes by a third more, documents by their texts and 256 for each,
      a fan-out by its parts. */
  lemma SizeOfBytes(b: Blob)
    ensures 3 * ApproxSize(BytesOut(b)) <= 4 * |b.data| < 3 * ApproxSize(BytesOut(b)) + 3
  {
  }

  lemma SizeOfOthers(r: ContentRef, report: IndexReport)
    ensures ApproxSize(RefOut(r)) == 256 && ApproxSize(Indexed(report)) == 128 && ApproxSize(EmptyOut) == 8
  {
  }

  lemma {:induction false} SizeOfDocuments(docs: seq<Document>, d: Document)
    ensures var title := if d.title.Some? then d.title.value else "";
            var texts := d.id + title + d.content + d.fields;
            ApproxSize(DocumentsOut(docs + [d])) == ApproxSize(DocumentsOut(docs)) + |texts| + 256
    ensures ApproxSize(DocumentsOut([])) == 0
    decreases |docs|
  {
    if docs == [] {
      assert docs + [d] == [d] && [d][1..] == [];
    } else {
      assert (docs + [d])[1..] == docs[1..] + [d];
      SizeOfDocuments(docs[1..], d);
    }
  }

  lemma {:induction false} SizeOfFanOut(outs: seq<PluginOutput>, o: PluginOutput)
    ensures ApproxSize(Many(outs + [o])) == ApproxSize(Many(outs)) + ApproxSize(o)
    ensures ApproxSize(Many([])) == 0
    decreases |outs|
  {
    if outs == [] {
      assert outs + [o] == [o] && [o][1..] == [];
    } else {
      assert (outs + [o])[1..] == outs[1..] + [o];
      SizeOfFanOut(outs[1..], o);
    }
  }
}
