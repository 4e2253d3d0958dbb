/** The blob store: oversized step outputs are replaced by references and read back, and uploads
    are staged. */
module BlobStore {
  import opened Wrappers
  import opened Text
  import opened PluginData

  const SPILLED_OUTPUT_MIME := "application/vnd.meili-ingest.output+json"
  const OCTET_STREAM := "application/octet-stream"

  datatype BlobError = NotFound(key: string) | Json | Fetch(message: string)

  type Objects = map<string, Bytes>

  /** The JSON form of outputs. */
  datatype Codec = Codec(encode: PluginOutput -> Bytes, decode: Bytes -> Option<PluginOutput>)

  ghost predicate Lossless(c: Codec) {
    forall o :: c.decode(c.encode(o)) == Some(o)
  }

  /** Fetching a URL or an object of another store, and guessing a type from a name. */
  datatype Outside = Outside(fetch: ContentRef -> Result<Blob, BlobError>, guessMime: string -> Option<string>)

  // ---------------------------------------------------------------- keys

  function StagedKey(job: string, name: string): string {
    "jobs/" + job + "/" + name
  }

  function SpillName(step: string, branch: Option<nat>): string {
    match branch
    case Some(b) => step + "-" + Dec(b) + ".json"
    case None => step + ".json"
  }

  /** The last non-empty part between slashes. */
  function LastSegment(path: string): Option<string> {
    LastNonEmpty(Split(path, '/'))
  }

  function LastNonEmpty(parts: seq<string>): Option<string> {
    if parts == [] then None
    else if parts[|parts| - 1] != "" then Some(parts[|parts| - 1])
    else LastNonEmpty(parts[..|parts| - 1])
  }

  // ---------------------------------------------------------------- references

  predicate IsSpilled(o: PluginOutput) {
    o.RefOut? && o.ref.Staged? && o.ref.mime == Some(SPILLED_OUTPUT_MIME)
  }

  function SpilledRef(key: string): PluginOutput {
    RefOut(Staged(key, Some(SPILLED_OUTPUT_MIME), None))
  }

  // ---------------------------------------------------------------- hydration

  /** What an output stands for, spilled references replaced by what they refer to, or the first
      failure on the way. `hops` bounds how far a reference may lead through others; None when that
      is not enough. */
  function Hydration(c: Codec, objs: Objects, hops: nat, o: PluginOutput): Option<Result<PluginOutput, BlobError>>
    decreases hops, o, 1
  {
    if IsSpilled(o) then
      var key := o.ref.uri;
      if key !in objs then Some(Failure(NotFound(key)))
      else
        match c.decode(objs[key])
        case None => Some(Failure(Json))
        case Some(inner) => if hops == 0 then None else Hydration(c, objs, hops - 1, inner)
    else
      match o
      case Many(m) =>
        (match HydrationAll(c, objs, hops, m)
         case None => None
         case Some(Failure(e)) => Some(Failure(e))
         case Some(Success(v)) => Some(Success(Many(v))))
      case _ => Some(Success(o))
  }

  /** Part by part, up to the first that fails. */
  function HydrationAll(c: Codec, objs: Objects, hops: nat, outs: seq<PluginOutput>)
      : Option<Result<seq<PluginOutput>, BlobError>>
    decreases hops, outs, 0
  {
    if outs == [] then Some(Success([]))
    else
      match Hydration(c, objs, hops, outs[0])
      case None => None
      case Some(Failure(e)) => Some(Failure(e))
      case Some(Success(h)) => PrependTo([h], HydrationAll(c, objs, hops, outs[1..]))
  }

  function PrependTo<T, E>(head: seq<T>, r: Option<Result<seq<T>, E>>): Option<Result<seq<T>, E>> {
    match r
    case None => None
    case Some(x) => Some(Prepend(head, x))
  }

  /** Reading `o` back comes to an end. */
  ghost predicate Ends(c: Codec, objs: Objects, o: PluginOutput) {
    exists hops: nat :: Hydration(c, objs, hops, o).Some?
  }

  /** More hops change no outcome. */
  lemma {:induction false} MoreHops(c: Codec, objs: Objects, m: nat, n: nat, o: PluginOutput)
    requires m <= n && Hydration(c, objs, m, o).Some?
    ensures Hydration(c, objs, n, o) == Hydration(c, objs, m, o)
    decreases m, o, 1
  {
    if IsSpilled(o) {
      if o.ref.uri in objs && c.decode(objs[o.ref.uri]).Some? {
        MoreHops(c, objs, m - 1, n - 1, c.decode(objs[o.ref.uri]).value);
      }
    } else if o.Many? {
      MoreHopsAll(c, objs, m, n, o.outs);
    }
  }

  lemma {:induction false} MoreHopsAll(c: Codec, objs: Objects, m: nat, n: nat, outs: seq<PluginOutput>)
    requires m <= n && HydrationAll(c, objs, m, outs).Some?
    ensures HydrationAll(c, objs, n, outs) == HydrationAll(c, objs, m, outs)
    decreases m, outs, 0
  {
    if outs != [] {
      MoreHops(c, objs, m, n, outs[0]);
      if Hydration(c, objs, m, outs[0]).value.Success? {
        MoreHopsAll(c, objs, m, n, outs[1..]);
      }
    }
  }

  /** Reading back has one outcome, however far it may go. */
  lemma OneOutcome(c: Codec, objs: Objects, m: nat, n: nat, o: PluginOutput)
    requires Hydration(c, objs, m, o).Some? && Hydration(c, objs, n, o).Some?
    ensures Hydration(c, objs, m, o) == Hydration(c, objs, n, o)
  {
    if m <= n {
      MoreHops(c, objs, m, n, o);
    } else {
      MoreHops(c, objs, n, m, o);
    }
  }

  /** No spilled reference at any depth. */
  predicate NoSpilled(o: PluginOutput) {
    !IsSpilled(o) && (o.Many? ==> forall x :: x in o.outs ==> NoSpilled(x))
  }

  /** No reference at all, at any depth. */
  predicate NoRef(o: PluginOutput) {
    !o.RefOut? && (o.Many? ==> forall x :: x in o.outs ==> NoRef(x))
  }

  /** Hydrating what holds no spilled reference changes nothing. */
  lemma {:induction false} HydrateUnspilled(c: Codec, objs: Objects, hops: nat, o: PluginOutput)
    requires NoSpilled(o)
    ensures Hydration(c, objs, hops, o) == Some(Success(o))
    decreases o, 1
  {
    if o.Many? {
      HydrateAllUnspilled(c, objs, hops, o.outs);
    }
  }

  lemma {:induction false} HydrateAllUnspilled(c: Codec, objs: Objects, hops: nat, outs: seq<PluginOutput>)
    requires forall x :: x in outs ==> NoSpilled(x)
    ensures HydrationAll(c, objs, hops, outs) == Some(Success(outs))
    decreases outs, 0
  {
    if outs != [] {
      HydrateUnspilled(c, objs, hops, outs[0]);
      HydrateAllUnspilled(c, objs, hops, outs[1..]);
      assert outs == [outs[0]] + outs[1..];
    }
  }

  /** What hydration gives holds no spilled reference; without a hop it gives the output itself. */
  lemma {:induction false} HydrateClears(c: Codec, objs: Objects, hops: nat, o: PluginOutput)
    requires Hydration(c, objs, hops, o).Some? && Hydration(c, objs, hops, o).value.Success?
    ensures NoSpilled(Hydration(c, objs, hops, o).value.value)
    ensures hops == 0 ==> Hydration(c, objs, hops, o).value.value == o
    decreases hops, o, 1
  {
    if IsSpilled(o) {
      HydrateClears(c, objs, hops - 1, c.decode(objs[o.ref.uri]).value);
    } else if o.Many? {
      HydrateAllClears(c, objs, hops, o.outs);
    }
  }

  lemma {:induction false} HydrateAllClears(c: Codec, objs: Objects, hops: nat, outs: seq<PluginOutput>)
    requires HydrationAll(c, objs, hops, outs).Some? && HydrationAll(c, objs, hops, outs).value.Success?
    ensures forall x :: x in HydrationAll(c, objs, hops, outs).value.value ==> NoSpilled(x)
    ensures hops == 0 ==> HydrationAll(c, objs, hops, outs).value.value == outs
    decreases hops, outs, 0
  {
    if outs != [] {
      HydrateClears(c, objs, hops, outs[0]);
      HydrateAllClears(c, objs, hops, outs[1..]);
    }
  }

  /** Hydrating twice is hydrating once. */
  lemma HydrateIdempotent(c: Codec, objs: Objects, hops: nat, o: PluginOutput, again: nat)
    requires Hydration(c, objs, hops, o).Some? && Hydration(c, objs, hops, o).value.Success?
    ensures Hydration(c, objs, again, Hydration(c, objs, hops, o).value.value) == Hydration(c, objs, hops, o)
  {
    HydrateClears(c, objs, hops, o);
    HydrateUnspilled(c, objs, again, Hydration(c, objs, hops, o).value.value);
  }

  /** More objects change no successful hydration. */
  lemma {:induction false} HydrateLater(c: Codec, objs: Objects, objs': Objects, hops: nat, o: PluginOutput)
    requires objs.Items <= objs'.Items
    requires Hydration(c, objs, hops, o).Some? && Hydration(c, objs, hops, o).value.Success?
    ensures Hydration(c, objs', hops, o) == Hydration(c, objs, hops, o)
    decreases hops, o, 1
  {
    if IsSpilled(o) {
      assert (o.ref.uri, objs[o.ref.uri]) in objs.Items;
      HydrateLater(c, objs, objs', hops - 1, c.decode(objs[o.ref.uri]).value);
    } else if o.Many? {
      HydrateAllLater(c, objs, objs', hops, o.outs);
    }
  }

  lemma {:induction false} HydrateAllLater(c: Codec, objs: Objects, objs': Objects, hops: nat, outs: seq<PluginOutput>)
    requires objs.Items <= objs'.Items
    requires HydrationAll(c, objs, hops, outs).Some? && HydrationAll(c, objs, hops, outs).value.Success?
    ensures HydrationAll(c, objs', hops, outs) == HydrationAll(c, objs, hops, outs)
    decreases hops, outs, 0
  {
    if outs != [] {
      HydrateLater(c, objs, objs', hops, outs[0]);
      HydrateAllLater(c, objs, objs', hops, outs[1..]);
    }
  }

  // ---------------------------------------------------------------- resolution

  /** What a staged reference reads as. */
  function FetchStaged(objs: Objects, out: Outside, uri: string, mime: Option<string>,
      filename: Option<string>): Result<Blob, BlobError> {
    if uri !in objs then Failure(NotFound(uri))
    else
      var name := if filename.Some? then filename else LastSegment(uri);
      var guessed := if name.Some? then out.guessMime(name.value) else None;
      var m := if mime.Some? then mime.value else if guessed.Some? then guessed.value else OCTET_STREAM;
      Success(Blob(objs[uri], m, name))
  }

  function Fetched(objs: Objects, out: Outside, r: ContentRef): Result<Blob, BlobError> {
    match r
    case Staged(uri, mime, filename) => FetchStaged(objs, out, uri, mime, filename)
    case _ => out.fetch(r)
  }

  /** References left after hydration are fetched. */
  function FetchedAll(objs: Objects, out: Outside, o: PluginOutput): Result<PluginOutput, BlobError>
    decreases o, 1
  {
    match o
    case RefOut(r) =>
      var b := Fetched(objs, out, r);
      if b.Failure? then Failure(b.error) else Success(BytesOut(b.value))
    case Many(m) =>
      var r := FetchedEach(objs, out, m);
      if r.Failure? then Failure(r.error) else Success(Many(r.value))
    case _ => Success(o)
  }

  function FetchedEach(objs: Objects, out: Outside, outs: seq<PluginOutput>): Result<seq<PluginOutput>, BlobError>
    decreases outs, 0
  {
    if outs == [] then Success([])
    else
      var h := FetchedAll(objs, out, outs[0]);
      if h.Failure? then Failure(h.error) else Prepend([h.value], FetchedEach(objs, out, outs[1..]))
  }

  /** What a plugin is given for an output: hydrated first, then fetched. */
  function Resolution(c: Codec, objs: Objects, hops: nat, out: Outside, o: PluginOutput)
      : Option<Result<PluginOutput, BlobError>> {
    match Hydration(c, objs, hops, o)
    case Some(Success(h)) => Some(FetchedAll(objs, out, h))
    case other => other
  }

  /** No reference survives at any depth. */
  lemma {:induction false} FetchLeavesNoRef(objs: Objects, out: Outside, o: PluginOutput)
    requires FetchedAll(objs, out, o).Success?
    ensures NoRef(FetchedAll(objs, out, o).value)
    decreases o, 1
  {
    if o.Many? {
      FetchEachLeavesNoRef(objs, out, o.outs);
    }
  }

  lemma {:induction false} FetchEachLeavesNoRef(objs: Objects, out: Outside, outs: seq<PluginOutput>)
    requires FetchedEach(objs, out, outs).Success?
    ensures forall x :: x in FetchedEach(objs, out, outs).value ==> NoRef(x)
    decreases outs, 0
  {
    if outs != [] {
      FetchLeavesNoRef(objs, out, outs[0]);
      FetchEachLeavesNoRef(objs, out, outs[1..]);
    }
  }

  lemma {:induction false} FetchNothing(objs: Objects, out: Outside, o: PluginOutput)
    requires NoRef(o)
    ensures FetchedAll(objs, out, o) == Success(o) && NoSpilled(o)
    decreases o, 1
  {
    if o.Many? {
      FetchNoneOfAll(objs, out, o.outs);
    }
  }

  lemma {:induction false} FetchNoneOfAll(objs: Objects, out: Outside, outs: seq<PluginOutput>)
    requires forall x :: x in outs ==> NoRef(x)
    ensures FetchedEach(objs, out, outs) == Success(outs)
    ensures forall x :: x in outs ==> NoSpilled(x)
    decreases outs, 0
  {
    if outs != [] {
      FetchNothing(objs, out, outs[0]);
      FetchNoneOfAll(objs, out, outs[1..]);
      assert outs == [outs[0]] + outs[1..];
    }
  }

  function InputResolution(c: Codec, objs: Objects, hops: nat, out: Outside, i: PluginInput)
      : Option<Result<PluginInput, BlobError>> {
    match i
    case RefIn(r) =>
      (match Resolution(c, objs, hops, out, RefOut(r))
       case None => None
       case Some(Failure(e)) => Some(Failure(e))
       case Some(Success(o)) => Some(Success(InputFrom(o))))
    case ManyIn(m) =>
      (match ResolutionEach(c, objs, hops, out, m)
       case None => None
       case Some(Failure(e)) => Some(Failure(e))
       case Some(Success(v)) => Some(Success(ManyIn(v))))
    case _ => Some(Success(i))
  }

  /** Part by part: each is hydrated and fetched before the next, up to the first that fails. */
  function ResolutionEach(c: Codec, objs: Objects, hops: nat, out: Outside, outs: seq<PluginOutput>)
      : Option<Result<seq<PluginOutput>, BlobError>> {
    if outs == [] then Some(Success([]))
    else
      match Resolution(c, objs, hops, out, outs[0])
      case None => None
      case Some(Failure(e)) => Some(Failure(e))
      case Some(Success(h)) => PrependTo([h], ResolutionEach(c, objs, hops, out, outs[1..]))
  }

  predicate InputNoRef(i: PluginInput) {
    !i.RefIn? && (i.ManyIn? ==> forall x :: x in i.outs ==> NoRef(x))
  }

  lemma {:induction false} ResolutionEachNoRef(c: Codec, objs: Objects, hops: nat, out: Outside,
      outs: seq<PluginOutput>)
    requires ResolutionEach(c, objs, hops, out, outs).Some? && ResolutionEach(c, objs, hops, out, outs).value.Success?
    ensures forall x :: x in ResolutionEach(c, objs, hops, out, outs).value.value ==> NoRef(x)
    decreases |outs|
  {
    if outs != [] {
      FetchLeavesNoRef(objs, out, Hydration(c, objs, hops, outs[0]).value.value);
      ResolutionEachNoRef(c, objs, hops, out, outs[1..]);
    }
  }

  /** A plugin never sees a reference. */
  lemma ResolvedInputNoRef(c: Codec, objs: Objects, hops: nat, out: Outside, i: PluginInput)
    requires InputResolution(c, objs, hops, out, i).Some? && InputResolution(c, objs, hops, out, i).value.Success?
    ensures InputNoRef(InputResolution(c, objs, hops, out, i).value.value)
  {
    match i {
      case RefIn(r) => FetchLeavesNoRef(objs, out, Hydration(c, objs, hops, RefOut(r)).value.value);
      case ManyIn(m) => ResolutionEachNoRef(c, objs, hops, out, m);
      case _ =>
    }
  }

  // ---------------------------------------------------------------- the store

  function Spill(c: Codec, objs: Objects, key: string, o: PluginOutput): Objects {
    objs[key := c.encode(o)]
  }

  class BlobStore {
    var objects: Objects
    const codec: Codec
    const outside: Outside

    constructor (codec: Codec, outside: Outside)
      ensures objects == map[] && this.codec == codec && this.outside == outside
    {
      this.objects, this.codec, this.outside := map[], codec, outside;
    }

    method Put(key: string, data: Bytes)
      modifies this
      ensures objects == old(objects)[key := data]
    {
      objects := objects[key := data];
    }

    method Get(key: string) returns (r: Result<Bytes, BlobError>)
      ensures r == if key in objects then Success(objects[key]) else Failure(NotFound(key))
    {
      r := if key in objects then Success(objects[key]) else Failure(NotFound(key));
    }

    method SpillOutput(job: string, step: string, branch: Option<nat>, output: PluginOutput, threshold: nat)
      returns (r: PluginOutput)
      modifies this
      ensures ApproxSize(output) <= threshold ==> r == output && objects == old(objects)
      ensures ApproxSize(output) > threshold ==>
                var key := StagedKey(job, SpillName(step, branch));
                r == SpilledRef(key) && objects == Spill(codec, old(objects), key, output)
    {
      var size := ApproxSize(output);
      if size <= threshold {
        return output;
      }
      var key := StagedKey(job, SpillName(step, branch));
      Put(key, codec.encode(output));
      r := SpilledRef(key);
    }

    method HydrateOutput(o: PluginOutput, ghost hops: nat) returns (r: Result<PluginOutput, BlobError>)
      requires Hydration(codec, objects, hops, o).Some?
      ensures Hydration(codec, objects, hops, o) == Some(r)
      decreases hops, o, 1
    {
      if IsSpilled(o) {
        var got := Get(o.ref.uri);
        if got.Failure? {
          return Failure(got.error);
        }
        var inner := codec.decode(got.value);
        if inner == None {
          return Failure(Json);
        }
        r := HydrateOutput(inner.value, hops - 1);
      } else if o.Many? {
        var all := HydrateAll(o.outs, hops);
        r := if all.Failure? then Failure(all.error) else Success(Many(all.value));
      } else {
        r := Success(o);
      }
    }

    method HydrateAll(outs: seq<PluginOutput>, ghost hops: nat) returns (r: Result<seq<PluginOutput>, BlobError>)
      requires HydrationAll(codec, objects, hops, outs).Some?
      ensures HydrationAll(codec, objects, hops, outs) == Some(r)
      decreases hops, outs, 0
    {
      var hydrated := [];
      assert outs[0..] == outs;
      PrependNothing(HydrationAll(codec, objects, hops, outs).value);
      for i := 0 to |outs|
        invariant HydrationAll(codec, objects, hops, outs)
                  == PrependTo(hydrated, HydrationAll(codec, objects, hops, outs[i..]))
      {
        assert outs[i..][0] == outs[i] && outs[i..][1..] == outs[i + 1..];
        var h := HydrateOutput(outs[i], hops);
        if h.Failure? {
          return Failure(h.error);
        }
        PrependTwice(hydrated, [h.value], HydrationAll(codec, objects, hops, outs[i + 1..]).value);
        hydrated := hydrated + [h.value];
      }
      assert outs[|outs|..] == [] && hydrated + [] == hydrated;
      r := Success(hydrated);
    }

    method FetchRef(ref: ContentRef) returns (r: Result<Blob, BlobError>)
      ensures r == Fetched(objects, outside, ref)
    {
      if !ref.Staged? {
        return outside.fetch(ref);
      }
      var got := Get(ref.uri);
      if got.Failure? {
        return Failure(got.error);
      }
      var name := if ref.filename.Some? then ref.filename else LastSegment(ref.uri);
      var mime := ref.mime;
      if mime == None && name.Some? {
        mime := outside.guessMime(name.value);
      }
      r := Success(Blob(got.value, if mime.Some? then mime.value else OCTET_STREAM, name));
    }

    /** Hydrate, then fetch what is left; parts of a fan-out are resolved one by one, each hydrated
        again, which changes nothing by then. */
    method ResolveOutput(o: PluginOutput, ghost hops: nat) returns (r: Result<PluginOutput, BlobError>)
      requires Hydration(codec, objects, hops, o).Some?
      ensures Resolution(codec, objects, hops, outside, o) == Some(r)
      decreases hops, o, 1
    {
      var h := HydrateOutput(o, hops);
      if h.Failure? {
        return h;
      }
      HydrateClears(codec, objects, hops, o);
      match h.value {
        case RefOut(ref) =>
          var b := FetchRef(ref);
          r := if b.Failure? then Failure(b.error) else Success(BytesOut(b.value));
        case Many(outs) =>
          HydratedEachIsFetchedEach(codec, objects, 0, outside, outs);
          var all := ResolveAll(outs, 0);
          r := if all.Failure? then Failure(all.error) else Success(Many(all.value));
        case BytesOut(_) => r := h;
        case DocumentsOut(_) => r := h;
        case Indexed(_) => r := h;
        case EmptyOut => r := h;
      }
    }

    method ResolveAll(outs: seq<PluginOutput>, ghost hops: nat) returns (r: Result<seq<PluginOutput>, BlobError>)
      requires ResolutionEach(codec, objects, hops, outside, outs).Some?
      ensures ResolutionEach(codec, objects, hops, outside, outs) == Some(r)
      decreases hops, outs, 0
    {
      var resolved := [];
      assert outs[0..] == outs;
      PrependNothing(ResolutionEach(codec, objects, hops, outside, outs).value);
      for i := 0 to |outs|
        invariant ResolutionEach(codec, objects, hops, outside, outs)
               == PrependTo(resolved, ResolutionEach(codec, objects, hops, outside, outs[i..]))
      {
        assert outs[i..][0] == outs[i] && outs[i..][1..] == outs[i + 1..];
        var h := ResolveOutput(outs[i], hops);
        if h.Failure? {
          return Failure(h.error);
        }
        PrependTwice(resolved, [h.value], ResolutionEach(codec, objects, hops, outside, outs[i + 1..]).value);
        resolved := resolved + [h.value];
      }
      assert outs[|outs|..] == [] && resolved + [] == resolved;
      r := Success(resolved);
    }

    method ResolveInput(i: PluginInput, ghost hops: nat) returns (r: Result<PluginInput, BlobError>)
      requires InputResolution(codec, objects, hops, outside, i).Some?
      ensures InputResolution(codec, objects, hops, outside, i) == Some(r)
    {
      match i {
        case RefIn(ref) =>
          var o := ResolveOutput(RefOut(ref), hops);
          r := if o.Failure? then Failure(o.error) else Success(InputFrom(o.value));
        case ManyIn(outs) =>
          var all := ResolveAll(outs, hops);
          r := if all.Failure? then Failure(all.error) else Success(ManyIn(all.value));
        case BytesIn(_) => r := Success(i);
        case DocumentsIn(_) => r := Success(i);
        case EmptyIn => r := Success(i);
      }
    }

    method StageUpload(job: string, blob: Blob, inlineMax: nat) returns (r: PluginInput)
      modifies this
      ensures |blob.data| <= inlineMax ==> r == BytesIn(blob) && objects == old(objects)
      ensures |blob.data| > inlineMax ==>
                var key := UploadKey(job, blob.filename);
                r == RefIn(Staged(key, Some(blob.mime), blob.filename)) && objects == old(objects)[key := blob.data]
    {
      if |blob.data| <= inlineMax {
        return BytesIn(blob);
      }
      var key := UploadKey(job, blob.filename);
      Put(key, blob.data);
      r := RefIn(Staged(key, Some(blob.mime), blob.filename));
    }
  }

  function UploadKey(job: string, filename: Option<string>): string {
    var segment := if filename.Some? then LastSegment(filename.value) else None;
    StagedKey(job, "input/" + if segment.Some? then segment.value else "upload.bin")
  }

  /** Once hydrated, resolving part by part only fetches. */
  lemma {:induction false} HydratedEachIsFetchedEach(c: Codec, objs: Objects, hops: nat, out: Outside,
      outs: seq<PluginOutput>)
    requires forall x :: x in outs ==> NoSpilled(x)
    ensures ResolutionEach(c, objs, hops, out, outs) == Some(FetchedEach(objs, out, outs))
    decreases |outs|
  {
    if outs != [] {
      HydrateUnspilled(c, objs, hops, outs[0]);
      HydratedEachIsFetchedEach(c, objs, hops, out, outs[1..]);
    }
  }
}
