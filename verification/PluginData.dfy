/** What steps exchange: documents, blobs, references and fan-out results. */
module PluginData {
  import opened Wrappers

  datatype Blob = Blob(data: Bytes, mime: string, filename: Option<string>)

  datatype ContentRef =
    | Url(url: string, mime: Option<string>, filename: Option<string>)
    | S3(uri: string, mime: Option<string>, filename: Option<string>)
    | Staged(uri: string, mime: Option<string>, filename: Option<string>)

  /** `fields` is the JSON text of the structured attributes. */
  datatype Document = Document(id: string, title: Option<string>, content: string, fields: string)

  datatype IndexReport = IndexReport(index: string, documentCount: nat, taskUids: seq<nat>)

  datatype PluginOutput =
    | BytesOut(blob: Blob)
    | RefOut(ref: ContentRef)
    | DocumentsOut(docs: seq<Document>)
    | Many(outs: seq<PluginOutput>)
    | Indexed(report: IndexReport)
    | EmptyOut

  datatype PluginInput =
    | BytesIn(blob: Blob)
    | RefIn(ref: ContentRef)
    | DocumentsIn(docs: seq<Document>)
    | ManyIn(outs: seq<PluginOutput>)
    | EmptyIn

  function InputFrom(o: PluginOutput): PluginInput {
    match o
    case BytesOut(b) => BytesIn(b)
    case RefOut(r) => RefIn(r)
    case DocumentsOut(d) => DocumentsIn(d)
    case Many(m) => ManyIn(m)
    case Indexed(_) => EmptyIn
    case EmptyOut => EmptyIn
  }

  // ---------------------------------------------------------------- sizes

  function DocSize(d: Document): nat {
    |d.id| + |d.content| + (if d.title.Some? then |d.title.value| else 0) + |d.fields| + 256
  }

  function DocsSize(docs: seq<Document>): nat {
    if docs == [] then 0 else DocSize(docs[0]) + DocsSize(docs[1..])
  }

  function ApproxSize(o: PluginOutput): nat
    decreases o, 1
  {
    match o
    case BytesOut(b) => |b.data| * 4 / 3
    case RefOut(_) => 256
    case DocumentsOut(d) => DocsSize(d)
    case Many(m) => SizeOfAll(m)
    case Indexed(_) => 128
    case EmptyOut => 8
  }

  function SizeOfAll(outs: seq<PluginOutput>): nat
    decreases outs, 0
  {
    if outs == [] then 0 else ApproxSize(outs[0]) + SizeOfAll(outs[1..])
  }

  // ---------------------------------------------------------------- documents

  /** No documents can be had from bytes or a reference. */
  datatype NoDocuments = NoDocuments

  /** The documents of an output, fan-out results flattened in order. */
  ghost function Docs(o: PluginOutput): Result<seq<Document>, NoDocuments>
    decreases o, 1
  {
    match o
    case DocumentsOut(d) => Success(d)
    case Many(m) => DocsOfAll(m)
    case Indexed(_) => Success([])
    case EmptyOut => Success([])
    case _ => Failure(NoDocuments)
  }

  ghost function DocsOfAll(outs: seq<PluginOutput>): Result<seq<Document>, NoDocuments>
    decreases outs, 0
  {
    if outs == [] then Success([])
    else
      var d := Docs(outs[0]);
      if d.Failure? then d else Prepend(d.value, DocsOfAll(outs[1..]))
  }

  function Prepend<T, E>(head: seq<T>, r: Result<seq<T>, E>): Result<seq<T>, E> {
    match r
    case Success(t) => Success(head + t)
    case Failure(e) => Failure(e)
  }

  lemma PrependNothing<T, E>(r: Result<seq<T>, E>)
    ensures Prepend([], r) == r
  {
    if r.Success? {
      assert [] + r.value == r.value;
    }
  }

  lemma PrependTwice<T, E>(a: seq<T>, b: seq<T>, r: Result<seq<T>, E>)
    ensures Prepend(a, Prepend(b, r)) == Prepend(a + b, r)
  {
    if r.Success? {
      assert a + (b + r.value) == (a + b) + r.value;
    }
  }

  method IntoDocuments(o: PluginOutput) returns (r: Result<seq<Document>, NoDocuments>)
    ensures r == Docs(o)
    decreases o, 1
  {
    match o {
      case DocumentsOut(d) => r := Success(d);
      case Many(m) => r := FlattenAll(m);
      case Indexed(_) => r := Success([]);
      case EmptyOut => r := Success([]);
      case BytesOut(_) => r := Failure(NoDocuments);
      case RefOut(_) => r := Failure(NoDocuments);
    }
  }

  method FlattenAll(outs: seq<PluginOutput>) returns (r: Result<seq<Document>, NoDocuments>)
    ensures r == DocsOfAll(outs)
    decreases outs, 0
  {
    var all := [];
    assert outs[0..] == outs;
    PrependNothing(DocsOfAll(outs));
    for i := 0 to |outs|
      invariant DocsOfAll(outs) == Prepend(all, DocsOfAll(outs[i..]))
    {
      assert outs[i..][1..] == outs[i + 1..];
      var d := IntoDocuments(outs[i]);
      if d.Failure? {
        return d;
      }
      PrependTwice(all, d.value, DocsOfAll(outs[i + 1..]));
      all := all + d.value;
    }
    assert outs[|outs|..] == [] && all + [] == all;
    r := Success(all);
  }

  method InputIntoDocuments(i: PluginInput) returns (r: Result<seq<Document>, NoDocuments>)
    ensures r == InputDocs(i)
  {
    match i {
      case DocumentsIn(d) => r := Success(d);
      case ManyIn(m) => r := FlattenAll(m);
      case EmptyIn => r := Success([]);
      case BytesIn(_) => r := Failure(NoDocuments);
      case RefIn(_) => r := Failure(NoDocuments);
    }
  }

  ghost function InputDocs(i: PluginInput): Result<seq<Document>, NoDocuments> {
    match i
    case DocumentsIn(d) => Success(d)
    case ManyIn(m) => DocsOfAll(m)
    case EmptyIn => Success([])
    case _ => Failure(NoDocuments)
  }

  /** Handing an output on as an input keeps its documents. */
  lemma FromKeepsDocuments(o: PluginOutput)
    ensures InputDocs(InputFrom(o)) == Docs(o)
  {
  }

  /** The documents of a fan-out are those of its first part followed by those of the rest. */
  lemma {:induction false} DocsOfConcat(a: seq<PluginOutput>, b: seq<PluginOutput>)
    ensures DocsOfAll(a).Success? ==> DocsOfAll(a + b) == Prepend(DocsOfAll(a).value, DocsOfAll(b))
    ensures DocsOfAll(a).Failure? ==> DocsOfAll(a + b) == DocsOfAll(a)
    decreases |a|
  {
    if a == [] {
      assert a + b == b;
      PrependNothing(DocsOfAll(b));
    } else {
      assert (a + b)[1..] == a[1..] + b;
      DocsOfConcat(a[1..], b);
      if Docs(a[0]).Success? && DocsOfAll(a[1..]).Success? {
        PrependTwice(Docs(a[0]).value, DocsOfAll(a[1..]).value, DocsOfAll(b));
      }
    }
  }
}
