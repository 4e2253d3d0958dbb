/** The archive walker: it decodes layer by layer, under the limits of the whole walk. */
module ArchiveWalker {
  import opened Wrappers
  import opened Text
  import opened Archive

  datatype Summary = Summary(files: nat, skipped: nat, decompressedBytes: nat)

  /** A stream that could not be read, or a limit that ends the walk. */
  datatype ReadError = Io(message: string) | Fatal(error: ArchiveError)

  class Walker {
    const lib: Library
    const lim: Limits
    const sink: Sink
    var files: nat
    var skipped: nat
    var decompressed: nat
    var handed: seq<Event>

    constructor (lib: Library, lim: Limits, sink: Sink)
      ensures this.lib == lib && this.lim == lim && this.sink == sink
      ensures St() == State(0, 0, 0, [])
    {
      this.lib, this.lim, this.sink := lib, lim, sink;
      files, skipped, decompressed, handed := 0, 0, 0, [];
    }

    function St(): State
      reads this
    {
      State(files, skipped, decompressed, handed)
    }

    /** From `st`, the layer's actions led here, and `r` is its result. */
    ghost predicate Did(st: State, p: Plan, r: Result<(), ArchiveError>)
      reads this
    {
      var o := Exec(lim, sink, st, p.actions);
      St() == o.state && r == Verdict(o, p.failure)
    }

    method Archive(data: Bytes, format: Format, prefix: string, name: Option<string>, depth: nat)
      returns (r: Result<(), ArchiveError>)
      modifies this
      ensures Did(old(St()), ArchivePlan(lib, lim.Skips(), data, format, prefix, name, depth), r)
      decreases DepthLeft(lim.Skips(), depth), 5, 0
    {
      match format {
        case Zip => r := Zip(data, prefix, depth);
        case Tar => r := Tar(data, prefix, depth);
        case Gzip => r := Gzip(data, prefix, name, depth);
      }
      ghost var p := ArchivePlan(lib, lim.Skips(), data, format, prefix, name, depth);
      ExecConcat(lim, sink, old(St()), [Open(depth)], p.actions[1..]);
      ExecOne(lim, sink, old(St()), Open(depth));
      assert p.actions == [Open(depth)] + p.actions[1..];
    }

    method Zip(data: Bytes, prefix: string, depth: nat) returns (r: Result<(), ArchiveError>)
      modifies this
      ensures Did(old(St()), ZipPlan(lib, lim.Skips(), data, prefix, depth), r)
      decreases DepthLeft(lim.Skips(), depth), 3, 0
    {
      var parsed := lib.zip(data);
      if parsed.Failure? {
        return Failure(Corrupt(Format.Zip, parsed.error));
      }
      var items := parsed.value;
      ghost var all := ZipItems(lib, lim.Skips(), items, prefix, depth);
      assert items[0..] == items;
      for i := 0 to |items|
        invariant var rest := ZipItems(lib, lim.Skips(), items[i..], prefix, depth);
                  && Exec(lim, sink, old(St()), all.actions) == Exec(lim, sink, St(), rest.actions)
                  && all.failure == rest.failure
      {
        assert items[i..][1..] == items[i + 1..];
        match items[i] {
          case BrokenZip(m) =>
            return Failure(Corrupt(Format.Zip, m));
          case ZipEntry(_, _, _, _, _, _) =>
        }
        ExecConcat(lim, sink, St(), ZipEntryActions(lib, lim.Skips(), items[i], prefix, depth),
                   ZipItems(lib, lim.Skips(), items[i + 1..], prefix, depth).actions);
        var one := ZipOne(items[i], prefix, depth);
        if one.Failure? {
          return one;
        }
      }
      r := Success(());
    }

    /** One zip entry. */
    method ZipOne(e: ZipItem, prefix: string, depth: nat) returns (r: Result<(), ArchiveError>)
      requires e.ZipEntry?
      modifies this
      ensures Did(old(St()), Plan(ZipEntryActions(lib, lim.Skips(), e, prefix, depth), None), r)
      decreases DepthLeft(lim.Skips(), depth), 1, 0
    {
      if e.isDir {
        return Success(());
      }
      if e.safe == None || e.safe.value == "" {
        r := Skip(prefix + e.rawName, "unsafe path");
        return;
      }
      var path := prefix + e.safe.value;
      if IsNoise(path) {
        return Success(());
      }
      r := ZipFile(e, path, depth);
    }

    /** A zip entry under a safe path. */
    method ZipFile(e: ZipItem, path: string, depth: nat) returns (r: Result<(), ArchiveError>)
      requires e.ZipEntry?
      modifies this
      ensures Did(old(St()), Plan(ZipFileActions(lib, lim.Skips(), e, path, depth), None), r)
      decreases DepthLeft(lim.Skips(), depth), 0, 3
    {
      if e.isSymlink {
        r := Skip(path, "symbolic link");
        return;
      }
      if e.declared > lim.maxFileBytes {
        r := Skip(path, TooLargeReason(lim.Skips()));
        return;
      }
      if e.stream.Failure? {
        r := Skip(path, Unreadable(e.stream.error));
        return;
      }
      r := ZipContent(path, e.stream.value, depth);
    }

    /** The content of a zip entry that could be opened. */
    method ZipContent(path: string, s: Stream, depth: nat) returns (r: Result<(), ArchiveError>)
      modifies this
      ensures Did(old(St()), Plan(ZipContentActions(lib, lim.Skips(), path, s, depth), None), r)
      decreases DepthLeft(lim.Skips(), depth), 0, 2
    {
      ghost var acts := ZipContentActions(lib, lim.Skips(), path, s, depth);
      ghost var read := ReadOf(lim.Skips(), s);
      ExecConcat(lim, sink, old(St()), [read], acts[1..]);
      assert acts == [read] + acts[1..];
      var got := ReadCounted(s);
      match got {
        case Success(Some(d)) => r := File(path, d, depth);
        case Success(None) => r := Skip(path, TooLargeReason(lim.Skips()));
        case Failure(Io(m)) => r := Skip(path, Unreadable(m));
        case Failure(Fatal(e)) => r := Failure(e);
      }
    }

    method Tar(data: Bytes, prefix: string, depth: nat) returns (r: Result<(), ArchiveError>)
      modifies this
      ensures Did(old(St()), TarPlan(lib, lim.Skips(), data, prefix, depth), r)
      decreases DepthLeft(lim.Skips(), depth), 3, 0
    {
      var parsed := lib.tar(data);
      if parsed.Failure? {
        return Failure(Corrupt(Format.Tar, parsed.error));
      }
      var items := parsed.value;
      ghost var all := TarItems(lib, lim.Skips(), items, prefix, depth);
      assert items[0..] == items;
      for i := 0 to |items|
        invariant var rest := TarItems(lib, lim.Skips(), items[i..], prefix, depth);
                  && Exec(lim, sink, old(St()), all.actions) == Exec(lim, sink, St(), rest.actions)
                  && all.failure == rest.failure
      {
        assert items[i..][1..] == items[i + 1..];
        match items[i] {
          case BrokenTar(m) =>
            return Failure(Corrupt(Format.Tar, m));
          case TarEntry(_, _, _, _, _) =>
        }
        var s := items[i].stream;
        if TarReads(lim.Skips(), items[i], prefix) && |s.content| <= lim.maxFileBytes && s.failure.Some? {
          return Failure(Corrupt(Format.Tar, s.failure.value));
        }
        ExecConcat(lim, sink, St(), TarEntryActions(lib, lim.Skips(), items[i], prefix, depth),
                   TarItems(lib, lim.Skips(), items[i + 1..], prefix, depth).actions);
        var one := TarOne(items[i], prefix, depth);
        if one.Failure? {
          return one;
        }
      }
      r := Success(());
    }

    /** One tar entry, whose content can be read. */
    method TarOne(e: TarItem, prefix: string, depth: nat) returns (r: Result<(), ArchiveError>)
      requires e.TarEntry?
      modifies this
      ensures Did(old(St()), Plan(TarEntryActions(lib, lim.Skips(), e, prefix, depth), None), r)
      decreases DepthLeft(lim.Skips(), depth), 1, 0
    {
      if e.kind == Dir {
        return Success(());
      }
      if e.safe == None || e.safe.value == "" {
        r := Skip(prefix + e.rawName, "unsafe path");
        return;
      }
      var path := prefix + e.safe.value;
      if IsNoise(path) {
        return Success(());
      }
      r := TarFile(e, path, depth);
    }

    /** A tar entry under a safe path. */
    method TarFile(e: TarItem, path: string, depth: nat) returns (r: Result<(), ArchiveError>)
      requires e.TarEntry? && e.kind != Dir
      modifies this
      ensures Did(old(St()), Plan(TarFileActions(lib, lim.Skips(), e, path, depth), None), r)
      decreases DepthLeft(lim.Skips(), depth), 0, 2
    {
      if e.kind == Symlink || e.kind == HardLink {
        r := Skip(path, "link");
        return;
      }
      if !(e.kind == Regular || e.kind == Contiguous) {
        return Success(());
      }
      if e.size > lim.maxFileBytes {
        r := Skip(path, TooLargeReason(lim.Skips()));
        return;
      }
      if |e.stream.content| > lim.maxFileBytes {
        r := Skip(path, TooLargeReason(lim.Skips()));
        return;
      }
      r := File(path, e.stream.content, depth);
    }

    method Gzip(data: Bytes, prefix: string, name: Option<string>, depth: nat) returns (r: Result<(), ArchiveError>)
      modifies this
      ensures Did(old(St()), GzipPlan(lib, lim.Skips(), data, prefix, name, depth), r)
      decreases DepthLeft(lim.Skips(), depth), 4, 0
    {
      var s := lib.gunzip(data);
      ghost var p := GzipPlan(lib, lim.Skips(), data, prefix, name, depth);
      ExecConcat(lim, sink, old(St()), [ReadOf(lim.Skips(), s)], p.actions[1..]);
      assert p.actions == [ReadOf(lim.Skips(), s)] + p.actions[1..];
      var got := ReadCounted(s);
      match got {
        case Success(Some(inner)) =>
          if IsTar(inner) {
            r := Tar(inner, prefix, depth);
          } else {
            r := File(prefix + GunzippedFile(name), inner, depth);
          }
        case Success(None) => r := Failure(FileTooLarge(lim.maxFileBytes));
        case Failure(Io(m)) => r := Failure(Corrupt(Format.Gzip, m));
        case Failure(Fatal(e)) => r := Failure(e);
      }
    }

    /** A file found at `depth`. Never ends in a local error: `Did` is for a plan without one. */
    method File(path: string, data: Bytes, depth: nat) returns (r: Result<(), ArchiveError>)
      modifies this
      ensures Did(old(St()), Plan(FileActions(lib, lim.Skips(), path, data, depth), None), r)
      decreases DepthLeft(lim.Skips(), depth), 0, 1
    {
      if data == [] {
        r := Skip(path, "empty file");
        return;
      }
      var nested := NestedFormat(data, path);
      if nested.Some? {
        r := Nested(path, data, nested.value, depth);
        return;
      }
      ExecOne(lim, sink, old(St()), Emit(Event.File(path, data)));
      if files >= lim.maxFiles {
        return Failure(TooManyFiles(lim.maxFiles));
      }
      files := files + 1;
      r := Give(Event.File(path, data));
    }

    /** A file that is an archive itself: a local error of its layer becomes a skip. */
    method Nested(path: string, data: Bytes, format: Format, depth: nat) returns (r: Result<(), ArchiveError>)
      requires data != [] && NestedFormat(data, path) == Some(format)
      modifies this
      ensures Did(old(St()), Plan(FileActions(lib, lim.Skips(), path, data, depth), None), r)
      decreases DepthLeft(lim.Skips(), depth), 0, 0
    {
      if depth >= lim.maxDepth {
        r := Skip(path, "archive nested more than " + Dec(lim.maxDepth) + " levels deep");
        return;
      }
      var (prefix, name) := NestedPlace(format, path);
      ghost var p := ArchivePlan(lib, lim.Skips(), data, format, prefix, Some(name), depth + 1);
      ghost var tail := if p.failure.Some? then [Emit(Skipped(path, Describe(p.failure.value)))] else [];
      ExecConcat(lim, sink, old(St()), p.actions, tail);
      StopsAreFatal(lim, sink, old(St()), p.actions);
      PlanFailureIsLocal(lib, lim.Skips(), data, format, prefix, Some(name), depth + 1);
      var inner := Archive(data, format, prefix, Some(name), depth + 1);
      if inner.Failure? && inner.error.IsLocal() {
        r := Skip(path, Describe(inner.error));
      } else {
        r := inner;
      }
    }

    method Skip(path: string, reason: string) returns (r: Result<(), ArchiveError>)
      modifies this
      ensures Did(old(St()), Plan([Emit(Skipped(path, reason))], None), r)
    {
      ExecOne(lim, sink, old(St()), Emit(Skipped(path, reason)));
      skipped := skipped + 1;
      r := Give(Skipped(path, reason));
    }

    /** Hand one event to the sink. */
    method Give(e: Event) returns (r: Result<(), ArchiveError>)
      modifies this`handed
      ensures var o := Hand(sink, old(St()), e); St() == o.state && r == Verdict(o, None)
    {
      handed := handed + [e];
      var answer := sink(handed);
      r := if answer.Some? then Failure(Stopped(answer.value)) else Success(());
    }

    /** Read a stream to its end or to the first limit. Nothing when the file alone is too large. */
    method ReadCounted(s: Stream) returns (r: Result<Option<Bytes>, ReadError>)
      modifies this`decompressed
      ensures var o := Exec(lim, sink, old(St()), [ReadOf(lim.Skips(), s)]);
              && St() == o.state
              && (o.stop.Some? ==> r == Failure(Fatal(o.stop.value)))
              && (o.stop.None? ==>
                    r == if |s.content| > lim.maxFileBytes then Success(None)
                         else if s.failure.Some? then Failure(Io(s.failure.value))
                         else Success(Some(s.content)))
    {
      ExecOne(lim, sink, old(St()), ReadOf(lim.Skips(), s));
      var left := BytesLeft(lim, decompressed);
      var cap := if lim.maxFileBytes < left then lim.maxFileBytes else left;
      if |s.content| <= cap && s.failure.Some? {
        return Failure(Io(s.failure.value));
      }
      var out := if |s.content| <= cap then s.content else s.content[..cap + 1];
      if |out| > cap {
        if |out| > left {
          return Failure(Fatal(TooLarge(lim.maxTotalBytes)));
        }
        return Success(None);
      }
      decompressed := decompressed + |out|;
      r := Success(Some(out));
    }
  }

  /** The read of a stream as an action. */
  function ReadOf(lim: SkipLimits, s: Stream): Action {
    if |s.content| > lim.maxFileBytes then Read(lim.maxFileBytes + 1, false)
    else Read(|s.content|, s.failure == None)
  }

  /** An error that stops the walk is never a local one. */
  lemma {:induction false} StopsAreFatal(lim: Limits, sink: Sink, st: State, actions: seq<Action>)
    ensures var o := Exec(lim, sink, st, actions); o.stop.Some? ==> !o.stop.value.IsLocal()
    decreases |actions|
  {
    if actions != [] {
      StopsAreFatal(lim, sink, Perform(lim, sink, st, actions[0]).state, actions[1..]);
    }
  }

  lemma {:induction false} ZipItemsFailure(lib: Library, lim: SkipLimits, items: seq<ZipItem>, prefix: string,
      depth: nat)
    ensures var f := ZipItems(lib, lim, items, prefix, depth).failure;
            f.Some? ==> f.value.Corrupt? && f.value.format == Zip
    decreases |items|
  {
    if items != [] {
      ZipItemsFailure(lib, lim, items[1..], prefix, depth);
    }
  }

  lemma {:induction false} TarItemsFailure(lib: Library, lim: SkipLimits, items: seq<TarItem>, prefix: string,
      depth: nat)
    ensures var f := TarItems(lib, lim, items, prefix, depth).failure;
            f.Some? ==> f.value.Corrupt? && f.value.format == Tar
    decreases |items|
  {
    if items != [] {
      TarItemsFailure(lib, lim, items[1..], prefix, depth);
    }
  }

  lemma TarPlanFailure(lib: Library, lim: SkipLimits, data: Bytes, prefix: string, depth: nat)
    ensures var f := TarPlan(lib, lim, data, prefix, depth).failure;
            f.Some? ==> f.value.Corrupt? && f.value.format == Tar
  {
    if lib.tar(data).Success? {
      TarItemsFailure(lib, lim, lib.tar(data).value, prefix, depth);
    }
  }

  /** A layer's own error is local and about its format, or the tar inside its gzip. */
  lemma PlanFailureIsLocal(lib: Library, lim: SkipLimits, data: Bytes, format: Format, prefix: string,
      name: Option<string>, depth: nat)
    ensures var f := ArchivePlan(lib, lim, data, format, prefix, name, depth).failure;
            f.Some? ==>
              || (f.value.Corrupt? && (f.value.format == format || (format == Gzip && f.value.format == Tar)))
              || (format == Gzip && f.value == FileTooLarge(lim.maxFileBytes))
  {
    match format {
      case Zip =>
        if lib.zip(data).Success? {
          ZipItemsFailure(lib, lim, lib.zip(data).value, prefix, depth);
        }
      case Tar => TarPlanFailure(lib, lim, data, prefix, depth);
      case Gzip => TarPlanFailure(lib, lim, lib.gunzip(data).content, prefix, depth);
    }
  }

  /** The whole walk. */
  method Walk(lib: Library, lim: Limits, sink: Sink, data: Bytes, format: Format, name: Option<string>)
    returns (r: Result<Summary, ArchiveError>, handed: seq<Event>)
    ensures var p := ArchivePlan(lib, lim.Skips(), data, format, "", name, 1);
            var o := Exec(lim, sink, State(0, 0, 0, []), p.actions);
            && handed == o.state.handed
            && r == (if o.stop.Some? then Failure(o.stop.value)
                     else if p.failure.Some? then Failure(p.failure.value)
                     else Success(Summary(o.state.files, o.state.skipped, o.state.decompressed)))
  {
    var w := new Walker(lib, lim, sink);
    var done := w.Archive(data, format, "", name, 1);
    handed := w.handed;
    r := match done
      case Failure(e) => Failure(e)
      case Success(_) => Success(Summary(w.files, w.skipped, w.decompressed));
  }
}
