/** What becomes of each entry of an archive, told by the entry. */
module ArchiveOutcomes {
  import opened Wrappers
  import opened Text
  import opened Archive
  import opened ArchiveWalker
  import opened ArchiveProperties
  import opened ArchiveLimits
  import opened ArchiveNames

  /** The events a layer gives when nothing stops the walk, in order. */
  function Found(lib: Library, lim: SkipLimits, data: Bytes, format: Format, prefix: string, name: Option<string>,
      depth: nat): seq<Event> {
    Emitted(ArchivePlan(lib, lim, data, format, prefix, name, depth).actions)
  }

  /** The local error that ends the layer, if any. */
  function Broken(lib: Library, lim: SkipLimits, data: Bytes, format: Format, prefix: string, name: Option<string>,
      depth: nat): Option<ArchiveError> {
    ArchivePlan(lib, lim, data, format, prefix, name, depth).failure
  }

  // ---------------------------------------------------------------- a file

  /** Its first bytes, with its name for a zip, say it is an archive of this format. */
  ghost predicate Carries(data: Bytes, path: string, format: Format) {
    match format
    case Gzip => GzipMagic(data)
    case Zip => ZipMagic(data) && exists dir, base :: SplitsAt(path, dir, base) && ZipNamed(base)
    case Tar => TarMagic(data) && !GzipMagic(data) && !ZipMagic(data)
  }

  /** What a nested archive gives: its own events below its place, and a report if it is broken. */
  ghost predicate NestedGives(lib: Library, lim: SkipLimits, path: string, data: Bytes, format: Format, depth: nat,
      events: seq<Event>) {
    forall dir, base | SplitsAt(path, dir, base) ::
      PlaceGives(lib, lim, path, data, format, depth, if format == Gzip then dir else path + "/", base, events)
  }

  ghost predicate PlaceGives(lib: Library, lim: SkipLimits, path: string, data: Bytes, format: Format, depth: nat,
      prefix: string, name: string, events: seq<Event>) {
    var broken := Broken(lib, lim, data, format, prefix, Some(name), depth + 1);
    events == Found(lib, lim, data, format, prefix, Some(name), depth + 1)
            + if broken.Some? then [Skipped(path, Describe(broken.value))] else []
  }

  /** What a file met at `depth` gives. */
  ghost predicate FileGives(lib: Library, lim: SkipLimits, path: string, data: Bytes, depth: nat, events: seq<Event>) {
    && (data == [] ==> events == [Skipped(path, "empty file")])
    && (data != [] && (forall f :: !Carries(data, path, f)) ==> events == [File(path, data)])
    && (data != [] && (exists f :: Carries(data, path, f)) && depth >= lim.maxDepth ==>
          events == [Skipped(path, "archive nested more than " + Dec(lim.maxDepth) + " levels deep")])
    && forall f | Carries(data, path, f) :: data != [] && depth < lim.maxDepth ==>
          NestedGives(lib, lim, path, data, f, depth, events)
  }

  /** How a broken nested archive is reported. */
  lemma DescribeCorrupt(format: Format, message: string)
    ensures var kind := if format == Zip then "zip" else if format == Tar then "tar" else "gzip";
            Describe(Corrupt(format, message)) == "not a readable " + kind + " archive: " + message
  {
  }

  lemma DescribeTooLarge(n: nat)
    ensures Describe(FileTooLarge(n)) == "the file expands to more than " + Dec(n) + " bytes"
  {
  }

  lemma CarriesIsFormat(data: Bytes, path: string, f: Format)
    ensures Carries(data, path, f) <==> NestedFormat(data, path) == Some(f)
  {
    var dir, base := SplitExists(path);
    NestedFormatExactly(data, path, dir, base);
    if f == Zip && Carries(data, path, f) {
      var d, b :| SplitsAt(path, d, b) && ZipNamed(b);
      BasenameIs(path, d, b);
      BasenameIs(path, dir, base);
    }
  }

  lemma {:induction false} EmittedConcat(a: seq<Action>, b: seq<Action>)
    ensures Emitted(a + b) == Emitted(a) + Emitted(b)
    decreases |b|
  {
    if b == [] {
      assert a + b == a;
    } else {
      var all := a + b;
      assert all[..|all| - 1] == a + b[..|b| - 1];
      EmittedConcat(a, b[..|b| - 1]);
    }
  }

  lemma EmittedOne(a: Action)
    ensures Emitted([a]) == if a.Emit? then [a.event] else []
  {
    assert [a][..0] == [] && Emitted([]) == [];
  }

  lemma FileGivesIts(lib: Library, lim: SkipLimits, path: string, data: Bytes, depth: nat)
    ensures FileGives(lib, lim, path, data, depth, Emitted(FileActions(lib, lim, path, data, depth)))
  {
    var acts := FileActions(lib, lim, path, data, depth);
    forall f {
      CarriesIsFormat(data, path, f);
    }
    if data != [] && NestedFormat(data, path).Some? && depth < lim.maxDepth {
      var f := NestedFormat(data, path).value;
      NestedGivesIts(lib, lim, path, data, f, depth);
    } else {
      EmittedOne(acts[0]);
    }
  }

  lemma NestedGivesIts(lib: Library, lim: SkipLimits, path: string, data: Bytes, f: Format, depth: nat)
    requires data != [] && NestedFormat(data, path) == Some(f) && depth < lim.maxDepth
    ensures NestedGives(lib, lim, path, data, f, depth, Emitted(FileActions(lib, lim, path, data, depth)))
  {
    forall dir, base | SplitsAt(path, dir, base)
      ensures PlaceGives(lib, lim, path, data, f, depth, if f == Gzip then dir else path + "/", base,
                Emitted(FileActions(lib, lim, path, data, depth)))
    {
      PlaceExactly(f, path, dir, base);
      FileShape(lib, lim, path, data, depth);
      var p := NestedPlan(lib, lim, path, data, depth);
      EmittedConcat(p.actions, SkipTail(path, p));
      if p.failure.Some? {
        EmittedOne(SkipTail(path, p)[0]);
      }
    }
  }

  // ---------------------------------------------------------------- entries

  predicate SafeName(safe: Option<string>) {
    safe.Some? && safe.value != ""
  }

  ghost predicate Noise(path: string) {
    exists dir, base :: SplitsAt(path, dir, base)
      && (HasComponent(path, "__MACOSX") || (|base| >= 2 && base[0] == '.' && base[1] == '_')
          || base == ".DS_Store" || base == "Thumbs.db" || base == "desktop.ini")
  }

  lemma NoiseIs(path: string)
    ensures IsNoise(path) <==> Noise(path)
  {
    var dir, base := SplitExists(path);
    NoiseExactly(path, dir, base);
    if Noise(path) {
      var d, b :| SplitsAt(path, d, b)
        && (HasComponent(path, "__MACOSX") || (|b| >= 2 && b[0] == '.' && b[1] == '_')
            || b == ".DS_Store" || b == "Thumbs.db" || b == "desktop.ini");
      NoiseExactly(path, d, b);
    }
  }

  function TooLargeText(lim: SkipLimits): string {
    "larger than " + Dec(lim.maxFileBytes) + " bytes"
  }

  /** The zip entry under its safe path `path` is read: nothing in its header says otherwise. */
  ghost predicate ZipIsRead(lim: SkipLimits, e: ZipItem, path: string) {
    e.ZipEntry? && !e.isDir && !Noise(path) && !e.isSymlink && e.declared <= lim.maxFileBytes
  }

  /** What a zip entry gives: each case in turn. */
  ghost predicate ZipGives(lib: Library, lim: SkipLimits, e: ZipItem, prefix: string, depth: nat, events: seq<Event>)
    requires e.ZipEntry?
  {
    if e.isDir then events == []
    else if !SafeName(e.safe) then events == [Skipped(prefix + e.rawName, "unsafe path")]
    else ZipFileGives(lib, lim, e, prefix + e.safe.value, depth, events)
  }

  ghost predicate ZipFileGives(lib: Library, lim: SkipLimits, e: ZipItem, path: string, depth: nat, events: seq<Event>)
    requires e.ZipEntry? && !e.isDir
  {
    && (Noise(path) ==> events == [])
    && (!Noise(path) && e.isSymlink ==> events == [Skipped(path, "symbolic link")])
    && (!Noise(path) && !e.isSymlink && e.declared > lim.maxFileBytes ==> events == [Skipped(path, TooLargeText(lim))])
    && (ZipIsRead(lim, e, path) && e.stream.Failure? ==> events == [Skipped(path, "unreadable: " + e.stream.error)])
    && (ZipIsRead(lim, e, path) && e.stream.Success? ==>
          var s := e.stream.value;
          && (|s.content| > lim.maxFileBytes ==> events == [Skipped(path, TooLargeText(lim))])
          && (|s.content| <= lim.maxFileBytes && s.failure.Some? ==>
                events == [Skipped(path, "unreadable: " + s.failure.value)])
          && (|s.content| <= lim.maxFileBytes && s.failure == None ==>
                FileGives(lib, lim, path, s.content, depth, events)))
  }

  lemma ZipGivesIts(lib: Library, lim: SkipLimits, e: ZipItem, prefix: string, depth: nat)
    requires e.ZipEntry?
    ensures ZipGives(lib, lim, e, prefix, depth, Emitted(ZipEntryActions(lib, lim, e, prefix, depth)))
  {
    var acts := ZipEntryActions(lib, lim, e, prefix, depth);
    if e.isDir {
    } else if !SafeName(e.safe) {
      EmittedOne(acts[0]);
    } else {
      NoiseIs(prefix + e.safe.value);
      ZipFileGivesIts(lib, lim, e, prefix + e.safe.value, depth);
    }
  }

  lemma ZipFileGivesIts(lib: Library, lim: SkipLimits, e: ZipItem, path: string, depth: nat)
    requires e.ZipEntry? && !e.isDir
    ensures var acts := if IsNoise(path) then [] else ZipFileActions(lib, lim, e, path, depth);
            ZipFileGives(lib, lim, e, path, depth, Emitted(acts))
  {
    NoiseIs(path);
    if !IsNoise(path) {
      var acts := ZipFileActions(lib, lim, e, path, depth);
      if ZipIsRead(lim, e, path) && e.stream.Success? {
        ZipContentGivesIts(lib, lim, path, e.stream.value, depth);
      } else {
        EmittedOne(acts[0]);
      }
    }
  }

  lemma ReadEmitsNothing(a: Action, rest: seq<Action>)
    requires a.Read?
    ensures Emitted([a] + rest) == Emitted(rest)
  {
    EmittedConcat([a], rest);
    EmittedOne(a);
  }

  lemma ZipContentGivesIts(lib: Library, lim: SkipLimits, path: string, s: Stream, depth: nat)
    ensures var events := Emitted(ZipContentActions(lib, lim, path, s, depth));
            && (|s.content| > lim.maxFileBytes ==> events == [Skipped(path, TooLargeText(lim))])
            && (|s.content| <= lim.maxFileBytes && s.failure.Some? ==>
                  events == [Skipped(path, "unreadable: " + s.failure.value)])
            && (|s.content| <= lim.maxFileBytes && s.failure == None ==>
                  FileGives(lib, lim, path, s.content, depth, events))
  {
    if |s.content| <= lim.maxFileBytes && s.failure == None {
      var rest := FileActions(lib, lim, path, s.content, depth);
      ReadEmitsNothing(Read(|s.content|, true), rest);
      FileGivesIts(lib, lim, path, s.content, depth);
    } else {
      var acts := ZipContentActions(lib, lim, path, s, depth);
      assert acts == [acts[0]] + [acts[1]];
      ReadEmitsNothing(acts[0], [acts[1]]);
      EmittedOne(acts[1]);
    }
  }

  /** What a tar entry that can be read gives: each case in turn. */
  ghost predicate TarGives(lib: Library, lim: SkipLimits, e: TarItem, prefix: string, depth: nat, events: seq<Event>)
    requires e.TarEntry?
  {
    if e.kind == Dir then events == []
    else if !SafeName(e.safe) then events == [Skipped(prefix + e.rawName, "unsafe path")]
    else TarFileGives(lib, lim, e, prefix + e.safe.value, depth, events)
  }

  ghost predicate TarFileGives(lib: Library, lim: SkipLimits, e: TarItem, path: string, depth: nat, events: seq<Event>)
    requires e.TarEntry? && e.kind != Dir
  {
    var regular := !Noise(path) && (e.kind == Regular || e.kind == Contiguous);
    var tooLarge := e.size > lim.maxFileBytes || |e.stream.content| > lim.maxFileBytes;
    && (Noise(path) || e.kind == Other ==> events == [])
    && (!Noise(path) && (e.kind == Symlink || e.kind == HardLink) ==> events == [Skipped(path, "link")])
    && (regular && tooLarge ==> events == [Skipped(path, TooLargeText(lim))])
    && (regular && !tooLarge ==> FileGives(lib, lim, path, e.stream.content, depth, events))
  }

  lemma TarGivesIts(lib: Library, lim: SkipLimits, e: TarItem, prefix: string, depth: nat)
    requires e.TarEntry?
    ensures TarGives(lib, lim, e, prefix, depth, Emitted(TarEntryActions(lib, lim, e, prefix, depth)))
  {
    var acts := TarEntryActions(lib, lim, e, prefix, depth);
    if e.kind == Dir {
    } else if !SafeName(e.safe) {
      EmittedOne(acts[0]);
    } else {
      var path := prefix + e.safe.value;
      NoiseIs(path);
      if !IsNoise(path) {
        TarFileGivesIts(lib, lim, e, path, depth);
      }
    }
  }

  lemma TarFileGivesIts(lib: Library, lim: SkipLimits, e: TarItem, path: string, depth: nat)
    requires e.TarEntry? && e.kind != Dir && !Noise(path)
    ensures TarFileGives(lib, lim, e, path, depth, Emitted(TarFileActions(lib, lim, e, path, depth)))
  {
    var acts := TarFileActions(lib, lim, e, path, depth);
    var tooLarge := e.size > lim.maxFileBytes || |e.stream.content| > lim.maxFileBytes;
    if (e.kind == Regular || e.kind == Contiguous) && !tooLarge {
      FileGivesIts(lib, lim, path, e.stream.content, depth);
    } else if acts != [] {
      EmittedOne(acts[0]);
    }
  }

  // ---------------------------------------------------------------- layers

  /** The parts one after the other. */
  function Flat(parts: seq<seq<Event>>): seq<Event> {
    if parts == [] then [] else parts[0] + Flat(parts[1..])
  }

  lemma LayerIs(lib: Library, lim: SkipLimits, data: Bytes, format: Format, prefix: string, name: Option<string>,
      depth: nat, p: Plan)
    requires p == match format
             case Zip => ZipPlan(lib, lim, data, prefix, depth)
             case Tar => TarPlan(lib, lim, data, prefix, depth)
             case Gzip => GzipPlan(lib, lim, data, prefix, name, depth)
    ensures Found(lib, lim, data, format, prefix, name, depth) == Emitted(p.actions)
    ensures Broken(lib, lim, data, format, prefix, name, depth) == p.failure
  {
    assert ArchivePlan(lib, lim, data, format, prefix, name, depth) == Then([Open(depth)], p);
    EmittedConcat([Open(depth)], p.actions);
    EmittedOne(Open(depth));
  }

  /** A zip gives what its entries give, in order, up to the first that is broken; that one is the
      layer's error. */
  lemma ZipLayer(lib: Library, lim: SkipLimits, data: Bytes, prefix: string, name: Option<string>, depth: nat)
    returns (parts: seq<seq<Event>>)
    requires lib.zip(data).Success?
    ensures var items, n := lib.zip(data).value, |parts|;
            && n <= |items| && (forall i :: 0 <= i < n ==> items[i].ZipEntry?)
            && (forall i :: 0 <= i < n ==> ZipGives(lib, lim, items[i], prefix, depth, parts[i]))
            && Found(lib, lim, data, Zip, prefix, name, depth) == Flat(parts)
            && (n < |items| ==> items[n].BrokenZip?)
            && Broken(lib, lim, data, Zip, prefix, name, depth)
            == if n < |items| then Some(Corrupt(Zip, items[n].message)) else None
  {
    parts := ZipItemsGive(lib, lim, lib.zip(data).value, prefix, depth);
    LayerIs(lib, lim, data, Zip, prefix, name, depth, ZipPlan(lib, lim, data, prefix, depth));
  }

  lemma {:induction false} ZipItemsGive(lib: Library, lim: SkipLimits, items: seq<ZipItem>, prefix: string, depth: nat)
    returns (parts: seq<seq<Event>>)
    ensures var p, n := ZipItems(lib, lim, items, prefix, depth), |parts|;
            && n <= |items| && (forall i :: 0 <= i < n ==> items[i].ZipEntry?)
            && (forall i :: 0 <= i < n ==> ZipGives(lib, lim, items[i], prefix, depth, parts[i]))
            && Emitted(p.actions) == Flat(parts)
            && (n < |items| ==> items[n].BrokenZip?)
            && p.failure == if n < |items| then Some(Corrupt(Zip, items[n].message)) else None
    decreases |items|
  {
    if items == [] || items[0].BrokenZip? {
      parts := [];
    } else {
      var rest := ZipItemsGive(lib, lim, items[1..], prefix, depth);
      var acts := ZipEntryActions(lib, lim, items[0], prefix, depth);
      ZipGivesIts(lib, lim, items[0], prefix, depth);
      EmittedConcat(acts, ZipItems(lib, lim, items[1..], prefix, depth).actions);
      parts := [Emitted(acts)] + rest;
      assert parts[1..] == rest;
    }
  }

  /** The entry would be read, but its content breaks off. */
  ghost predicate BreaksOff(lim: SkipLimits, e: TarItem, prefix: string) {
    && e.TarEntry? && (e.kind == Regular || e.kind == Contiguous) && SafeName(e.safe) && !Noise(prefix + e.safe.value)
    && e.size <= lim.maxFileBytes && |e.stream.content| <= lim.maxFileBytes && e.stream.failure.Some?
  }

  /** The same of a tar, which an entry that breaks off ends too. */
  lemma TarLayer(lib: Library, lim: SkipLimits, data: Bytes, prefix: string, name: Option<string>, depth: nat)
    returns (parts: seq<seq<Event>>)
    requires lib.tar(data).Success?
    ensures var items, n := lib.tar(data).value, |parts|;
            && n <= |items| && (forall i :: 0 <= i < n ==> items[i].TarEntry? && !BreaksOff(lim, items[i], prefix))
            && (forall i :: 0 <= i < n ==> TarGives(lib, lim, items[i], prefix, depth, parts[i]))
            && Found(lib, lim, data, Tar, prefix, name, depth) == Flat(parts)
            && (n < |items| ==> items[n].BrokenTar? || BreaksOff(lim, items[n], prefix))
            && Broken(lib, lim, data, Tar, prefix, name, depth)
            == if n == |items| then None
               else Some(Corrupt(Tar, if items[n].BrokenTar? then items[n].message else items[n].stream.failure.value))
  {
    parts := TarItemsGive(lib, lim, lib.tar(data).value, prefix, depth);
    LayerIs(lib, lim, data, Tar, prefix, name, depth, TarPlan(lib, lim, data, prefix, depth));
  }

  lemma TarNext(lib: Library, lim: SkipLimits, items: seq<TarItem>, prefix: string, depth: nat)
    requires items != []
    ensures var e, p := items[0], TarItems(lib, lim, items, prefix, depth);
            if e.BrokenTar? then p == Plan([], Some(Corrupt(Tar, e.message)))
            else if BreaksOff(lim, e, prefix) then p == Plan([], Some(Corrupt(Tar, e.stream.failure.value)))
            else p == Then(TarEntryActions(lib, lim, e, prefix, depth), TarItems(lib, lim, items[1..], prefix, depth))
  {
    if items[0].TarEntry? && SafeName(items[0].safe) {
      NoiseIs(prefix + items[0].safe.value);
    }
  }

  lemma {:induction false} TarItemsGive(lib: Library, lim: SkipLimits, items: seq<TarItem>, prefix: string, depth: nat)
    returns (parts: seq<seq<Event>>)
    ensures var p, n := TarItems(lib, lim, items, prefix, depth), |parts|;
            && n <= |items| && (forall i :: 0 <= i < n ==> items[i].TarEntry? && !BreaksOff(lim, items[i], prefix))
            && (forall i :: 0 <= i < n ==> TarGives(lib, lim, items[i], prefix, depth, parts[i]))
            && Emitted(p.actions) == Flat(parts)
            && (n < |items| ==> items[n].BrokenTar? || BreaksOff(lim, items[n], prefix))
            && p.failure
            == if n == |items| then None
               else Some(Corrupt(Tar, if items[n].BrokenTar? then items[n].message else items[n].stream.failure.value))
    decreases |items|
  {
    if items == [] {
      parts := [];
    } else if items[0].BrokenTar? || BreaksOff(lim, items[0], prefix) {
      TarNext(lib, lim, items, prefix, depth);
      parts := [];
    } else {
      TarNext(lib, lim, items, prefix, depth);
      var rest := TarItemsGive(lib, lim, items[1..], prefix, depth);
      var acts := TarEntryActions(lib, lim, items[0], prefix, depth);
      TarGivesIts(lib, lim, items[0], prefix, depth);
      EmittedConcat(acts, TarItems(lib, lim, items[1..], prefix, depth).actions);
      parts := [Emitted(acts)] + rest;
      assert parts[1..] == rest;
    }
  }

  /** A zip or tar that cannot be read at all gives nothing. */
  lemma UnreadableLayer(lib: Library, lim: SkipLimits, data: Bytes, prefix: string, name: Option<string>, depth: nat)
    ensures lib.zip(data).Failure? ==>
              && Found(lib, lim, data, Zip, prefix, name, depth) == []
              && Broken(lib, lim, data, Zip, prefix, name, depth) == Some(Corrupt(Zip, lib.zip(data).error))
    ensures lib.tar(data).Failure? ==>
              && Found(lib, lim, data, Tar, prefix, name, depth) == []
              && Broken(lib, lim, data, Tar, prefix, name, depth) == Some(Corrupt(Tar, lib.tar(data).error))
  {
    LayerIs(lib, lim, data, Zip, prefix, name, depth, ZipPlan(lib, lim, data, prefix, depth));
    LayerIs(lib, lim, data, Tar, prefix, name, depth, TarPlan(lib, lim, data, prefix, depth));
    assert Emitted([]) == [];
  }

  /** A gzip stream that is too long or breaks off gives nothing; one that holds a tar gives what that
      tar gives, any other what its one file gives. */
  lemma GzipLayer(lib: Library, lim: SkipLimits, data: Bytes, prefix: string, name: Option<string>, depth: nat)
    ensures var s, broken := lib.gunzip(data), Broken(lib, lim, data, Gzip, prefix, name, depth);
            var events := Found(lib, lim, data, Gzip, prefix, name, depth);
            && (|s.content| > lim.maxFileBytes ==> events == [] && broken == Some(FileTooLarge(lim.maxFileBytes)))
            && (|s.content| <= lim.maxFileBytes && s.failure.Some? ==>
                  events == [] && broken == Some(Corrupt(Gzip, s.failure.value)))
            && (|s.content| <= lim.maxFileBytes && s.failure == None && TarMagic(s.content) ==>
                  && events == Found(lib, lim, s.content, Tar, prefix, name, depth)
                  && broken == Broken(lib, lim, s.content, Tar, prefix, name, depth))
            && (|s.content| <= lim.maxFileBytes && s.failure == None && !TarMagic(s.content) ==>
                  && FileGives(lib, lim, prefix + GunzippedFile(name), s.content, depth, events)
                  && broken == None)
  {
    var s, p := lib.gunzip(data), GzipPlan(lib, lim, data, prefix, name, depth);
    LayerIs(lib, lim, data, Gzip, prefix, name, depth, p);
    assert p.actions == [p.actions[0]] + p.actions[1..];
    EmittedConcat([p.actions[0]], p.actions[1..]);
    EmittedOne(p.actions[0]);
    TarMagicIs(s.content);
    if |s.content| <= lim.maxFileBytes && s.failure == None {
      if TarMagic(s.content) {
        var t := TarPlan(lib, lim, s.content, prefix, depth);
        LayerIs(lib, lim, s.content, Tar, prefix, name, depth, t);
        assert p.actions[1..] == t.actions;
      } else {
        assert p.actions[1..] == FileActions(lib, lim, prefix + GunzippedFile(name), s.content, depth);
        FileGivesIts(lib, lim, prefix + GunzippedFile(name), s.content, depth);
      }
    } else {
      assert p.actions[1..] == [] && Emitted([]) == [];
    }
  }

  lemma TarMagicIs(data: Bytes)
    ensures IsTar(data) <==> TarMagic(data)
  {
    if |data| >= 262 {
      var at := data[257..262];
      assert at[0] == data[257] && at[1] == data[258] && at[2] == data[259] && at[3] == data[260] && at[4] == data[261];
    }
  }

  // ---------------------------------------------------------------- whole walks

  /** A walk that nothing stops hands over everything the archive gives: under limits that all its files
      and reads fit, and with a sink that lets it go on. */
  lemma {:induction false} AllHandedOver(lim: Limits, st: State, actions: seq<Action>)
    requires st.files + |actions| <= lim.maxFiles && st.decompressed + ReadBytes(actions) <= lim.maxTotalBytes
    ensures Exec(lim, QUIET, st, actions).stop == None
    ensures Exec(lim, QUIET, st, actions).state.handed == st.handed + Emitted(actions)
    decreases |actions|
  {
    if actions == [] {
      assert Emitted(actions) == [];
    } else {
      var a, rest := actions[0], actions[1..];
      assert [a] + rest == actions;
      GoesOn(lim, st, a);
      ExecFirst(lim, QUIET, st, a, rest);
      AllHandedOver(lim, Perform(lim, QUIET, st, a).state, rest);
      EmittedConcat([a], rest);
      assert st.handed + Emitted([a]) + Emitted(rest) == st.handed + (Emitted([a]) + Emitted(rest));
    }
  }

  /** One action that fits. */
  lemma GoesOn(lim: Limits, st: State, a: Action)
    requires st.files + 1 <= lim.maxFiles
    requires st.decompressed + (if a.Read? then a.produced else 0) <= lim.maxTotalBytes
    ensures var o := Perform(lim, QUIET, st, a);
            && o.stop == None && o.state.handed == st.handed + Emitted([a]) && o.state.files <= st.files + 1
            && o.state.decompressed <= st.decompressed + if a.Read? then a.produced else 0
  {
    EmittedOne(a);
  }

  lemma WalkHandsOverAll(lib: Library, lim: Limits, data: Bytes, format: Format, name: Option<string>, o: Outcome)
    requires WalkOutcome(lib, lim, QUIET, data, format, name, o)
    requires var acts := ArchivePlan(lib, lim.Skips(), data, format, "", name, 1).actions;
             |acts| <= lim.maxFiles && ReadBytes(acts) <= lim.maxTotalBytes
    ensures o.stop == None && o.state.handed == Found(lib, lim.Skips(), data, format, "", name, 1)
  {
    var acts := ArchivePlan(lib, lim.Skips(), data, format, "", name, 1).actions;
    AllHandedOver(lim, State(0, 0, 0, []), acts);
    assert [] + Emitted(acts) == Emitted(acts);
  }

  /** Content that is handed over as it is: some bytes, not too many, that are no archive. */
  ghost predicate PlainContent(lim: SkipLimits, path: string, data: Bytes) {
    1 <= |data| <= lim.maxFileBytes && forall f :: !Carries(data, path, f)
  }

  ghost predicate PlainZip(lim: SkipLimits, e: ZipItem, prefix: string) {
    && e.ZipEntry? && !e.isDir && SafeName(e.safe) && ZipIsRead(lim, e, prefix + e.safe.value)
    && e.stream.Success? && e.stream.value.failure == None
    && PlainContent(lim, prefix + e.safe.value, e.stream.value.content)
  }

  ghost predicate PlainTar(lim: SkipLimits, e: TarItem, prefix: string) {
    && e.TarEntry? && (e.kind == Regular || e.kind == Contiguous) && SafeName(e.safe) && !Noise(prefix + e.safe.value)
    && e.size <= lim.maxFileBytes && e.stream.failure == None
    && PlainContent(lim, prefix + e.safe.value, e.stream.content)
  }

  /** The event hands over this entry, under its name with its bytes. */
  predicate IsZipFile(e: ZipItem, prefix: string, event: Event) {
    && e.ZipEntry? && e.safe.Some? && e.stream.Success?
    && event == File(prefix + e.safe.value, e.stream.value.content)
  }

  predicate IsTarFile(e: TarItem, prefix: string, event: Event) {
    e.TarEntry? && e.safe.Some? && event == File(prefix + e.safe.value, e.stream.content)
  }

  function ZipBytes(items: seq<ZipItem>): nat {
    if items == [] then 0
    else
      var content := if items[0].ZipEntry? && items[0].stream.Success? then items[0].stream.value.content else [];
      |content| + ZipBytes(items[1..])
  }

  lemma PlainFileIs(lib: Library, lim: SkipLimits, path: string, data: Bytes, depth: nat)
    requires PlainContent(lim, path, data)
    ensures FileActions(lib, lim, path, data, depth) == [Emit(File(path, data))]
  {
    if NestedFormat(data, path).Some? {
      CarriesIsFormat(data, path, NestedFormat(data, path).value);
    }
  }

  lemma PlainZipIs(lib: Library, lim: SkipLimits, e: ZipItem, prefix: string, depth: nat)
    requires PlainZip(lim, e, prefix)
    ensures ZipEntryActions(lib, lim, e, prefix, depth)
         == [Read(|e.stream.value.content|, true), Emit(File(prefix + e.safe.value, e.stream.value.content))]
  {
    var path, content := prefix + e.safe.value, e.stream.value.content;
    NoiseIs(path);
    PlainFileIs(lib, lim, path, content, depth);
    PassedZip(lib, lim, e, prefix, path, depth);
    assert [Read(|content|, true)] + [Emit(File(path, content))] == [Read(|content|, true), Emit(File(path, content))];
  }

  lemma PassedZip(lib: Library, lim: SkipLimits, e: ZipItem, prefix: string, path: string, depth: nat)
    requires e.ZipEntry? && !e.isDir && !e.isSymlink && SafeName(e.safe)
    requires path == prefix + e.safe.value && !IsNoise(path) && e.declared <= lim.maxFileBytes
    requires e.stream.Success? && e.stream.value.failure == None && |e.stream.value.content| <= lim.maxFileBytes
    ensures ZipEntryActions(lib, lim, e, prefix, depth)
         == [Read(|e.stream.value.content|, true)] + FileActions(lib, lim, path, e.stream.value.content, depth)
  {
    var acts := ZipContentActions(lib, lim, path, e.stream.value, depth);
    assert ZipFileActions(lib, lim, e, path, depth) == acts;
  }

  lemma PlainZipNext(lib: Library, lim: SkipLimits, items: seq<ZipItem>, prefix: string, depth: nat)
    requires items != [] && PlainZip(lim, items[0], prefix)
    ensures ZipItems(lib, lim, items, prefix, depth)
         == Then([Read(|items[0].stream.value.content|, true),
                  Emit(File(prefix + items[0].safe.value, items[0].stream.value.content))],
              ZipItems(lib, lim, items[1..], prefix, depth))
  {
    PlainZipIs(lib, lim, items[0], prefix, depth);
  }

  /** The state after reading and handing over one file. */
  lemma HandedOne(lim: Limits, st: State, path: string, data: Bytes, rest: seq<Action>)
    requires st.files < lim.maxFiles && st.decompressed + |data| <= lim.maxTotalBytes
    ensures var st' := State(st.files + 1, st.skipped, st.decompressed + |data|, st.handed + [File(path, data)]);
            Exec(lim, QUIET, st, [Read(|data|, true), Emit(File(path, data))] + rest) == Exec(lim, QUIET, st', rest)
  {
    var read := State(st.files, st.skipped, st.decompressed + |data|, st.handed);
    assert Perform(lim, QUIET, st, Read(|data|, true)) == Outcome(read, None);
    ExecFirst(lim, QUIET, st, Read(|data|, true), [Emit(File(path, data))] + rest);
    HandedEvent(lim, read, File(path, data), rest);
    assert [Read(|data|, true), Emit(File(path, data))] + rest
        == [Read(|data|, true)] + ([Emit(File(path, data))] + rest);
  }

  function ZipFile(e: ZipItem, prefix: string): Event {
    if e.ZipEntry? && e.safe.Some? && e.stream.Success? then File(prefix + e.safe.value, e.stream.value.content)
    else Skipped("", "")
  }

  function ZipFiles(items: seq<ZipItem>, prefix: string): (r: seq<Event>)
    ensures |r| == |items| && forall i :: 0 <= i < |items| ==> r[i] == ZipFile(items[i], prefix)
  {
    if items == [] then [] else [ZipFile(items[0], prefix)] + ZipFiles(items[1..], prefix)
  }

  lemma {:induction false} PlainZipRun(lib: Library, lim: Limits, st: State, items: seq<ZipItem>, prefix: string,
      depth: nat)
    requires forall e :: e in items ==> PlainZip(lim.Skips(), e, prefix)
    requires st.files + |items| <= lim.maxFiles && st.decompressed + ZipBytes(items) <= lim.maxTotalBytes
    ensures var p := ZipItems(lib, lim.Skips(), items, prefix, depth);
            var o := Exec(lim, QUIET, st, p.actions);
            && o.stop == None && p.failure == None
            && o.state.files == st.files + |items| && o.state.skipped == st.skipped
            && o.state.handed == st.handed + ZipFiles(items, prefix)
    decreases |items|
  {
    if items == [] {
      assert Exec(lim, QUIET, st, []) == Outcome(st, None);
    } else {
      var e := items[0];
      assert e in items;
      PlainZipNext(lib, lim.Skips(), items, prefix, depth);
      var path, content := prefix + e.safe.value, e.stream.value.content;
      HandedOne(lim, st, path, content, ZipItems(lib, lim.Skips(), items[1..], prefix, depth).actions);
      var st' := State(st.files + 1, st.skipped, st.decompressed + |content|, st.handed + [File(path, content)]);
      PlainZipRun(lib, lim, st', items[1..], prefix, depth);
      Reassociate(st.handed, File(path, content), ZipFiles(items[1..], prefix));
    }
  }

  lemma Reassociate(a: seq<Event>, e: Event, b: seq<Event>)
    ensures a + [e] + b == a + ([e] + b)
  {
  }

  /** A zip of plain files, within the limits, is handed over file by file, in order, and nothing else:
      each entry under its own name with its own bytes. */
  lemma PlainZipWalk(lib: Library, lim: Limits, data: Bytes, name: Option<string>, prefix: string, o: Outcome)
    requires prefix == "" && WalkOutcome(lib, lim, QUIET, data, Zip, name, o)
    requires lib.zip(data).Success? && forall e :: e in lib.zip(data).value ==> PlainZip(lim.Skips(), e, prefix)
    requires |lib.zip(data).value| <= lim.maxFiles && ZipBytes(lib.zip(data).value) <= lim.maxTotalBytes
    ensures var items := lib.zip(data).value;
            && o.stop == None && o.state.files == |items| == |o.state.handed| && o.state.skipped == 0
            && forall i :: 0 <= i < |items| ==> IsZipFile(items[i], "", o.state.handed[i])
  {
    var st, items := State(0, 0, 0, []), lib.zip(data).value;
    var acts := ZipItems(lib, lim.Skips(), items, prefix, 1).actions;
    OpensThen(lib, lim, st, data, Zip, prefix, name, 1, ZipPlan(lib, lim.Skips(), data, prefix, 1));
    PlainZipRun(lib, lim, st, items, prefix, 1);
    forall i | 0 <= i < |items| ensures IsZipFile(items[i], "", ZipFiles(items, prefix)[i]) {
      assert items[i] in items && PlainZip(lim.Skips(), items[i], prefix);
    }
  }

  lemma OpensThen(lib: Library, lim: Limits, st: State, data: Bytes, format: Format, prefix: string,
      name: Option<string>,
      depth: nat, p: Plan)
    requires ArchivePlan(lib, lim.Skips(), data, format, prefix, name, depth) == Then([Open(depth)], p)
    ensures Exec(lim, QUIET, st, ArchivePlan(lib, lim.Skips(), data, format, prefix, name, depth).actions)
         == Exec(lim, QUIET, st, p.actions)
  {
    assert ([Open(depth)] + p.actions)[1..] == p.actions;
  }

  lemma PlainTarIs(lib: Library, lim: SkipLimits, e: TarItem, prefix: string, depth: nat)
    requires PlainTar(lim, e, prefix)
    ensures TarEntryActions(lib, lim, e, prefix, depth) == [Emit(File(prefix + e.safe.value, e.stream.content))]
  {
    var path := prefix + e.safe.value;
    NoiseIs(path);
    PlainFileIs(lib, lim, path, e.stream.content, depth);
    PassedTar(lib, lim, e, prefix, path, depth);
  }

  /** Nothing in its header keeps the entry from being read. */
  lemma PassedTar(lib: Library, lim: SkipLimits, e: TarItem, prefix: string, path: string, depth: nat)
    requires e.TarEntry? && (e.kind == Regular || e.kind == Contiguous) && SafeName(e.safe)
    requires path == prefix + e.safe.value && !IsNoise(path)
    requires e.size <= lim.maxFileBytes && |e.stream.content| <= lim.maxFileBytes
    ensures TarEntryActions(lib, lim, e, prefix, depth) == FileActions(lib, lim, path, e.stream.content, depth)
  {
    assert TarFileActions(lib, lim, e, path, depth) == FileActions(lib, lim, path, e.stream.content, depth);
  }

  lemma PlainTarNext(lib: Library, lim: SkipLimits, items: seq<TarItem>, prefix: string, depth: nat)
    requires items != [] && PlainTar(lim, items[0], prefix)
    ensures var event := File(prefix + items[0].safe.value, items[0].stream.content);
            TarItems(lib, lim, items, prefix, depth)
                == Then([Emit(event)], TarItems(lib, lim, items[1..], prefix, depth))
  {
    PlainTarIs(lib, lim, items[0], prefix, depth);
  }

  function TarFile(e: TarItem, prefix: string): Event {
    if e.TarEntry? && e.safe.Some? then File(prefix + e.safe.value, e.stream.content) else Skipped("", "")
  }

  function TarFiles(items: seq<TarItem>, prefix: string): (r: seq<Event>)
    ensures |r| == |items| && forall i :: 0 <= i < |items| ==> r[i] == TarFile(items[i], prefix)
  {
    if items == [] then [] else [TarFile(items[0], prefix)] + TarFiles(items[1..], prefix)
  }

  lemma {:induction false} PlainTarRun(lib: Library, lim: Limits, st: State, items: seq<TarItem>, prefix: string,
      depth: nat)
    requires forall e :: e in items ==> PlainTar(lim.Skips(), e, prefix)
    requires st.files + |items| <= lim.maxFiles
    ensures var p := TarItems(lib, lim.Skips(), items, prefix, depth);
            var o := Exec(lim, QUIET, st, p.actions);
            && o.stop == None && p.failure == None
            && o.state.files == st.files + |items| && o.state.skipped == st.skipped
            && o.state.handed == st.handed + TarFiles(items, prefix)
    decreases |items|
  {
    if items == [] {
      assert Exec(lim, QUIET, st, []) == Outcome(st, None);
    } else {
      var e := items[0];
      assert e in items;
      PlainTarNext(lib, lim.Skips(), items, prefix, depth);
      var event := File(prefix + e.safe.value, e.stream.content);
      HandedEvent(lim, st, event, TarItems(lib, lim.Skips(), items[1..], prefix, depth).actions);
      var st' := State(st.files + 1, st.skipped, st.decompressed, st.handed + [event]);
      PlainTarRun(lib, lim, st', items[1..], prefix, depth);
      Reassociate(st.handed, event, TarFiles(items[1..], prefix));
    }
  }

  lemma HandedEvent(lim: Limits, st: State, event: Event, rest: seq<Action>)
    requires event.File? && st.files < lim.maxFiles
    ensures var st' := State(st.files + 1, st.skipped, st.decompressed, st.handed + [event]);
            Exec(lim, QUIET, st, [Emit(event)] + rest) == Exec(lim, QUIET, st', rest)
  {
    var st' := State(st.files + 1, st.skipped, st.decompressed, st.handed + [event]);
    assert Perform(lim, QUIET, st, Emit(event)) == Outcome(st', None);
    ExecFirst(lim, QUIET, st, Emit(event), rest);
  }

  /** An action that does not stop the walk. */
  lemma ExecFirst(lim: Limits, sink: Sink, st: State, a: Action, rest: seq<Action>)
    requires Perform(lim, sink, st, a).stop == None
    ensures Exec(lim, sink, st, [a] + rest) == Exec(lim, sink, Perform(lim, sink, st, a).state, rest)
  {
    assert ([a] + rest)[1..] == rest;
  }

  /** The same of a tar. */
  lemma PlainTarWalk(lib: Library, lim: Limits, data: Bytes, name: Option<string>, prefix: string, o: Outcome)
    requires prefix == "" && WalkOutcome(lib, lim, QUIET, data, Tar, name, o)
    requires lib.tar(data).Success? && forall e :: e in lib.tar(data).value ==> PlainTar(lim.Skips(), e, prefix)
    requires |lib.tar(data).value| <= lim.maxFiles
    ensures var items := lib.tar(data).value;
            && o.stop == None && o.state.files == |items| == |o.state.handed| && o.state.skipped == 0
            && forall i :: 0 <= i < |items| ==> IsTarFile(items[i], "", o.state.handed[i])
  {
    var st, items := State(0, 0, 0, []), lib.tar(data).value;
    OpensThen(lib, lim, st, data, Tar, prefix, name, 1, TarPlan(lib, lim.Skips(), data, prefix, 1));
    PlainTarRun(lib, lim, st, items, prefix, 1);
    forall i | 0 <= i < |items| ensures IsTarFile(items[i], "", TarFiles(items, prefix)[i]) {
      assert items[i] in items && PlainTar(lim.Skips(), items[i], prefix);
    }
  }
}
