/** Reading archives: what an archive holds, as a list of actions that depends on its bytes
    alone, and the walker, which performs those actions under the global limits. */
module Archive {
  import opened Wrappers
  import opened Text

  datatype Format = Zip | Tar | Gzip

  datatype Limits = Limits(maxFiles: nat, maxFileBytes: nat, maxTotalBytes: nat, maxDepth: nat)
  {
    /** The limits that skip a file or nested archive instead of ending the walk. */
    function Skips(): SkipLimits {
      SkipLimits(maxFileBytes, maxDepth)
    }
  }

  datatype SkipLimits = SkipLimits(maxFileBytes: nat, maxDepth: nat)

  datatype Event =
    | File(path: string, data: Bytes)
    | Skipped(path: string, reason: string)

  datatype ArchiveError =
    | Corrupt(format: Format, message: string)
    | TooManyFiles(limit: nat)
    | TooLarge(limit: nat)
    | FileTooLarge(limit: nat)
    | Stopped(message: string)
  {
    /** The error concerns only the archive being read. */
    predicate IsLocal() {
      Corrupt? || FileTooLarge?
    }
  }

  // ---------------------------------------------------------------- the decoding libraries

  /** A decompressing reader: it gives `content`, then ends or fails. */
  datatype Stream = Stream(content: Bytes, failure: Option<string>)

  datatype ZipItem =
    | BrokenZip(message: string)
    | ZipEntry(rawName: string, safe: Option<string>, isDir: bool, isSymlink: bool, declared: nat,
               stream: Result<Stream, string>)

  datatype TarKind = Dir | Symlink | HardLink | Regular | Contiguous | Other

  datatype TarItem =
    | BrokenTar(message: string)
    | TarEntry(rawName: string, safe: Option<string>, kind: TarKind, size: nat, stream: Stream)

  /** What the zip, tar and gzip crates make of some bytes. Any functions will do: an archive may
      contain itself. */
  datatype Library = Library(
    zip: Bytes -> Result<seq<ZipItem>, string>,
    tar: Bytes -> Result<seq<TarItem>, string>,
    gunzip: Bytes -> Stream)

  // ---------------------------------------------------------------- names and formats

  const USTAR: Bytes := [0x75, 0x73, 0x74, 0x61, 0x72]

  predicate IsTar(data: Bytes) {
    |data| >= 262 && data[257..262] == USTAR
  }

  function Sniff(data: Bytes): Option<Format> {
    if [0x1f, 0x8b] <= data then Some(Gzip)
    else if [0x50, 0x4b, 0x03, 0x04] <= data || [0x50, 0x4b, 0x05, 0x06] <= data then Some(Zip)
    else if IsTar(data) then Some(Tar)
    else None
  }

  predicate HasExtension(path: string, ext: string) {
    var base := Basename(path);
    var dot := LastIndex(base, '.');
    dot >= 0 && Lower(base[dot + 1..]) == ext
  }

  /** How a file met on the walk is opened, if at all. Office documents are zips too, so a zip needs
      its extension. */
  function NestedFormat(data: Bytes, path: string): Option<Format> {
    match Sniff(data)
    case Some(Zip) => if HasExtension(path, "zip") then Some(Zip) else None
    case other => other
  }

  function GunzippedName(name: string): string {
    var base := Basename(name);
    var lower := Lower(base);
    if EndsWith(lower, ".tgz") then base[..|base| - 4] + ".tar"
    else if EndsWith(lower, ".gz") && |base| > 3 then base[..|base| - 3]
    else base
  }

  predicate IsNoise(path: string) {
    var base := Basename(path);
    || "__MACOSX" in Split(path, '/')
    || "._" <= base
    || base == ".DS_Store" || base == "Thumbs.db" || base == "desktop.ini"
  }

  function TooLargeReason(lim: SkipLimits): string {
    "larger than " + Dec(lim.maxFileBytes) + " bytes"
  }

  function Unreadable(message: string): string {
    "unreadable: " + message
  }

  function Label(f: Format): string {
    match f
    case Zip => "zip"
    case Tar => "tar"
    case Gzip => "gzip"
  }

  /** The message of a local error. */
  function Describe(e: ArchiveError): string {
    match e
    case Corrupt(f, m) => "not a readable " + Label(f) + " archive: " + m
    case FileTooLarge(n) => "the file expands to more than " + Dec(n) + " bytes"
    case TooManyFiles(n) => "the archive holds more than " + Dec(n) + " files"
    case TooLarge(n) => "the archive expands to more than " + Dec(n) + " bytes"
    case Stopped(m) => m
  }

  /** Where the entries of a nested archive at `path` go, and its own name. A gzip stream's file
      takes the stream's place. */
  function NestedPlace(format: Format, path: string): (string, string) {
    var slash := LastIndex(path, '/');
    if format == Gzip then (path[..slash + 1], path[slash + 1..])
    else (path + "/", Basename(path))
  }

  // ---------------------------------------------------------------- what an archive holds

  /** `Open` opens a layer; `Read` reads a stream, `produced` bytes of it, counted when accepted;
      `Emit` hands an event to the sink. */
  datatype Action =
    | Open(depth: nat)
    | Read(produced: nat, counted: bool)
    | Emit(event: Event)

  /** A layer's actions, and the local error that ends it, if any. */
  datatype Plan = Plan(actions: seq<Action>, failure: Option<ArchiveError>)

  function Then(a: seq<Action>, p: Plan): Plan {
    Plan(a + p.actions, p.failure)
  }

  function DepthLeft(lim: SkipLimits, depth: nat): nat {
    if depth < lim.maxDepth then lim.maxDepth - depth else 0
  }

  function ArchivePlan(lib: Library, lim: SkipLimits, data: Bytes, format: Format, prefix: string,
      name: Option<string>, depth: nat): Plan
    decreases DepthLeft(lim, depth), 5, 0
  {
    Then([Open(depth)],
      match format
      case Zip => ZipPlan(lib, lim, data, prefix, depth)
      case Tar => TarPlan(lib, lim, data, prefix, depth)
      case Gzip => GzipPlan(lib, lim, data, prefix, name, depth))
  }

  function ZipPlan(lib: Library, lim: SkipLimits, data: Bytes, prefix: string, depth: nat): Plan
    decreases DepthLeft(lim, depth), 3, 0
  {
    match lib.zip(data)
    case Failure(m) => Plan([], Some(Corrupt(Zip, m)))
    case Success(items) => ZipItems(lib, lim, items, prefix, depth)
  }

  function ZipItems(lib: Library, lim: SkipLimits, items: seq<ZipItem>, prefix: string, depth: nat): Plan
    decreases DepthLeft(lim, depth), 2, |items|
  {
    if items == [] then Plan([], None)
    else
      match items[0]
      case BrokenZip(m) => Plan([], Some(Corrupt(Zip, m)))
      case ZipEntry(_, _, _, _, _, _) =>
        Then(ZipEntryActions(lib, lim, items[0], prefix, depth), ZipItems(lib, lim, items[1..], prefix, depth))
  }

  function ZipEntryActions(lib: Library, lim: SkipLimits, e: ZipItem, prefix: string, depth: nat): seq<Action>
    requires e.ZipEntry?
    decreases DepthLeft(lim, depth), 1, 0
  {
    if e.isDir then []
    else if e.safe == None || e.safe.value == "" then [Emit(Skipped(prefix + e.rawName, "unsafe path"))]
    else if IsNoise(prefix + e.safe.value) then []
    else ZipFileActions(lib, lim, e, prefix + e.safe.value, depth)
  }

  /** A zip entry under a safe path. */
  function ZipFileActions(lib: Library, lim: SkipLimits, e: ZipItem, path: string, depth: nat): seq<Action>
    requires e.ZipEntry?
    decreases DepthLeft(lim, depth), 0, 2
  {
    if e.isSymlink then [Emit(Skipped(path, "symbolic link"))]
    else if e.declared > lim.maxFileBytes then [Emit(Skipped(path, TooLargeReason(lim)))]
    else
      match e.stream
      case Failure(m) => [Emit(Skipped(path, Unreadable(m)))]
      case Success(s) => ZipContentActions(lib, lim, path, s, depth)
  }

  /** A zip entry that could be opened: it is read, and goes on as a file when all of it was. */
  function ZipContentActions(lib: Library, lim: SkipLimits, path: string, s: Stream, depth: nat): seq<Action>
    decreases DepthLeft(lim, depth), 0, 1
  {
    if |s.content| > lim.maxFileBytes then
      [Read(lim.maxFileBytes + 1, false), Emit(Skipped(path, TooLargeReason(lim)))]
    else if s.failure.Some? then
      [Read(|s.content|, false), Emit(Skipped(path, Unreadable(s.failure.value)))]
    else
      [Read(|s.content|, true)] + FileActions(lib, lim, path, s.content, depth)
  }

  function TarPlan(lib: Library, lim: SkipLimits, data: Bytes, prefix: string, depth: nat): Plan
    decreases DepthLeft(lim, depth), 3, 0
  {
    match lib.tar(data)
    case Failure(m) => Plan([], Some(Corrupt(Tar, m)))
    case Success(items) => TarItems(lib, lim, items, prefix, depth)
  }

  function TarItems(lib: Library, lim: SkipLimits, items: seq<TarItem>, prefix: string, depth: nat): Plan
    decreases DepthLeft(lim, depth), 2, |items|
  {
    if items == [] then Plan([], None)
    else
      match items[0]
      case BrokenTar(m) => Plan([], Some(Corrupt(Tar, m)))
      case TarEntry(_, _, _, _, s) =>
        if TarReads(lim, items[0], prefix) && |s.content| <= lim.maxFileBytes && s.failure.Some? then
          Plan([], Some(Corrupt(Tar, s.failure.value)))
        else
          Then(TarEntryActions(lib, lim, items[0], prefix, depth), TarItems(lib, lim, items[1..], prefix, depth))
  }

  /** The entry's content is read: nothing in its header makes the walker pass over it. */
  predicate TarReads(lim: SkipLimits, e: TarItem, prefix: string)
    requires e.TarEntry?
  {
    && (e.kind == Regular || e.kind == Contiguous)
    && e.safe.Some? && e.safe.value != "" && !IsNoise(prefix + e.safe.value)
    && e.size <= lim.maxFileBytes
  }

  function TarEntryActions(lib: Library, lim: SkipLimits, e: TarItem, prefix: string, depth: nat): seq<Action>
    requires e.TarEntry?
    decreases DepthLeft(lim, depth), 1, 0
  {
    if e.kind == Dir then []
    else if e.safe == None || e.safe.value == "" then [Emit(Skipped(prefix + e.rawName, "unsafe path"))]
    else if IsNoise(prefix + e.safe.value) then []
    else TarFileActions(lib, lim, e, prefix + e.safe.value, depth)
  }

  /** A tar entry under a safe path. */
  function TarFileActions(lib: Library, lim: SkipLimits, e: TarItem, path: string, depth: nat): seq<Action>
    requires e.TarEntry? && e.kind != Dir
    decreases DepthLeft(lim, depth), 0, 1
  {
    if e.kind == Symlink || e.kind == HardLink then [Emit(Skipped(path, "link"))]
    else if e.kind == Other then []
    else if e.size > lim.maxFileBytes || |e.stream.content| > lim.maxFileBytes then
      [Emit(Skipped(path, TooLargeReason(lim)))]
    else FileActions(lib, lim, path, e.stream.content, depth)
  }

  function GzipPlan(lib: Library, lim: SkipLimits, data: Bytes, prefix: string, name: Option<string>, depth: nat): Plan
    decreases DepthLeft(lim, depth), 4, 0
  {
    var s := lib.gunzip(data);
    if |s.content| > lim.maxFileBytes then
      Plan([Read(lim.maxFileBytes + 1, false)], Some(FileTooLarge(lim.maxFileBytes)))
    else if s.failure.Some? then
      Plan([Read(|s.content|, false)], Some(Corrupt(Gzip, s.failure.value)))
    else
      Then([Read(|s.content|, true)],
        if IsTar(s.content) then TarPlan(lib, lim, s.content, prefix, depth)
        else Plan(FileActions(lib, lim, prefix + GunzippedFile(name), s.content, depth), None))
  }

  function GunzippedFile(name: Option<string>): string {
    match name
    case Some(n) => GunzippedName(n)
    case None => "file"
  }

  /** A file: opened when it is an archive, else handed over. A nested archive that turns out
      unreadable is reported as skipped after whatever it gave. */
  function FileActions(lib: Library, lim: SkipLimits, path: string, data: Bytes, depth: nat): seq<Action>
    decreases DepthLeft(lim, depth), 0, 0
  {
    if data == [] then [Emit(Skipped(path, "empty file"))]
    else
      match NestedFormat(data, path)
      case None => [Emit(File(path, data))]
      case Some(format) =>
        if depth >= lim.maxDepth then
          [Emit(Skipped(path, "archive nested more than " + Dec(lim.maxDepth) + " levels deep"))]
        else
          var (prefix, name) := NestedPlace(format, path);
          var p := ArchivePlan(lib, lim, data, format, prefix, Some(name), depth + 1);
          p.actions + (if p.failure.Some? then [Emit(Skipped(path, Describe(p.failure.value)))] else [])
  }

  // ---------------------------------------------------------------- performing the actions

  /** The walk's totals and everything handed to the sink. */
  datatype State = State(files: nat, skipped: nat, decompressed: nat, handed: seq<Event>)

  /** The sink's answer to the last event of what it was handed: a message to stop, or none. */
  type Sink = seq<Event> -> Option<string>

  datatype Outcome = Outcome(state: State, stop: Option<ArchiveError>)

  function Hand(sink: Sink, st: State, e: Event): Outcome {
    var st' := st.(handed := st.handed + [e]);
    Outcome(st', match sink(st'.handed) case None => None case Some(m) => Some(Stopped(m)))
  }

  function BytesLeft(lim: Limits, decompressed: nat): nat {
    if decompressed <= lim.maxTotalBytes then lim.maxTotalBytes - decompressed else 0
  }

  function Perform(lim: Limits, sink: Sink, st: State, a: Action): Outcome {
    match a
    case Open(_) => Outcome(st, None)
    case Read(n, counted) =>
      if n > BytesLeft(lim, st.decompressed) then Outcome(st, Some(TooLarge(lim.maxTotalBytes)))
      else Outcome(if counted then st.(decompressed := st.decompressed + n) else st, None)
    case Emit(File(p, d)) =>
      if st.files >= lim.maxFiles then Outcome(st, Some(TooManyFiles(lim.maxFiles)))
      else Hand(sink, st.(files := st.files + 1), File(p, d))
    case Emit(Skipped(p, r)) => Hand(sink, st.(skipped := st.skipped + 1), Skipped(p, r))
  }

  /** The actions in turn, up to the first that stops the walk. */
  function Exec(lim: Limits, sink: Sink, st: State, actions: seq<Action>): Outcome
    decreases |actions|
  {
    if actions == [] then Outcome(st, None)
    else
      var o := Perform(lim, sink, st, actions[0]);
      if o.stop.Some? then o else Exec(lim, sink, o.state, actions[1..])
  }

  /** What a layer returns: the error that stopped the walk, else the layer's own. */
  function Verdict(o: Outcome, failure: Option<ArchiveError>): Result<(), ArchiveError> {
    if o.stop.Some? then Failure(o.stop.value)
    else if failure.Some? then Failure(failure.value)
    else Success(())
  }

  lemma {:induction false} ExecConcat(lim: Limits, sink: Sink, st: State, a: seq<Action>, b: seq<Action>)
    ensures var o := Exec(lim, sink, st, a);
            Exec(lim, sink, st, a + b) == if o.stop.Some? then o else Exec(lim, sink, o.state, b)
    decreases |a|
  {
    if a == [] {
      assert a + b == b;
    } else {
      assert (a + b)[1..] == a[1..] + b;
      var o := Perform(lim, sink, st, a[0]);
      if o.stop.None? {
        ExecConcat(lim, sink, o.state, a[1..], b);
      }
    }
  }

  lemma ExecOne(lim: Limits, sink: Sink, st: State, a: Action)
    ensures Exec(lim, sink, st, [a]) == Perform(lim, sink, st, a)
  {
    var o := Perform(lim, sink, st, a);
    assert Exec(lim, sink, o.state, []) == Outcome(o.state, None);
  }
}
