/** What the walker reads off names and first bytes, told by characters and positions. */
module ArchiveNames {
  import opened Wrappers
  import opened Text
  import opened Archive

  // ---------------------------------------------------------------- paths

  /** `dir` is everything up to the last slash, `base` what follows. */
  predicate SplitsAt(path: string, dir: string, base: string) {
    path == dir + base && '/' !in base && (dir == "" || dir[|dir| - 1] == '/')
  }

  /** A path splits in one way. */
  lemma SplitIsUnique(path: string, dir: string, base: string)
    requires SplitsAt(path, dir, base)
    ensures LastIndex(path, '/') == |dir| - 1 && Basename(path) == base
    ensures path[..|dir|] == dir && path[|dir|..] == base
  {
    assert forall k :: |dir| <= k < |path| ==> path[k] == base[k - |dir|];
    assert dir != "" ==> path[|dir| - 1] == '/';
  }

  lemma BasenameIs(path: string, dir: string, base: string)
    requires SplitsAt(path, dir, base)
    ensures Basename(path) == base
  {
    SplitIsUnique(path, dir, base);
  }

  lemma SplitExists(path: string) returns (dir: string, base: string)
    ensures SplitsAt(path, dir, base)
  {
    var slash := LastIndex(path, '/');
    dir, base := path[..slash + 1], Basename(path);
    assert slash >= 0 ==> dir[slash] == path[slash];
    assert path == dir + base;
  }

  /** From `i` to `j` stands a whole component of the path. */
  predicate ComponentAt(path: string, i: nat, j: nat) {
    && i <= j <= |path| && (forall m :: i <= m < j ==> path[m] != '/')
    && (i == 0 || path[i - 1] == '/') && (j == |path| || path[j] == '/')
  }

  predicate HasComponent(path: string, part: string) {
    exists i, j :: 0 <= i <= j <= |path| && ComponentAt(path, i, j) && path[i..j] == part
  }

  /** Splitting gives exactly the components. */
  lemma {:induction false} SplitHasComponents(path: string, part: string)
    ensures part in Split(path, '/') <==> HasComponent(path, part)
    decreases |path|
  {
    var k := LastIndex(path, '/');
    if k < 0 {
      assert path[0..|path|] == path;
      assert ComponentAt(path, 0, |path|);
      if HasComponent(path, part) {
        var i, j :| 0 <= i <= j <= |path| && ComponentAt(path, i, j) && path[i..j] == part;
        assert i == 0 && j == |path|;
        assert path[i..j] == path;
      }
    } else {
      var head, last := path[..k], path[k + 1..];
      SplitHasComponents(head, part);
      if part in Split(path, '/') {
        ComponentOfWhole(path, part, k);
      }
      if HasComponent(path, part) {
        ComponentOfHead(path, part, k);
      }
    }
  }

  lemma ComponentOfWhole(path: string, part: string, k: nat)
    requires k < |path| && path[k] == '/' && forall m :: k < m < |path| ==> path[m] != '/'
    requires HasComponent(path[..k], part) || part == path[k + 1..]
    ensures HasComponent(path, part)
  {
    if HasComponent(path[..k], part) {
      var i, j :| 0 <= i <= j <= |path[..k]| && ComponentAt(path[..k], i, j) && path[..k][i..j] == part;
      assert path[i..j] == part;
      assert forall m :: i <= m < j ==> path[..k][m] == path[m];
      assert ComponentAt(path, i, j);
    } else {
      assert path[k + 1..|path|] == path[k + 1..];
      assert ComponentAt(path, k + 1, |path|);
    }
  }

  lemma ComponentOfHead(path: string, part: string, k: nat)
    requires k < |path| && path[k] == '/' && (forall m :: k < m < |path| ==> path[m] != '/') && HasComponent(path, part)
    ensures HasComponent(path[..k], part) || part == path[k + 1..]
  {
    var i, j :| 0 <= i <= j <= |path| && ComponentAt(path, i, j) && path[i..j] == part;
    if i > k {
      assert i == k + 1 && j == |path|;
      assert path[i..j] == path[k + 1..];
    } else {
      assert j <= k;
      assert path[..k][i..j] == part;
      assert forall m :: i <= m < j ==> path[..k][m] == path[m];
      assert ComponentAt(path[..k], i, j);
    }
  }

  /** Noise is what lies in a `__MACOSX` folder, starts with `._`, or has one of three names. */
  lemma NoiseExactly(path: string, dir: string, base: string)
    requires SplitsAt(path, dir, base)
    ensures IsNoise(path)
       <==> || HasComponent(path, "__MACOSX") || (|base| >= 2 && base[0] == '.' && base[1] == '_')
            || base == ".DS_Store" || base == "Thumbs.db" || base == "desktop.ini"
  {
    SplitIsUnique(path, dir, base);
    SplitHasComponents(path, "__MACOSX");
  }

  // ---------------------------------------------------------------- formats

  predicate GzipMagic(data: Bytes) {
    |data| >= 2 && data[0] == 0x1f && data[1] == 0x8b
  }

  predicate ZipMagic(data: Bytes) {
    && |data| >= 4 && data[0] == 0x50 && data[1] == 0x4b
    && ((data[2] == 3 && data[3] == 4) || (data[2] == 5 && data[3] == 6))
  }

  predicate TarMagic(data: Bytes) {
    && |data| >= 262 && data[257] == 0x75 && data[258] == 0x73 && data[259] == 0x74
    && data[260] == 0x61 && data[261] == 0x72
  }

  predicate OneOf(c: char, upper: char, lower: char) {
    c == upper || c == lower
  }

  predicate ZipNamed(base: string) {
    var n := |base|;
    n >= 4 && base[n - 4] == '.' && OneOf(base[n - 3], 'Z', 'z') && OneOf(base[n - 2], 'I', 'i')
        && OneOf(base[n - 1], 'P', 'p')
  }

  lemma SniffExactly(data: Bytes)
    ensures Sniff(data) == Some(Gzip) <==> GzipMagic(data)
    ensures Sniff(data) == Some(Zip) <==> ZipMagic(data)
    ensures Sniff(data) == Some(Tar) <==> TarMagic(data) && !GzipMagic(data) && !ZipMagic(data)
  {
    assert IsTar(data) <==> TarMagic(data) by {
      if |data| >= 262 {
        var at := data[257..262];
        assert at[0] == data[257] && at[1] == data[258] && at[2] == data[259] && at[3] == data[260]
            && at[4] == data[261];
      }
    }
  }

  lemma LowerExactly(c: char, upper: char, lower: char)
    requires 'A' <= upper <= 'Z' && lower as int == upper as int + 32
    ensures LowerChar(c) == lower <==> OneOf(c, upper, lower)
  {
  }

  /** Three letters, in capital or small form. */
  lemma LowerThree(s: string, a: char, b: char, c: char, lower: string)
    requires 'A' <= a <= 'Z' && 'A' <= b <= 'Z' && 'A' <= c <= 'Z' && |lower| == 3
    requires lower[0] as int == a as int + 32 && lower[1] as int == b as int + 32 && lower[2] as int == c as int + 32
    ensures Lower(s) == lower
       <==> |s| == 3 && OneOf(s[0], a, lower[0]) && OneOf(s[1], b, lower[1]) && OneOf(s[2], c, lower[2])
  {
    if |s| == 3 {
      LowerExactly(s[0], a, lower[0]);
      LowerExactly(s[1], b, lower[1]);
      LowerExactly(s[2], c, lower[2]);
      var t := Lower(s);
      assert t[0] == LowerChar(s[0]) && t[1] == LowerChar(s[1]) && t[2] == LowerChar(s[2]);
    }
  }

  lemma ZipNamedExactly(path: string, dir: string, base: string, zip: string)
    requires SplitsAt(path, dir, base) && |zip| == 3 && zip[0] == 'z' && zip[1] == 'i' && zip[2] == 'p'
    ensures HasExtension(path, zip) <==> ZipNamed(base)
  {
    BasenameIs(path, dir, base);
    ZipNamedOf(path, base, zip);
  }

  lemma ZipNamedOf(path: string, base: string, zip: string)
    requires base == Basename(path) && |zip| == 3 && zip[0] == 'z' && zip[1] == 'i' && zip[2] == 'p'
    ensures HasExtension(path, zip) <==> ZipNamed(base)
  {
    ZipExtension(base, zip);
  }

  lemma ZipExtension(base: string, zip: string)
    requires |zip| == 3 && zip[0] == 'z' && zip[1] == 'i' && zip[2] == 'p'
    ensures var dot := LastIndex(base, '.'); (dot >= 0 && Lower(base[dot + 1..]) == zip) <==> ZipNamed(base)
  {
    var dot, n := LastIndex(base, '.'), |base|;
    if ZipNamed(base) {
      assert dot == n - 4;
    }
    if dot >= 0 {
      var ext := base[dot + 1..];
      LowerThree(ext, 'Z', 'I', 'P', zip);
      assert |ext| == 3 ==> ext[0] == base[n - 3] && ext[1] == base[n - 2] && ext[2] == base[n - 1];
    }
  }

  /** The name only matters for a zip. */
  lemma SniffDecides(data: Bytes, path: string, named: bool)
    requires named == HasExtension(path, "zip")
    ensures NestedFormat(data, path) == if Sniff(data) == Some(Zip) && !named then None else Sniff(data)
  {
  }

  /** A file is opened by its first bytes: gzip, tar, and zip if its name says so too. */
  lemma NestedFormatExactly(data: Bytes, path: string, dir: string, base: string)
    requires SplitsAt(path, dir, base)
    ensures NestedFormat(data, path) == Some(Gzip) <==> GzipMagic(data)
    ensures NestedFormat(data, path) == Some(Zip) <==> ZipMagic(data) && ZipNamed(base)
    ensures NestedFormat(data, path) == Some(Tar) <==> TarMagic(data) && !GzipMagic(data) && !ZipMagic(data)
  {
    SniffExactly(data);
    var named := ZipNamed(base);
    ZipNamedIs(path, dir, base);
    SniffDecides(data, path, named);
  }

  lemma ZipNamedIs(path: string, dir: string, base: string)
    requires SplitsAt(path, dir, base)
    ensures HasExtension(path, "zip") <==> ZipNamed(base)
  {
    ZipNamedExactly(path, dir, base, "zip");
  }

  // ---------------------------------------------------------------- places

  /** The entries of a nested archive go below its path; what a gzip stream holds takes its place. */
  lemma PlaceExactly(format: Format, path: string, dir: string, base: string)
    requires SplitsAt(path, dir, base)
    ensures NestedPlace(format, path) == if format == Gzip then (dir, base) else (path + "/", base)
  {
    SplitIsUnique(path, dir, base);
  }

  /** `ext` is the ending in capital, small or mixed letters. */
  predicate IsTgz(ext: string) {
    |ext| == 4 && ext[0] == '.' && OneOf(ext[1], 'T', 't') && OneOf(ext[2], 'G', 'g') && OneOf(ext[3], 'Z', 'z')
  }

  predicate IsGz(ext: string) {
    |ext| == 3 && ext[0] == '.' && OneOf(ext[1], 'G', 'g') && OneOf(ext[2], 'Z', 'z')
  }

  lemma EndsWithTail(s: string, t: string)
    ensures EndsWith(s, t) <==> |t| <= |s| && forall k :: 0 <= k < |t| ==> s[|s| - |t| + k] == t[k]
  {
    if |t| <= |s| {
      var tail := s[|s| - |t|..];
      assert forall k :: 0 <= k < |t| ==> tail[k] == s[|s| - |t| + k];
    }
  }

  lemma TgzExactly(base: string, tgz: string)
    requires |tgz| == 4 && tgz[0] == '.' && tgz[1] == 't' && tgz[2] == 'g' && tgz[3] == 'z'
    ensures EndsWith(Lower(base), tgz) <==> |base| >= 4 && IsTgz(base[|base| - 4..])
  {
    EndsWithTail(Lower(base), tgz);
    if |base| >= 4 {
      var n, low := |base|, Lower(base);
      LowerExactly(base[n - 3], 'T', 't');
      LowerExactly(base[n - 2], 'G', 'g');
      LowerExactly(base[n - 1], 'Z', 'z');
      assert low[n - 4] == LowerChar(base[n - 4]) && low[n - 3] == LowerChar(base[n - 3]);
      assert low[n - 2] == LowerChar(base[n - 2]) && low[n - 1] == LowerChar(base[n - 1]);
    }
  }

  lemma GzExactly(base: string, gz: string)
    requires |gz| == 3 && gz[0] == '.' && gz[1] == 'g' && gz[2] == 'z'
    ensures EndsWith(Lower(base), gz) <==> |base| >= 3 && IsGz(base[|base| - 3..])
  {
    EndsWithTail(Lower(base), gz);
    if |base| >= 3 {
      var n, low := |base|, Lower(base);
      LowerExactly(base[n - 2], 'G', 'g');
      LowerExactly(base[n - 1], 'Z', 'z');
      assert low[n - 3] == LowerChar(base[n - 3]);
      assert low[n - 2] == LowerChar(base[n - 2]) && low[n - 1] == LowerChar(base[n - 1]);
    }
  }

  /** `stem.tgz` holds `stem.tar`, `stem.gz` holds `stem`, and any other name stays. */
  lemma GunzippedExactly(path: string, dir: string, stem: string, ext: string)
    requires SplitsAt(path, dir, stem + ext)
    ensures IsTgz(ext) ==> GunzippedName(path) == stem + ".tar"
    ensures IsGz(ext) && stem != "" ==> GunzippedName(path) == stem
    ensures ext == "" && !(|stem| >= 4 && IsTgz(stem[|stem| - 4..])) && !(|stem| > 3 && IsGz(stem[|stem| - 3..])) ==>
              GunzippedName(path) == stem
  {
    var base := stem + ext;
    SplitIsUnique(path, dir, base);
    TgzExactly(base, ".tgz");
    GzExactly(base, ".gz");
    if IsTgz(ext) {
      assert base[|base| - 4..] == ext && base[..|base| - 4] == stem;
    } else if IsGz(ext) && stem != "" {
      GzIsNotTgz(stem, ext);
      assert base[|base| - 3..] == ext && base[..|base| - 3] == stem;
    } else if ext == "" {
      assert base == stem;
    }
  }

  lemma GzIsNotTgz(stem: string, ext: string)
    requires IsGz(ext) && stem != ""
    ensures !IsTgz((stem + ext)[|stem| - 1..])
  {
    assert (stem + ext)[|stem| - 1..][1] == ext[0];
  }
}
