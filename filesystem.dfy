/** Path and device-number helpers and the entry resolver's decisions
    (src/filesystem/mod.rs). The operating system is reached only through an
    `Oracle`; the resolver's effect on the working set is in module Listing. */
module FileSystem {
  import opened Base
  import opened Exit
  import opened Arguments
  import opened Entries
  import opened Format

  // ---------------------------------------------------------------------------
  // Paths

  /** A Unix path with a root. */
  predicate IsAbsolute(p: string) {
    |p| > 0 && p[0] == '/'
  }

  /** `Path::join` on Unix: an absolute `p` replaces `base`; otherwise `p` is
      appended, after a '/' unless `base` is empty or already ends with one. */
  function Join(base: string, p: string): (r: string)
    ensures IsAbsolute(p) ==> r == p
    ensures !IsAbsolute(p) ==> |r| >= |base| + |p| && r[..|base|] == base && r[|r| - |p|..] == p
  {
    if IsAbsolute(p) then p
    else if |base| > 0 && base[|base| - 1] != '/' then base + "/" + p
    else base + p
  }

  /** `resolve_path`: a path taken relative to the directory being listed, if any. */
  function ResolvePath(relPath: string, directory: Option<string>): (r: string)
    ensures directory.None? || IsAbsolute(relPath) ==> r == relPath
    ensures directory.Some? && !IsAbsolute(relPath) ==>
      |r| >= |directory.value| + |relPath|
      && r[..|directory.value|] == directory.value && r[|r| - |relPath|..] == relPath
  {
    if directory.Some? then Join(directory.value, relPath) else relPath
  }

  /** `last_component`: the text after the last '/', all of `path` when it has none. */
  function LastComponent(path: string): string
    decreases |path|
  {
    if path == [] then ""
    else if path[|path| - 1] == '/' then ""
    else LastComponent(path[..|path| - 1]) + [path[|path| - 1]]
  }

  /** The basename is a tail of the path holding no '/', preceded by a '/' unless
      it is the whole path. */
  lemma {:induction false} LastComponentShape(path: string)
    ensures var r := LastComponent(path);
      '/' !in r && |r| <= |path| && r == path[|path| - |r|..]
      && (|r| == |path| || path[|path| - |r| - 1] == '/')
    decreases |path|
  {
    if path != [] && path[|path| - 1] != '/' {
      var init := path[..|path| - 1];
      LastComponentShape(init);
      var r0 := LastComponent(init);
      var c := path[|path| - 1];
      assert LastComponent(path) == r0 + [c];
      assert '/' !in r0 + [c];
      assert r0 + [c] == path[|path| - |r0| - 1..] by {
        assert path[|path| - |r0| - 1..] == init[|init| - |r0|..] + [c];
      }
      if |r0| < |init| {
        assert path[|path| - |r0| - 2] == init[|init| - |r0| - 1];
      }
    }
  }

  predicate DotOrDotDot(name: string) {
    name == "." || name == ".."
  }

  /** `basename_is_dot_or_dot_dot` */
  predicate BasenameIsDotOrDotDot(dirName: string) {
    DotOrDotDot(LastComponent(dirName))
  }

  /** The basename of a path ending in `tail` right after a '/' (or consisting of
      `tail` alone) is `tail`, when `tail` holds no '/'. */
  lemma {:induction false} BasenameOfTail(path: string, tail: string)
    requires '/' !in tail && |tail| <= |path| && path[|path| - |tail|..] == tail
    requires |tail| == |path| || path[|path| - |tail| - 1] == '/'
    ensures LastComponent(path) == tail
    decreases |tail|
  {
    var n := |path|;
    if tail == [] {
      assert path == [] || path[n - 1] == '/';
    } else {
      var prefix, init := path[..n - 1], tail[..|tail| - 1];
      ShorterTail(path, tail);
      BasenameOfTail(prefix, init);
      assert LastComponent(path) == LastComponent(prefix) + [path[n - 1]];
    }
  }

  /** Dropping the last character of a non-empty tail keeps the shape that
      `BasenameOfTail` asks for. */
  lemma ShorterTail(path: string, tail: string)
    requires '/' !in tail && |tail| <= |path| && path[|path| - |tail|..] == tail
    requires |tail| == |path| || path[|path| - |tail| - 1] == '/'
    requires tail != []
    ensures var prefix, init := path[..|path| - 1], tail[..|tail| - 1];
      path[|path| - 1] != '/' && tail == init + [path[|path| - 1]]
      && '/' !in init && prefix[|prefix| - |init|..] == init
      && (|init| == |prefix| || prefix[|prefix| - |init| - 1] == '/')
  {
    var n, k := |path|, |tail|;
    var c := tail[k - 1];
    var prefix := path[..n - 1];
    var init := tail[..k - 1];
    assert path[n - 1] == c && c != '/' by {
      assert path[n - 1] == path[n - k..][k - 1];
      assert c in tail;
    }
    assert '/' !in init by {
      forall i | 0 <= i < |init| ensures init[i] != '/' {
        assert init[i] == tail[i];
        assert tail[i] in tail;
      }
    }
    assert prefix[|prefix| - |init|..] == init by {
      assert prefix[|prefix| - |init|..] == path[n - k..n - 1];
    }
    assert |init| == |prefix| || prefix[|prefix| - |init| - 1] == '/' by {
      if |init| < |prefix| {
        assert prefix[|prefix| - |init| - 1] == path[n - k - 1];
      }
    }
    assert tail == init + [c];
  }

  /** A tail "." or ".." of a path, preceded by a '/' unless it is the whole path. */
  lemma DotTail(dirName: string, tail: string)
    requires DotOrDotDot(tail) && |tail| <= |dirName| && dirName[|dirName| - |tail|..] == tail
    requires |tail| == |dirName| || dirName[|dirName| - |tail| - 1] == '/'
    ensures dirName == tail || (|dirName| > |tail| && dirName[|dirName| - |tail| - 1..] == "/" + tail)
  {
    var n, k := |dirName|, |tail|;
    if n == k {
      assert dirName == dirName[n - k..];
    } else {
      assert dirName[n - k - 1..] == [dirName[n - k - 1]] + dirName[n - k..];
    }
  }

  /** A path's basename is "." or ".." exactly when the path is ".", "..", or ends
      in "/." or "/..". */
  lemma BasenameCharacterisation(dirName: string)
    ensures BasenameIsDotOrDotDot(dirName) <==>
      dirName == "." || dirName == ".."
      || (|dirName| >= 2 && dirName[|dirName| - 2..] == "/.")
      || (|dirName| >= 3 && dirName[|dirName| - 3..] == "/..")
  {
    var n := |dirName|;
    if dirName == "." || dirName == ".." {
      BasenameOfTail(dirName, dirName);
    } else if n >= 2 && dirName[n - 2..] == "/." {
      BasenameOfTail(dirName, ".");
    } else if n >= 3 && dirName[n - 3..] == "/.." {
      BasenameOfTail(dirName, "..");
    } else if BasenameIsDotOrDotDot(dirName) {
      LastComponentShape(dirName);
      DotTail(dirName, LastComponent(dirName));
      assert false;
    }
  }

  /** `file_name_concat`: `filename` inside `dirname`, with exactly one '/' between
      them unless `dirname` already ends with one. */
  function FileNameConcat(dirname: string, filename: string): (r: string)
    ensures |dirname| > 0 && dirname[|dirname| - 1] == '/' ==> |r| == |dirname| + |filename|
    ensures !(|dirname| > 0 && dirname[|dirname| - 1] == '/') ==>
      |r| == |dirname| + 1 + |filename| && r[|dirname|] == '/'
    ensures r[..|dirname|] == dirname && r[|r| - |filename|..] == filename
  {
    if |dirname| > 0 && dirname[|dirname| - 1] == '/' then dirname + filename
    else dirname + "/" + filename
  }

  /** Whatever precedes a '/' does not affect the basename of what follows it. */
  lemma {:induction false} LastComponentAfterSlash(prefix: string, name: string)
    ensures LastComponent(prefix + "/" + name) == LastComponent(name)
    decreases |name|
  {
    var p := prefix + "/" + name;
    if name == [] {
      assert p[|p| - 1] == '/';
    } else if name[|name| - 1] == '/' {
      assert p[|p| - 1] == '/';
    } else {
      var init := name[..|name| - 1];
      assert p[..|p| - 1] == prefix + "/" + init;
      LastComponentAfterSlash(prefix, init);
    }
  }

  /** The basename of a name put inside a directory is the name's own basename. */
  lemma ConcatBasename(dirname: string, filename: string)
    ensures LastComponent(FileNameConcat(dirname, filename)) == LastComponent(filename)
  {
    if |dirname| > 0 && dirname[|dirname| - 1] == '/' {
      var prefix := dirname[..|dirname| - 1];
      assert dirname + filename == prefix + "/" + filename;
      LastComponentAfterSlash(prefix, filename);
    } else {
      LastComponentAfterSlash(dirname, filename);
    }
  }

  /** For a relative name and a non-empty directory, `file_name_concat` agrees with
      `Path::join`. */
  lemma ConcatAgreesWithJoin(dirname: string, filename: string)
    requires |dirname| > 0 && !IsAbsolute(filename)
    ensures FileNameConcat(dirname, filename) == Join(dirname, filename)
  {
  }

  // ---------------------------------------------------------------------------
  // Device numbers

  /** `major`: bits 8 to 19 of the device number. */
  function Major(dev: bv64): (r: bv64)
    ensures r < 4096
    ensures r << 8 == dev & 0xfff00
  {
    (dev >> 8) & 0xfff
  }

  /** `minor`: the low 8 bits, then bits 20 to 43 of the device number above them. */
  function Minor(dev: bv64): (r: bv64)
    ensures r & 0xff == dev & 0xff
    ensures r >> 8 == (dev >> 20) & 0xffffff
  {
    (dev & 0xff) | ((dev >> 12) & 0xffffff00)
  }

  /** `get_major_and_minor` */
  function GetMajorAndMinor(dev: bv64): (bv64, bv64) {
    (Major(dev), Minor(dev))
  }

  /** The major and minor number `get_major_and_minor` reads, as numbers. */
  function DeviceNumbers(dev: bv64): (nat, nat) {
    var (major, minor) := GetMajorAndMinor(dev);
    (major as nat, minor as nat)
  }

  /** The device number with a given major and minor, laid out as `major` and
      `minor` read it. */
  function MakeDev(maj: bv64, min: bv64): bv64 {
    (maj << 8) | (min & 0xff) | ((min & 0xffffff00) << 12)
  }

  /** Splitting a device number recovers a 12-bit major and a 32-bit minor. */
  lemma DeviceRoundTrip(maj: bv64, min: bv64)
    requires maj < 4096 && min < 0x1_0000_0000
    ensures GetMajorAndMinor(MakeDev(maj, min)) == (maj, min)
  {
  }

  // ---------------------------------------------------------------------------
  // The metadata oracle

  /** What the resolver asks the operating system, as total functions of a path:
      whether the path converts to text, `metadata` (follows links),
      `symlink_metadata` (does not) and `read_link`. */
  datatype Oracle = Oracle(
    validUnicode: string -> bool,
    stat: string -> Option<Metadata>,
    lstat: string -> Option<Metadata>,
    readLink: string -> Option<string>)

  /** The metadata call the options select. */
  function Lookup(args: Args, o: Oracle, path: string): Option<Metadata> {
    if args.dereference then o.stat(path) else o.lstat(path)
  }

  // ---------------------------------------------------------------------------
  // The resolver's decisions

  /** `check_stat` of `gobble_file`: metadata is needed for a caller's argument, in
      long mode, for the kinds `Unknown`, `Directory` and `Normal`, and for a
      symbolic link when links are followed. */
  function NeedsStat(args: Args, kind: FileType, cliArg: bool): (b: bool)
    ensures b <==> cliArg || args.long || kind in {Unknown, Directory, Normal}
                   || (kind == SymbolicLink && args.dereference)
  {
    cliArg || args.long
    || (match kind case Unknown => true case Directory => true case Normal => true case _ => false)
    || ((match kind case SymbolicLink => true case Unknown => true case _ => false) && args.dereference)
  }

  /** Whether the name is joined with its directory and checked for valid text. */
  predicate Joined(args: Args, name: string, kind: FileType, cliArg: bool, dirName: Option<string>) {
    NeedsStat(args, kind, cliArg) || (!IsAbsolute(name) && dirName.Some?)
  }

  /** The path the resolver works on (`full_name` / `resolved_path`). */
  function FullName(args: Args, name: string, kind: FileType, cliArg: bool, dirName: Option<string>): string {
    if Joined(args, name, kind, cliArg, dirName) then ResolvePath(name, dirName) else name
  }

  /** What reading a symbolic link yields: the name shown, the target's metadata and
      the errors raised. */
  datatype LinkInfo = LinkInfo(linkName: Option<string>, linkMetadata: Option<Metadata>, errors: seq<Error>)

  /** The symbolic-link branch of `gobble_file`: the target is read from the full
      name, taken relative to the directory (or "."), and stat'ed; a target that is
      not valid text is shown as "". */
  function ReadLinkInfo(o: Oracle, fullName: string, dirName: Option<string>): (l: LinkInfo)
    ensures l.linkMetadata.Some? ==> l.linkName.Some? && l.errors == []
    ensures |l.errors| <= 1 && (forall e :: e in l.errors ==> e == CannotReadSymbolicLink)
    ensures l.errors == [] <==> l.linkMetadata.Some?
    ensures l.linkName.Some? <==> o.readLink(fullName).Some?
  {
    match o.readLink(fullName)
    case None => LinkInfo(None, None, [CannotReadSymbolicLink])
    case Some(targetPath) =>
      var base := if dirName.Some? then dirName.value else ".";
      var absTarget := Join(base, targetPath);
      var shown := if o.validUnicode(targetPath) then targetPath else "";
      match o.stat(absTarget)
      case Some(m) => LinkInfo(Some(shown), Some(m), [])
      case None => LinkInfo(Some(shown), None, [CannotReadSymbolicLink])
  }

  /** What resolving one name produces: the entry appended (if any), the blocks
      returned and the errors reported, in order. */
  datatype Resolution = Resolution(entry: Option<FileInfo>, blocks: nat, errors: seq<Error>)

  /** `gobble_file`'s outcome for one name: an invalid path drops the entry, a
      metadata failure drops a caller's argument and keeps any other name without
      metadata, and otherwise the entry is classified from its metadata. */
  function Resolve(args: Args, o: Oracle, name: string, kind: FileType, inode: u64,
                   cliArg: bool, dirName: Option<string>): (r: Resolution)
    ensures r.entry.None? ==> r.errors != [] && r.blocks == 0
  {
    var fullName := FullName(args, name, kind, cliArg, dirName);
    if Joined(args, name, kind, cliArg, dirName) && !o.validUnicode(fullName) then
      Resolution(None, 0, [PathInvalidUtf8])
    else
      match Lookup(args, o, fullName)
      case None =>
        var entry := if cliArg then None else Some(NewFileInfo(name, None, None, None, inode, kind));
        Resolution(entry, 0, [CannotAccessFile])
      case Some(md) =>
        var fileType := Determine(md, cliArg);
        var link :=
          if fileType == SymbolicLink && args.long then ReadLinkInfo(o, fullName, dirName)
          else LinkInfo(None, None, []);
        Resolution(Some(NewFileInfo(name, link.linkName, Some(md), link.linkMetadata, inode, fileType)),
                   md.blocks, link.errors)
  }

  /** Whether the path checks of `gobble_file` pass for the name. */
  predicate PathUsable(args: Args, o: Oracle, name: string, kind: FileType, cliArg: bool, dirName: Option<string>) {
    !Joined(args, name, kind, cliArg, dirName) || o.validUnicode(FullName(args, name, kind, cliArg, dirName))
  }

  /** An entry appears exactly when its path is usable and it either has metadata
      or was found in a directory; it carries the given name and inode, and an
      entry without metadata keeps the kind the directory reported. */
  lemma ResolveEntry(args: Args, o: Oracle, name: string, kind: FileType, inode: u64,
                     cliArg: bool, dirName: Option<string>)
    ensures var r := Resolve(args, o, name, kind, inode, cliArg, dirName);
      (r.entry.Some? <==>
        PathUsable(args, o, name, kind, cliArg, dirName)
        && (Lookup(args, o, FullName(args, name, kind, cliArg, dirName)).Some? || !cliArg))
      && (r.entry.Some? ==>
            r.entry.value.name == name && r.entry.value.inode == inode && r.entry.value.WellFormed())
      && (r.entry.Some? && r.entry.value.metadata.None? ==> !cliArg && r.entry.value.fileType == kind)
  {
  }

  /** With metadata the entry's kind is classified from it, and the blocks returned
      are its block count; otherwise nothing is counted. */
  lemma ResolveMetadata(args: Args, o: Oracle, name: string, kind: FileType, inode: u64,
                        cliArg: bool, dirName: Option<string>)
    ensures var r := Resolve(args, o, name, kind, inode, cliArg, dirName);
      (r.entry.Some? && r.entry.value.metadata.Some? ==>
        r.entry.value.metadata == Lookup(args, o, FullName(args, name, kind, cliArg, dirName))
        && r.entry.value.fileType == Determine(r.entry.value.metadata.value, cliArg)
        && r.blocks == r.entry.value.metadata.value.blocks)
      && (r.entry.None? || r.entry.value.metadata.None? ==> r.blocks == 0)
  {
  }

  /** At most one error is reported per name; none exactly when the entry has
      metadata and, for a link shown in long mode, its target was reached. A link
      failure never drops the entry. */
  lemma ResolveErrors(args: Args, o: Oracle, name: string, kind: FileType, inode: u64,
                      cliArg: bool, dirName: Option<string>)
    ensures var r := Resolve(args, o, name, kind, inode, cliArg, dirName);
      |r.errors| <= 1
      && (r.errors == [] <==>
            r.entry.Some? && r.entry.value.metadata.Some?
            && (r.entry.value.fileType == SymbolicLink && args.long ==> r.entry.value.linkMetadata.Some?))
      && (r.errors == [CannotReadSymbolicLink] ==> r.entry.Some? && r.entry.value.metadata.Some?)
  {
  }

  /** A link target is recorded only for a symbolic link in long mode. */
  lemma LinkOnlyInLongMode(args: Args, o: Oracle, name: string, kind: FileType, inode: u64,
                           cliArg: bool, dirName: Option<string>)
    ensures var r := Resolve(args, o, name, kind, inode, cliArg, dirName);
      r.entry.Some? && (r.entry.value.linkName.Some? || r.entry.value.linkMetadata.Some?) ==>
        args.long && r.entry.value.fileType == SymbolicLink
  {
  }

  // ---------------------------------------------------------------------------
  // Long-format widths

  /** A device's major and minor widths, and the size column's room for both
      and their separator. */
  function FoldDevice(w: Widths, majLen: nat, minLen: nat): (v: Widths)
    ensures Covers(v, w)
    ensures v.major == Max(w.major, majLen) && v.minor == Max(w.minor, minLen)
    ensures v.fileSize == Max(w.fileSize, majLen + minLen + 2)
    ensures v.hardLink == w.hardLink && v.user == w.user && v.group == w.group
  {
    w.(major := Max(w.major, majLen), minor := Max(w.minor, minLen),
       fileSize := Max(w.fileSize, majLen + minLen + 2))
  }

  /** The widths after `gobble_file` folds in one entry with metadata: link count,
      owner and group always; a device's major and minor (from `st_rdev`) and their
      combined width, or else the size. */
  function FoldWidths(w: Widths, md: Metadata, kind: FileType): (v: Widths)
    ensures Covers(v, w)
    ensures v.hardLink == Max(w.hardLink, DigitWidth(md.nlink))
    ensures v.user == Max(w.user, DigitWidth(md.uid)) && v.group == Max(w.group, DigitWidth(md.gid))
    ensures kind == CharDev || kind == BlockDev ==>
      v.fileSize == Max(w.fileSize, DigitWidth(DeviceNumbers(md.rdev).0) + DigitWidth(DeviceNumbers(md.rdev).1) + 2)
      && v.major == Max(w.major, DigitWidth(DeviceNumbers(md.rdev).0))
      && v.minor == Max(w.minor, DigitWidth(DeviceNumbers(md.rdev).1))
    ensures !(kind == CharDev || kind == BlockDev) ==>
      v.fileSize == Max(w.fileSize, DigitWidth(md.size)) && v.major == w.major && v.minor == w.minor
  {
    var hardLink := Max(w.hardLink, DigitWidth(md.nlink));
    var user := Max(w.user, DigitWidth(md.uid));
    var group := Max(w.group, DigitWidth(md.gid));
    if kind == CharDev || kind == BlockDev then
      var (major, minor) := DeviceNumbers(md.rdev);
      FoldDevice(Widths(hardLink, user, group, w.major, w.minor, w.fileSize), DigitWidth(major), DigitWidth(minor))
    else
      Widths(hardLink, user, group, w.major, w.minor, Max(w.fileSize, DigitWidth(md.size)))
  }
}
