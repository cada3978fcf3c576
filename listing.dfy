/** The working set of one run (src/working_set.rs) and the entry resolver that
    fills it (`gobble_file`, src/filesystem/mod.rs:93-237). The batch of entries
    of the directory being listed is `cwdFiles`; `sortedFiles` is the sorted view,
    as indices into that batch. */
module Listing {
  import opened Base
  import opened Exit
  import opened Arguments
  import opened PendingDirs
  import opened Loops
  import opened Entries
  import opened Format
  import opened Columns
  import opened Layout
  import opened FileSystem

  // ---------------------------------------------------------------------------
  // Specification of a batch of resolutions

  /** The entry a resolution appends, as a sequence of zero or one entries. */
  function Appended(r: Resolution): (s: seq<FileInfo>)
    ensures |s| <= 1 && (r.entry.Some? <==> |s| == 1)
  {
    if r.entry.Some? then [r.entry.value] else []
  }

  /** The widths after folding in what a resolution appends. */
  function WidthsAfter(w: Widths, r: Resolution): Widths {
    if r.entry.Some? && r.entry.value.metadata.Some? then
      FoldWidths(w, r.entry.value.metadata.value, r.entry.value.fileType)
    else w
  }

  /** How the caller's operands are resolved: kind `Unknown`, inode 0, as caller
      arguments, outside any directory. */
  function ResolveArg(args: Args, o: Oracle, path: string): Resolution {
    Resolve(args, o, path, Unknown, 0, true, None)
  }

  /** The entries the operands `paths` append, in order. */
  function ArgEntries(args: Args, o: Oracle, paths: seq<string>): seq<FileInfo>
    decreases |paths|
  {
    if paths == [] then []
    else ArgEntries(args, o, paths[..|paths| - 1]) + Appended(ResolveArg(args, o, paths[|paths| - 1]))
  }

  /** The status after resolving the operands `paths`. */
  function ArgStatus(s: ExitStatus, args: Args, o: Oracle, paths: seq<string>): ExitStatus
    decreases |paths|
  {
    if paths == [] then s
    else UpdateAll(ArgStatus(s, args, o, paths[..|paths| - 1]), ResolveArg(args, o, paths[|paths| - 1]).errors, true)
  }

  /** The long-format widths after resolving the operands `paths`. */
  function ArgWidths(w: Widths, args: Args, o: Oracle, paths: seq<string>): Widths
    decreases |paths|
  {
    if paths == [] then w
    else WidthsAfter(ArgWidths(w, args, o, paths[..|paths| - 1]), ResolveArg(args, o, paths[|paths| - 1]))
  }

  /** Resolving one more operand extends the entries, the status and the widths. */
  lemma ArgStep(s: ExitStatus, w: Widths, args: Args, o: Oracle, paths: seq<string>, i: nat)
    requires i < |paths|
    ensures var r := ResolveArg(args, o, paths[i]);
      ArgEntries(args, o, paths[..i + 1]) == ArgEntries(args, o, paths[..i]) + Appended(r)
      && ArgStatus(s, args, o, paths[..i + 1]) == UpdateAll(ArgStatus(s, args, o, paths[..i]), r.errors, true)
      && ArgWidths(w, args, o, paths[..i + 1]) == WidthsAfter(ArgWidths(w, args, o, paths[..i]), r)
  {
    assert paths[..i + 1][..i] == paths[..i];
  }

  /** The loop of `process_argument_paths` keeps its account of the entries, the
      status and the widths when one more operand is resolved. */
  lemma ArgInvariant(files0: seq<FileInfo>, s0: ExitStatus, w0: Widths, args: Args, o: Oracle,
                     paths: seq<string>, i: nat, files: seq<FileInfo>, s: ExitStatus, w: Widths,
                     files': seq<FileInfo>, s': ExitStatus, w': Widths)
    requires i < |paths|
    requires files == files0 + ArgEntries(args, o, paths[..i])
    requires s == ArgStatus(s0, args, o, paths[..i]) && w == ArgWidths(w0, args, o, paths[..i])
    requires var r := ResolveArg(args, o, paths[i]);
      files' == files + Appended(r) && s' == UpdateAll(s, r.errors, true) && w' == WidthsAfter(w, r)
    ensures files' == files0 + ArgEntries(args, o, paths[..i + 1])
    ensures s' == ArgStatus(s0, args, o, paths[..i + 1]) && w' == ArgWidths(w0, args, o, paths[..i + 1])
  {
    ArgStep(s0, w0, args, o, paths, i);
    assert files' == files0 + ArgEntries(args, o, paths[..i + 1]) by {
      var done, part := ArgEntries(args, o, paths[..i]), Appended(ResolveArg(args, o, paths[i]));
      assert files0 + (done + part) == (files0 + done) + part;
    }
  }

  /** Every operand that is listed is listed with its metadata, under its own name
      and inode 0, in operand order; one that is missing has raised the status. */
  lemma {:induction false} ArgEntriesFacts(s: ExitStatus, args: Args, o: Oracle, paths: seq<string>)
    ensures |ArgEntries(args, o, paths)| <= |paths|
    ensures forall e :: e in ArgEntries(args, o, paths) ==>
      e.metadata.Some? && e.inode == 0 && e.name in paths && e.WellFormed()
    ensures ArgStatus(s, args, o, paths).Code() >= s.Code()
    ensures |ArgEntries(args, o, paths)| < |paths| ==> ArgStatus(s, args, o, paths).Code() >= 1
    decreases |paths|
  {
    if paths != [] {
      var init := paths[..|paths| - 1];
      var last := paths[|paths| - 1];
      ArgEntriesFacts(s, args, o, init);
      ResolveEntry(args, o, last, Unknown, 0, true, None);
      var r := ResolveArg(args, o, last);
      forall e | e in ArgEntries(args, o, paths)
        ensures e.metadata.Some? && e.inode == 0 && e.name in paths && e.WellFormed()
      {
        if e in ArgEntries(args, o, init) {
          assert e.name in init;
        }
      }
    }
  }

  // ---------------------------------------------------------------------------
  // Specification of directory extraction

  /** Whether an entry of the batch is queued: a directory, and with a parent
      directory not one whose basename is "." or "..". */
  predicate Qualifies(f: FileInfo, dirName: Option<string>) {
    f.IsDirectory() && (dirName.None? || !BasenameIsDotOrDotDot(f.name))
  }

  /** The name a queued directory gets: its own name at the top level or when it
      is absolute, else joined with its parent directory. */
  function QueuedName(name: string, dirName: Option<string>): string
    requires dirName.Some? ==> |name| > 0
  {
    if dirName.None? || name[0] == '/' then name else FileNameConcat(dirName.value, name)
  }

  /** The node queued for one entry, if it qualifies. */
  function NodeFor(f: FileInfo, dirName: Option<string>, cliArg: bool): seq<Pending>
    requires dirName.Some? ==> |f.name| > 0
  {
    if Qualifies(f, dirName) then [Pending(Some(QueuedName(f.name, dirName)), f.linkName, cliArg)] else []
  }

  predicate NamesNonEmpty(files: seq<FileInfo>, perm: seq<nat>)
    requires InBounds(files, perm)
  {
    forall k :: 0 <= k < |perm| ==> |files[perm[k]].name| > 0
  }

  /** The nodes for the sorted entries `perm`, in sorted order. */
  function DirNodes(files: seq<FileInfo>, perm: seq<nat>, dirName: Option<string>, cliArg: bool): seq<Pending>
    requires InBounds(files, perm)
    requires dirName.Some? ==> NamesNonEmpty(files, perm)
    decreases |perm|
  {
    if perm == [] then []
    else NodeFor(files[perm[0]], dirName, cliArg) + DirNodes(files, perm[1..], dirName, cliArg)
  }

  /** The leave marker queued before the subdirectories in recursive mode. */
  function Marker(dirName: Option<string>, recursive: bool): seq<Pending> {
    if dirName.Some? && recursive then [Pending(None, dirName, false)] else []
  }

  /** Whatever holds of every sorted entry holds of those from `i` on. */
  lemma SuffixBounds(files: seq<FileInfo>, perm: seq<nat>, i: nat, dirName: Option<string>)
    requires InBounds(files, perm) && i <= |perm|
    requires dirName.Some? ==> NamesNonEmpty(files, perm)
    ensures InBounds(files, perm[i..])
    ensures dirName.Some? ==> NamesNonEmpty(files, perm[i..])
  {
  }

  /** The nodes for the sorted entries from `i` on. */
  function DirNodesFrom(files: seq<FileInfo>, perm: seq<nat>, i: nat, dirName: Option<string>, cliArg: bool): seq<Pending>
    requires InBounds(files, perm) && i <= |perm|
    requires dirName.Some? ==> NamesNonEmpty(files, perm)
  {
    SuffixBounds(files, perm, i, dirName);
    DirNodes(files, perm[i..], dirName, cliArg)
  }

  lemma DirNodesStep(files: seq<FileInfo>, perm: seq<nat>, i: nat, dirName: Option<string>, cliArg: bool)
    requires InBounds(files, perm) && 0 < i <= |perm|
    requires dirName.Some? ==> NamesNonEmpty(files, perm)
    ensures dirName.Some? ==> |files[perm[i - 1]].name| > 0
    ensures DirNodesFrom(files, perm, i - 1, dirName, cliArg)
         == NodeFor(files[perm[i - 1]], dirName, cliArg) + DirNodesFrom(files, perm, i, dirName, cliArg)
  {
    SuffixBounds(files, perm, i - 1, dirName);
    assert perm[i - 1..][1..] == perm[i..];
  }

  /** Every queued node names a directory of the batch, is flagged as the caller
      said, and inside a directory is never "." or ".." or a path ending in them. */
  lemma {:induction false} DirNodesFacts(files: seq<FileInfo>, perm: seq<nat>, dirName: Option<string>, cliArg: bool)
    requires InBounds(files, perm)
    requires dirName.Some? ==> NamesNonEmpty(files, perm)
    ensures |DirNodes(files, perm, dirName, cliArg)| <= |perm|
    ensures forall n :: n in DirNodes(files, perm, dirName, cliArg) ==>
      n.name.Some? && n.cliArg == cliArg
      && (dirName.Some? ==> !BasenameIsDotOrDotDot(n.name.value))
    decreases |perm|
  {
    if perm != [] {
      DirNodesFacts(files, perm[1..], dirName, cliArg);
      var f := files[perm[0]];
      if Qualifies(f, dirName) && dirName.Some? && f.name[0] != '/' {
        ConcatBasename(dirName.value, f.name);
      }
    }
  }

  /** `retain` of the entries that are not `ArgDirectory`, in their order. */
  function WithoutArgDirs(files: seq<FileInfo>, perm: seq<nat>): (r: seq<nat>)
    requires InBounds(files, perm)
    ensures InBounds(files, r) && |r| <= |perm|
    ensures forall x :: x in r <==> x in perm && files[x].fileType != ArgDirectory
    decreases |perm|
  {
    if perm == [] then []
    else
      var rest := WithoutArgDirs(files, perm[1..]);
      assert forall x :: x in perm <==> x == perm[0] || x in perm[1..];
      if files[perm[0]].fileType == ArgDirectory then rest else [perm[0]] + rest
  }

  /** Removing the `ArgDirectory` entries keeps the rest in their sorted order. */
  lemma {:induction false} RetainKeepsOrder(files: seq<FileInfo>, perm: seq<nat>)
    requires StablySorted(files, perm)
    ensures StablySorted(files, WithoutArgDirs(files, perm))
    decreases |perm|
  {
    if perm != [] {
      var tail := perm[1..];
      assert StablySorted(files, tail) by {
        forall p, q | 0 <= p < q < |tail| ensures Before(files, tail[p], tail[q]) {
          assert tail[p] == perm[p + 1] && tail[q] == perm[q + 1];
        }
      }
      RetainKeepsOrder(files, tail);
      var rest := WithoutArgDirs(files, tail);
      if files[perm[0]].fileType != ArgDirectory {
        var r := [perm[0]] + rest;
        forall q | 0 < q < |r| ensures Before(files, r[0], r[q]) {
          assert r[q] in tail;
          var i :| 0 <= i < |tail| && tail[i] == r[q];
          assert perm[i + 1] == r[q];
        }
      }
    }
  }

  /** The widths of the sorted entries, in sorted order. */
  function SortedWidths(files: seq<FileInfo>, perm: seq<nat>): (ws: seq<nat>)
    requires InBounds(files, perm)
    ensures |ws| == |perm| && forall i :: 0 <= i < |perm| ==> ws[i] == files[perm[i]].width
  {
    seq(|perm|, i requires 0 <= i < |perm| => files[perm[i]].width)
  }

  // ---------------------------------------------------------------------------
  // The working set

  class WorkingSet {
    const args: Args
    const pendingDirs: PendingList
    var cwdFiles: seq<FileInfo>
    var sortedFiles: seq<nat>
    const loopManager: LoopManager
    const printInfo: PrintInfo
    var columnState: Option<ColumnState>
    var exitStatus: ExitStatus
    const ignoreMode: IgnoreMode
    var formatInfo: Option<FormatInfo>

    /** Long-format widths are kept exactly in long mode. */
    predicate Valid()
      reads this
    {
      formatInfo.Some? <==> args.long
    }

    /** The width record, when there is one. */
    function FormatFrame(): set<object>
      reads this
    {
      if formatInfo.Some? then {formatInfo.value} else {}
    }

    /** `WorkingSet::new`, with the terminal width passed in. */
    constructor (args: Args, terminalWidth: Option<nat>)
      ensures this.args == args
      ensures ignoreMode == IgnoreMinimal <==> args.all
      ensures ignoreMode == IgnoreDotAndDotDot <==> !args.all && args.almostAll
      ensures ignoreMode == IgnoreDefault <==> !args.all && !args.almostAll
      ensures Valid()
      ensures formatInfo.Some? ==> fresh(formatInfo.value) && formatInfo.value.View() == ZeroWidths()
      ensures fresh(pendingDirs) && pendingDirs.nodes == []
      ensures fresh(loopManager) && loopManager.activeDirSet == {} && loopManager.devInoStack == []
      ensures cwdFiles == [] && sortedFiles == []
      ensures printInfo == NewPrintInfo(terminalWidth)
      ensures columnState == None && exitStatus == DefaultStatus()
    {
      var ignoreMode: IgnoreMode;
      if args.all {
        ignoreMode := IgnoreMinimal;
      } else if args.almostAll {
        ignoreMode := IgnoreDotAndDotDot;
      } else {
        ignoreMode := IgnoreDefault;
      }
      var formatInfo: Option<FormatInfo>;
      if args.long {
        var info := new FormatInfo();
        formatInfo := Some(info);
      } else {
        formatInfo := None;
      }
      this.args := args;
      this.pendingDirs := new PendingList();
      this.cwdFiles := [];
      this.sortedFiles := [];
      this.loopManager := new LoopManager();
      this.printInfo := NewPrintInfo(terminalWidth);
      this.columnState := None;
      this.exitStatus := DefaultStatus();
      this.ignoreMode := ignoreMode;
      this.formatInfo := formatInfo;
    }

    /** `file_ignored`: nothing is skipped under `IgnoreMinimal`; under
        `IgnoreDefault` every name starting with '.'; under `IgnoreDotAndDotDot`
        exactly "." and "..". */
    function FileIgnored(fileName: string): (b: bool)
      ensures ignoreMode == IgnoreMinimal ==> !b
      ensures ignoreMode == IgnoreDefault ==> (b <==> |fileName| > 0 && fileName[0] == '.')
      ensures ignoreMode == IgnoreDotAndDotDot ==> (b <==> DotOrDotDot(fileName))
    {
      ignoreMode != IgnoreMinimal
      && |fileName| > 0 && fileName[0] == '.'
      && (ignoreMode == IgnoreDefault || DotOrDotDot(fileName))
    }

    /** `gobble_file`: resolves one name and appends its entry (if any) to the
        batch, reports its errors to the status, folds its widths in long mode and
        returns its block count — all as `Resolve` decides. */
    method GobbleFile(o: Oracle, name: string, fileType: FileType, inode: u64,
                      cliArg: bool, dirName: Option<string>) returns (blocks: nat)
      requires Valid()
      requires !cliArg || inode == 0
      modifies this, FormatFrame()
      ensures Valid() && formatInfo == old(formatInfo)
      ensures var r := Resolve(args, o, name, fileType, inode, cliArg, dirName);
        cwdFiles == old(cwdFiles) + Appended(r)
        && blocks == r.blocks
        && exitStatus == UpdateAll(old(exitStatus), r.errors, cliArg)
        && (formatInfo.Some? ==> formatInfo.value.View() == WidthsAfter(old(formatInfo.value.View()), r))
      ensures sortedFiles == old(sortedFiles) && columnState == old(columnState)
    {
      ghost var r := Resolve(args, o, name, fileType, inode, cliArg, dirName);
      var usable, fullName, metadataResult := LookUpPath(o, name, fileType, cliArg, dirName);
      if !usable {
        assert r == Resolution(None, 0, [PathInvalidUtf8]);
        exitStatus := exitStatus.Update(PathInvalidUtf8, cliArg);
        return 0;
      }
      if metadataResult.None? {
        assert r == Resolution(if cliArg then None else Some(NewFileInfo(name, None, None, None, inode, fileType)),
                               0, [CannotAccessFile]);
        exitStatus := exitStatus.Update(CannotAccessFile, cliArg);
        if cliArg {
          return 0;
        } else {
          cwdFiles := cwdFiles + [NewFileInfo(name, None, None, None, inode, fileType)];
          return 0;
        }
      }
      blocks := AppendWithMetadata(o, name, inode, cliArg, dirName, fullName, metadataResult.value);
    }

    /** The path half of `gobble_file`: decides whether the name is joined with
        its directory, checks that the joined path is valid text, and asks for the
        metadata the options select. */
    method LookUpPath(o: Oracle, name: string, fileType: FileType, cliArg: bool, dirName: Option<string>)
      returns (usable: bool, fullName: string, metadataResult: Option<Metadata>)
      ensures usable == PathUsable(args, o, name, fileType, cliArg, dirName)
      ensures usable ==>
        fullName == FullName(args, name, fileType, cliArg, dirName)
        && metadataResult == Lookup(args, o, fullName)
    {
      fullName := name;
      var checkStat := NeedsStat(args, fileType, cliArg);
      var joined := checkStat || (!IsAbsolute(name) && dirName.Some?);
      assert joined == Joined(args, name, fileType, cliArg, dirName);

      var resolvedPath: string;
      if joined {
        resolvedPath := ResolvePath(name, dirName);
        if o.validUnicode(resolvedPath) {
          fullName := resolvedPath;
        } else {
          return false, fullName, None;
        }
      } else {
        resolvedPath := name;
      }

      if args.dereference {
        metadataResult := o.stat(resolvedPath);
      } else {
        metadataResult := o.lstat(resolvedPath);
      }
      usable := true;
    }

    /** The rest of `gobble_file` once the metadata is in hand: classify the
        entry, read a link's target in long mode, fold the widths and append. */
    method AppendWithMetadata(o: Oracle, name: string, inode: u64, cliArg: bool,
                              dirName: Option<string>, fullName: string, metadata: Metadata)
      returns (blocks: nat)
      requires Valid()
      modifies this, FormatFrame()
      ensures Valid() && formatInfo == old(formatInfo)
      ensures var fileType := Determine(metadata, cliArg);
        var link := if fileType == SymbolicLink && args.long then ReadLinkInfo(o, fullName, dirName)
                    else LinkInfo(None, None, []);
        cwdFiles == old(cwdFiles) + [NewFileInfo(name, link.linkName, Some(metadata), link.linkMetadata, inode, fileType)]
        && blocks == metadata.blocks
        && exitStatus == UpdateAll(old(exitStatus), link.errors, cliArg)
        && (formatInfo.Some? ==> formatInfo.value.View() == FoldWidths(old(formatInfo.value.View()), metadata, fileType))
      ensures sortedFiles == old(sortedFiles) && columnState == old(columnState)
    {
      var linkName: Option<string> := None;
      var linkMetadata: Option<Metadata> := None;
      var fileType := Determine(metadata, cliArg);

      if fileType == SymbolicLink && args.long {
        linkName, linkMetadata := ReadSymbolicLink(o, fullName, dirName, cliArg);
      }

      blocks := metadata.blocks;

      if args.long {
        FoldIntoFormatInfo(metadata, fileType);
      }

      var fileInfo := NewFileInfo(name, linkName, Some(metadata), linkMetadata, inode, fileType);
      cwdFiles := cwdFiles + [fileInfo];
    }

    /** The symbolic-link branch of `gobble_file`: reads the target, stats it
        relative to the directory (or "."), and reports a failure of either. */
    method ReadSymbolicLink(o: Oracle, fullName: string, dirName: Option<string>, cliArg: bool)
      returns (linkName: Option<string>, linkMetadata: Option<Metadata>)
      modifies this
      ensures var l := ReadLinkInfo(o, fullName, dirName);
        linkName == l.linkName && linkMetadata == l.linkMetadata
        && exitStatus == UpdateAll(old(exitStatus), l.errors, cliArg)
      ensures cwdFiles == old(cwdFiles) && sortedFiles == old(sortedFiles)
      ensures formatInfo == old(formatInfo) && columnState == old(columnState)
    {
      linkName, linkMetadata := None, None;
      match o.readLink(fullName) {
        case Some(targetPath) =>
          var base := if dirName.Some? then dirName.value else ".";
          var absTarget := Join(base, targetPath);
          var resolvedPath;
          match o.stat(absTarget) {
            case Some(m) =>
              resolvedPath := targetPath;
              linkMetadata := Some(m);
              linkName := Some(if o.validUnicode(resolvedPath) then resolvedPath else "");
            case None =>
              resolvedPath := targetPath;
              linkName := Some(if o.validUnicode(resolvedPath) then resolvedPath else "");
              exitStatus := exitStatus.Update(CannotReadSymbolicLink, cliArg);
          }
        case None =>
          exitStatus := exitStatus.Update(CannotReadSymbolicLink, cliArg);
      }
    }

    /** The long-format step of `gobble_file`: link count, owner and group widths,
        then a device's major and minor (from `st_rdev`) or the size. */
    method FoldIntoFormatInfo(metadata: Metadata, fileType: FileType)
      requires formatInfo.Some?
      modifies formatInfo.value
      ensures formatInfo.value.View() == FoldWidths(old(formatInfo.value.View()), metadata, fileType)
    {
      var info := formatInfo.value;
      info.UpdateHardLinkLength(DigitWidth(metadata.nlink));
      info.UpdateUserLength(DigitWidth(metadata.uid));
      info.UpdateGroupLength(DigitWidth(metadata.gid));
      if fileType == CharDev || fileType == BlockDev {
        var (major, minor) := DeviceNumbers(metadata.rdev);
        var majLen := DigitWidth(major);
        var minLen := DigitWidth(minor);
        info.UpdateFileSizeLengths(majLen, minLen);
      } else {
        info.UpdateFileSizeLength(DigitWidth(metadata.size));
      }
    }

    /** `process_argument_paths`: with no operands "." is queued as a caller's
        directory; every operand is resolved as a caller argument. */
    method ProcessArgumentPaths(o: Oracle)
      requires Valid()
      modifies this, FormatFrame(), pendingDirs
      ensures Valid() && formatInfo == old(formatInfo)
      ensures |args.paths| == 0 ==> pendingDirs.nodes == [Pending(Some("."), None, true)] + old(pendingDirs.nodes)
      ensures |args.paths| > 0 ==> pendingDirs.nodes == old(pendingDirs.nodes)
      ensures cwdFiles == old(cwdFiles) + ArgEntries(args, o, args.paths)
      ensures exitStatus == ArgStatus(old(exitStatus), args, o, args.paths)
      ensures formatInfo.Some? ==> formatInfo.value.View() == ArgWidths(old(formatInfo.value.View()), args, o, args.paths)
      ensures sortedFiles == old(sortedFiles) && columnState == old(columnState)
    {
      var cliArg := true;
      var paths := args.paths;
      if |paths| == 0 {
        pendingDirs.QueueDirectory(Some("."), None, cliArg);
      }
      ghost var nodes := pendingDirs.nodes;
      ghost var w0 := if formatInfo.Some? then formatInfo.value.View() else ZeroWidths();
      for i := 0 to |paths|
        invariant Valid() && formatInfo == old(formatInfo)
        invariant pendingDirs.nodes == nodes
        invariant cwdFiles == old(cwdFiles) + ArgEntries(args, o, paths[..i])
        invariant exitStatus == ArgStatus(old(exitStatus), args, o, paths[..i])
        invariant formatInfo.Some? ==> formatInfo.value.View() == ArgWidths(w0, args, o, paths[..i])
        invariant sortedFiles == old(sortedFiles) && columnState == old(columnState)
      {
        ghost var r := ResolveArg(args, o, paths[i]);
        ghost var w := if formatInfo.Some? then formatInfo.value.View() else ArgWidths(w0, args, o, paths[..i]);
        ghost var files, status := cwdFiles, exitStatus;
        var _ := GobbleFile(o, paths[i], Unknown, 0, cliArg, None);
        ArgInvariant(old(cwdFiles), old(exitStatus), w0, args, o, paths, i, files, status, w,
                     cwdFiles, exitStatus, if formatInfo.Some? then formatInfo.value.View() else WidthsAfter(w, r));
      }
      assert paths[..|paths|] == paths;
    }

    /** `clear_files`: empties the batch and restarts the widths (in long mode);
        the sorted view is left as it is. */
    method ClearFiles()
      modifies this
      ensures cwdFiles == [] && Valid()
      ensures formatInfo.Some? ==> fresh(formatInfo.value) && formatInfo.value.View() == ZeroWidths()
      ensures sortedFiles == old(sortedFiles) && exitStatus == old(exitStatus)
      ensures columnState == old(columnState)
    {
      cwdFiles := [];
      if args.long {
        var info := new FormatInfo();
        formatInfo := Some(info);
      } else {
        formatInfo := None;
      }
    }

    /** `sort_files`: the sorted view becomes a stable sort of the batch by
        lower-case name, holding every entry of the batch once. */
    method SortFiles()
      modifies this
      ensures |sortedFiles| == |cwdFiles| && StablySorted(cwdFiles, sortedFiles)
      ensures multiset(sortedFiles) == multiset(Indices(|cwdFiles|))
      ensures cwdFiles == old(cwdFiles) && formatInfo == old(formatInfo)
      ensures exitStatus == old(exitStatus) && columnState == old(columnState)
    {
      sortedFiles := SortedFiles(cwdFiles);
    }

    /** `extract_dirs_from_files`: queues the leave marker (recursive mode, inside a
        directory), then every qualifying directory in reverse sorted order, so that
        they come off the stack in sorted order followed by the marker; then drops
        the `ArgDirectory` entries from the sorted view. */
    method ExtractDirsFromFiles(dirName: Option<string>, commandLineArg: bool)
      requires InBounds(cwdFiles, sortedFiles)
      requires dirName.Some? ==> NamesNonEmpty(cwdFiles, sortedFiles)
      modifies this, pendingDirs
      ensures cwdFiles == old(cwdFiles) && formatInfo == old(formatInfo)
      ensures exitStatus == old(exitStatus) && columnState == old(columnState)
      ensures pendingDirs.nodes
        == DirNodes(cwdFiles, old(sortedFiles), dirName, commandLineArg)
           + Marker(dirName, args.recursive) + old(pendingDirs.nodes)
      ensures sortedFiles == WithoutArgDirs(cwdFiles, old(sortedFiles))
    {
      if dirName.Some? && args.recursive {
        pendingDirs.QueueDirectory(None, dirName, false);
      }

      var files := cwdFiles;
      var perm := sortedFiles;
      QueueDirectories(files, perm, dirName, commandLineArg);

      sortedFiles := WithoutArgDirs(files, perm);
    }

    /** The extraction loop: the sorted entries walked from the back, each
        qualifying directory pushed on the front of the pending list, so that the
        list ends up in sorted order. */
    method QueueDirectories(files: seq<FileInfo>, perm: seq<nat>, dirName: Option<string>, commandLineArg: bool)
      requires InBounds(files, perm)
      requires dirName.Some? ==> NamesNonEmpty(files, perm)
      modifies pendingDirs
      ensures pendingDirs.nodes == DirNodes(files, perm, dirName, commandLineArg) + old(pendingDirs.nodes)
    {
      var ignoreDotAndDotDot := dirName.Some?;
      var i := |perm|;
      assert DirNodesFrom(files, perm, i, dirName, commandLineArg) == [] by {
        assert perm[i..] == [];
      }
      while i > 0
        invariant 0 <= i <= |perm|
        invariant pendingDirs.nodes == DirNodesFrom(files, perm, i, dirName, commandLineArg) + old(pendingDirs.nodes)
      {
        DirNodesStep(files, perm, i, dirName, commandLineArg);
        ghost var part, rest := NodeFor(files[perm[i - 1]], dirName, commandLineArg), DirNodesFrom(files, perm, i, dirName, commandLineArg);
        assert part + (rest + old(pendingDirs.nodes)) == (part + rest) + old(pendingDirs.nodes);
        i := i - 1;
        QueueIfDirectory(files[perm[i]], dirName, ignoreDotAndDotDot, commandLineArg);
      }
      assert DirNodesFrom(files, perm, 0, dirName, commandLineArg) == DirNodes(files, perm, dirName, commandLineArg) by {
        assert perm[0..] == perm;
      }
    }

    /** The body of the extraction loop for one sorted entry: a qualifying
        directory is queued under its own name (top level, or an absolute name)
        or joined with its parent. */
    method QueueIfDirectory(f: FileInfo, dirName: Option<string>, ignoreDotAndDotDot: bool, commandLineArg: bool)
      requires ignoreDotAndDotDot == dirName.Some?
      requires dirName.Some? ==> |f.name| > 0
      modifies pendingDirs
      ensures pendingDirs.nodes == NodeFor(f, dirName, commandLineArg) + old(pendingDirs.nodes)
    {
      if f.IsDirectory() && (!ignoreDotAndDotDot || !BasenameIsDotOrDotDot(f.name)) {
        if dirName.None? || f.name[0] == '/' {
          pendingDirs.QueueDirectory(Some(f.name), f.linkName, commandLineArg);
        } else {
          var name := FileNameConcat(dirName.value, f.name);
          pendingDirs.QueueDirectory(Some(name), f.linkName, commandLineArg);
        }
      }
    }

    /** `calculate_columns`, over the widths of the sorted entries; the candidates'
        records are kept as the column state. */
    method CalculateColumns(byColumns: bool) returns (cols: nat)
      requires InBounds(cwdFiles, sortedFiles)
      modifies this
      ensures cwdFiles == old(cwdFiles) && sortedFiles == old(sortedFiles)
      ensures formatInfo == old(formatInfo) && exitStatus == old(exitStatus)
      ensures columnState.Some?
      ensures Scanned(SortedWidths(cwdFiles, sortedFiles), printInfo, byColumns, columnState.value)
      ensures PickedAsWritten(SortedWidths(cwdFiles, sortedFiles), printInfo, byColumns, cols)
    {
      var widths := SortedWidths(cwdFiles, sortedFiles);
      var state;
      cols, state := Layout.CalculateColumns(widths, printInfo, byColumns);
      columnState := Some(state);
    }
  }
}
