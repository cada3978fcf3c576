/** Listed entries (src/filesystem/fileinfo.rs): the entry kind, the record kept
    per entry with its cached display width, and the case-insensitive stable sort
    that orders a batch. The sorted view is an index permutation into the batch. */
module Entries {
  import opened Base

  /** What `std::fs::FileType` answers about an entry; the operating system sets
      at most one of these. */
  datatype OsFileType = OsFileType(
    isFile: bool, isDir: bool, isSymlink: bool, isBlockDevice: bool,
    isCharDevice: bool, isFifo: bool, isSocket: bool)

  /** The part of `std::fs::Metadata` the listing reads. */
  datatype Metadata = Metadata(
    fileType: OsFileType,
    mode: bv32,
    nlink: u64,
    uid: u32,
    gid: u32,
    size: u64,
    blocks: u64,
    dev: bv64,
    rdev: bv64)

  datatype FileType =
    | Unknown
    | Fifo
    | CharDev
    | Directory
    | BlockDev
    | Normal
    | SymbolicLink
    | Sock
    | ArgDirectory

  predicate NoKindFlag(ft: OsFileType) {
    !ft.isFile && !ft.isDir && !ft.isSymlink && !ft.isBlockDevice
    && !ft.isCharDevice && !ft.isFifo && !ft.isSocket
  }

  /** `FileType::new`: the flags are tested in the order file, directory, symlink,
      block device, char device, fifo, socket; a directory named by the caller is
      an `ArgDirectory`. */
  function NewFileType(ft: OsFileType, cliArg: bool): (k: FileType)
    ensures k == Unknown <==> NoKindFlag(ft)
    ensures k == Normal <==> ft.isFile
    ensures k == ArgDirectory <==> !ft.isFile && ft.isDir && cliArg
    ensures k == Directory <==> !ft.isFile && ft.isDir && !cliArg
  {
    if ft.isFile then Normal
    else if ft.isDir then (if cliArg then ArgDirectory else Directory)
    else if ft.isSymlink then SymbolicLink
    else if ft.isBlockDevice then BlockDev
    else if ft.isCharDevice then CharDev
    else if ft.isFifo then Fifo
    else if ft.isSocket then Sock
    else Unknown
  }

  /** The flags the operating system reports for an entry of kind `k`. */
  function FlagsOf(k: FileType): OsFileType {
    var none := OsFileType(false, false, false, false, false, false, false);
    match k
    case Unknown => none
    case Fifo => none.(isFifo := true)
    case CharDev => none.(isCharDevice := true)
    case Directory => none.(isDir := true)
    case ArgDirectory => none.(isDir := true)
    case BlockDev => none.(isBlockDevice := true)
    case Normal => none.(isFile := true)
    case SymbolicLink => none.(isSymlink := true)
    case Sock => none.(isSocket := true)
  }

  /** Classification recovers every kind from the flags of that kind; the two
      directory kinds are told apart by `cli_arg` alone. */
  lemma ClassificationRecoversKind(k: FileType)
    ensures NewFileType(FlagsOf(k), k == ArgDirectory) == k
  {
  }

  /** `FileType::determine`: classification of the metadata's own file type. */
  function Determine(md: Metadata, cliArg: bool): (k: FileType)
    ensures k == NewFileType(md.fileType, cliArg)
    ensures k == ArgDirectory ==> cliArg
  {
    NewFileType(md.fileType, cliArg)
  }

  /** `char::is_whitespace`: the Unicode White_Space property. */
  predicate IsWhitespace(c: char) {
    ('\U{0009}' <= c <= '\U{000D}') || c == '\U{0020}' || c == '\U{0085}' || c == '\U{00A0}'
    || c == '\U{1680}' || ('\U{2000}' <= c <= '\U{200A}') || c == '\U{2028}' || c == '\U{2029}'
    || c == '\U{202F}' || c == '\U{205F}' || c == '\U{3000}'
  }

  /** `name.chars().any(|c| c.is_whitespace())` */
  function AnyWhitespace(s: string): (b: bool)
    ensures b <==> exists i :: 0 <= i < |s| && IsWhitespace(s[i])
  {
    if s == [] then false
    else if IsWhitespace(s[0]) then true
    else
      var b := AnyWhitespace(s[1..]);
      assert forall i :: 1 <= i < |s| ==> s[i] == s[1..][i - 1];
      b
  }

  /** Screen width of a name: one column per character. */
  function DisplayWidth(s: string): nat {
    |s|
  }

  datatype FileInfo = FileInfo(
    name: string,
    linkName: Option<string>,
    metadata: Option<Metadata>,
    linkMetadata: Option<Metadata>,
    inode: u64,
    fileType: FileType,
    width: nat,
    quoting: bool)
  {
    /** `is_directory` */
    predicate IsDirectory()
      ensures IsDirectory() <==> fileType == Directory || fileType == ArgDirectory
    {
      match fileType
      case Directory => true
      case ArgDirectory => true
      case _ => false
    }

    /** `quoted_name`: single quotes around a name that needs quoting. */
    function QuotedName(): (q: string)
      ensures quoting ==> q == ['\''] + name + ['\'']
      ensures !quoting ==> q == name
    {
      if quoting then "'" + name + "'" else name
    }

    /** The width and quoting were computed from the name when the entry was made. */
    predicate WellFormed() {
      quoting == AnyWhitespace(name)
      && width == DisplayWidth(name) + (if quoting then 2 else 0)
    }
  }

  /** `FileInfo::new`: the name is quoted iff it holds whitespace, and the cached
      width is then exactly the width of the text printed for the entry. */
  function NewFileInfo(name: string, linkName: Option<string>, md: Option<Metadata>,
                       linkMd: Option<Metadata>, inode: u64, fileType: FileType): (f: FileInfo)
    ensures f.name == name && f.linkName == linkName && f.metadata == md
    ensures f.linkMetadata == linkMd && f.inode == inode && f.fileType == fileType
    ensures f.quoting <==> exists i :: 0 <= i < |name| && IsWhitespace(name[i])
    ensures f.WellFormed()
    ensures DisplayWidth(f.QuotedName()) == f.width
  {
    var quoting := AnyWhitespace(name);
    var width := DisplayWidth(name) + if quoting then DisplayWidth("''") else 0;
    FileInfo(name, linkName, md, linkMd, inode, fileType, width, quoting)
  }

  // ---------------------------------------------------------------------------
  // Sorting by lower-case name

  /** `to_lowercase` on one character (ASCII letters only). */
  function Lower(c: char): char {
    if 'A' <= c <= 'Z' then (c as int + 32) as char else c
  }

  function LowerName(s: string): (t: string)
    ensures |t| == |s|
  {
    seq(|s|, i requires 0 <= i < |s| => Lower(s[i]))
  }

  /** Strict lexicographic order of strings by code point, as `Ord for str` compares. */
  predicate LexLess(a: string, b: string)
    decreases |a|
  {
    if a == [] then b != []
    else if b == [] then false
    else if a[0] < b[0] then true
    else a[0] == b[0] && LexLess(a[1..], b[1..])
  }

  lemma {:induction false} LexLessIrreflexive(a: string)
    ensures !LexLess(a, a)
    decreases |a|
  {
    if a != [] {
      LexLessIrreflexive(a[1..]);
    }
  }

  lemma {:induction false} LexLessTransitive(a: string, b: string, c: string)
    requires LexLess(a, b) && LexLess(b, c)
    ensures LexLess(a, c)
    decreases |a|
  {
    if a != [] && b != [] && c != [] && a[0] == b[0] && b[0] == c[0] {
      LexLessTransitive(a[1..], b[1..], c[1..]);
    }
  }

  lemma {:induction false} LexLessTotal(a: string, b: string)
    ensures a == b || LexLess(a, b) || LexLess(b, a)
    decreases |a|
  {
    if a != [] && b != [] && a[0] == b[0] {
      LexLessTotal(a[1..], b[1..]);
      if a[1..] == b[1..] {
        assert a == [a[0]] + a[1..] && b == [b[0]] + b[1..];
      }
    }
  }

  /** The sort key of the entry at index `i` of the batch. */
  function Key(files: seq<FileInfo>, i: nat): string
    requires i < |files|
  {
    LowerName(files[i].name)
  }

  /** Index `i` goes before index `j` in a stable sort by key. */
  predicate Before(files: seq<FileInfo>, i: nat, j: nat)
    requires i < |files| && j < |files|
  {
    LexLess(Key(files, i), Key(files, j)) || (Key(files, i) == Key(files, j) && i < j)
  }

  lemma BeforeTransitive(files: seq<FileInfo>, i: nat, j: nat, k: nat)
    requires i < |files| && j < |files| && k < |files|
    requires Before(files, i, j) && Before(files, j, k)
    ensures Before(files, i, k)
  {
    if LexLess(Key(files, i), Key(files, j)) && LexLess(Key(files, j), Key(files, k)) {
      LexLessTransitive(Key(files, i), Key(files, j), Key(files, k));
    }
  }

  lemma BeforeTotal(files: seq<FileInfo>, i: nat, j: nat)
    requires i < |files| && j < |files| && i != j
    ensures Before(files, i, j) || Before(files, j, i)
  {
    LexLessTotal(Key(files, i), Key(files, j));
  }

  /** A stable sort by key: the order of a pair of indices is decided by the key,
      and by position in the batch when the keys are equal. */
  predicate StablySorted(files: seq<FileInfo>, perm: seq<nat>)
  {
    (forall p :: 0 <= p < |perm| ==> perm[p] < |files|)
    && forall p, q :: 0 <= p < q < |perm| ==> Before(files, perm[p], perm[q])
  }

  predicate InBounds(files: seq<FileInfo>, s: seq<nat>) {
    forall k :: 0 <= k < |s| ==> s[k] < |files|
  }

  predicate Distinct(s: seq<nat>) {
    forall p, q :: 0 <= p < q < |s| ==> s[p] != s[q]
  }

  /** The first `n` positions are in stable-sort order. */
  predicate SortedPrefix(files: seq<FileInfo>, s: seq<nat>, n: nat)
    requires InBounds(files, s) && n <= |s|
  {
    forall p, q :: 0 <= p < q < n ==> Before(files, s[p], s[q])
  }

  /** Exchanges positions `j - 1` and `j`. */
  method Swap(a: array<nat>, j: nat)
    requires 0 < j < a.Length
    modifies a
    ensures a[..] == old(a[..])[j - 1 := old(a[j])][j := old(a[j - 1])]
    ensures multiset(a[..]) == old(multiset(a[..]))
  {
    a[j - 1], a[j] := a[j], a[j - 1];
  }

  /** While an entry moves left from position `i`, it sits at `j`: the other
      positions up to `i` are in order, and it goes before everything to its right. */
  predicate Inserting(files: seq<FileInfo>, s: seq<nat>, i: nat, j: nat)
    requires InBounds(files, s) && j <= i < |s|
  {
    (forall p, q :: 0 <= p < q <= i && p != j && q != j ==> Before(files, s[p], s[q]))
    && forall q :: j < q <= i ==> Before(files, s[j], s[q])
  }

  /** Exchanging the moving entry with the one on its left, which goes strictly
      after it, keeps the insertion state. */
  lemma InsertingStep(files: seq<FileInfo>, s: seq<nat>, i: nat, j: nat)
    requires InBounds(files, s) && Distinct(s) && 0 < j <= i < |s|
    requires Inserting(files, s, i, j) && Before(files, s[j], s[j - 1])
    ensures InBounds(files, s[j - 1 := s[j]][j := s[j - 1]])
    ensures Distinct(s[j - 1 := s[j]][j := s[j - 1]])
    ensures Inserting(files, s[j - 1 := s[j]][j := s[j - 1]], i, j - 1)
  {
    var t := s[j - 1 := s[j]][j := s[j - 1]];
    forall p, q | 0 <= p < q < |t|
      ensures t[p] != t[q]
    {
      assert t[p] == s[if p == j - 1 then j else if p == j then j - 1 else p];
      assert t[q] == s[if q == j - 1 then j else if q == j then j - 1 else q];
    }
    forall q | j - 1 < q <= i
      ensures Before(files, t[j - 1], t[q])
    {
      if q > j {
        assert Before(files, s[j], s[q]);
      }
    }
  }

  /** One step of insertion sort: moves the entry at position `i` left past every
      entry that goes strictly after it. */
  method InsertAt(files: seq<FileInfo>, a: array<nat>, i: nat)
    requires i < a.Length
    requires InBounds(files, a[..]) && Distinct(a[..]) && SortedPrefix(files, a[..], i)
    modifies a
    ensures InBounds(files, a[..]) && Distinct(a[..]) && SortedPrefix(files, a[..], i + 1)
    ensures multiset(a[..]) == old(multiset(a[..]))
  {
    var j := i;
    while j > 0 && Before(files, a[j], a[j - 1])
      invariant 0 <= j <= i
      invariant InBounds(files, a[..]) && Distinct(a[..]) && Inserting(files, a[..], i, j)
      invariant multiset(a[..]) == old(multiset(a[..]))
    {
      InsertingStep(files, a[..], i, j);
      Swap(a, j);
      j := j - 1;
    }
    if j > 0 {
      BeforeTotal(files, a[j], a[j - 1]);
      forall p | 0 <= p < j - 1
        ensures Before(files, a[p], a[j])
      {
        BeforeTransitive(files, a[p], a[j - 1], a[j]);
      }
    }
  }

  /** Sorts the index array in place by insertion (stable: an entry only moves
      past entries that go strictly after it). */
  method SortByKey(files: seq<FileInfo>, a: array<nat>)
    requires InBounds(files, a[..]) && Distinct(a[..])
    modifies a
    ensures InBounds(files, a[..]) && SortedPrefix(files, a[..], a.Length)
    ensures multiset(a[..]) == old(multiset(a[..]))
  {
    var i := 0;
    while i < a.Length
      invariant 0 <= i <= a.Length
      invariant InBounds(files, a[..]) && Distinct(a[..]) && SortedPrefix(files, a[..], i)
      invariant multiset(a[..]) == old(multiset(a[..]))
    {
      InsertAt(files, a, i);
      i := i + 1;
    }
  }

  /** `sorted_files(SortType::Name)`: one index per entry of the batch, pushed in
      batch order, then sorted stably by lower-case name. The result holds every
      index of the batch exactly once. */
  method SortedFiles(files: seq<FileInfo>) returns (out: seq<nat>)
    ensures |out| == |files|
    ensures StablySorted(files, out)
    ensures multiset(out) == multiset(Indices(|files|))
  {
    var a := new nat[|files|];
    var i := 0;
    while i < |files|
      invariant 0 <= i <= |files|
      invariant forall k :: 0 <= k < i ==> a[k] == k
    {
      a[i] := i;
      i := i + 1;
    }
    assert a[..] == Indices(|files|);
    SortByKey(files, a);
    out := a[..];
    assert StablySorted(files, out) by {
      assert SortedPrefix(files, out, |out|);
    }
  }

  function Indices(n: nat): (s: seq<nat>)
    ensures |s| == n && forall k :: 0 <= k < n ==> s[k] == k
  {
    seq(n, k requires 0 <= k < n => k)
  }

  /** What a stable sort by key promises: names in non-decreasing lower-case order,
      and entries with equal lower-case names in their batch order. */
  lemma StablySortedMeansOrdered(files: seq<FileInfo>, perm: seq<nat>, p: nat, q: nat)
    requires StablySorted(files, perm)
    requires p < q < |perm|
    ensures LexLess(Key(files, perm[p]), Key(files, perm[q])) || Key(files, perm[p]) == Key(files, perm[q])
    ensures Key(files, perm[p]) == Key(files, perm[q]) ==> perm[p] < perm[q]
    ensures perm[p] != perm[q]
  {
    LexLessIrreflexive(Key(files, perm[p]));
  }
}
