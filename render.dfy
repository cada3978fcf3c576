/** The renderer (src/print/mod.rs), without colours and time stamps: the type
    and permission characters, the right-aligned fields of the long format, and
    the order in which `print_many_per_line` walks the sorted entries. */
module Render {
  import opened Base
  import opened Entries
  import opened Format
  import opened Columns
  import opened Layout
  import opened FileSystem
  import opened Listing

  // ---------------------------------------------------------------------------
  // Type and permissions

  /** `file_type_to_string` */
  function FileTypeChar(k: FileType): (c: char)
    ensures c == 'd' <==> k == Directory || k == ArgDirectory
    ensures c == '?' <==> k == Unknown
  {
    match k
    case Normal => '-'
    case Directory => 'd'
    case ArgDirectory => 'd'
    case SymbolicLink => 'l'
    case BlockDev => 'b'
    case CharDev => 'c'
    case Fifo => 'p'
    case Sock => 's'
    case Unknown => '?'
  }

  /** Apart from the two directory kinds, the type character names the kind. */
  lemma FileTypeCharDistinguishes(a: FileType, b: FileType)
    requires FileTypeChar(a) == FileTypeChar(b)
    ensures a == b || (FileTypeChar(a) == 'd' && a != b)
  {
  }

  /** `S_IRUSR`, 0o400: the owner's read bit, the highest of the nine permission bits. */
  const S_IRUSR: bv32 := 0x100

  /** The bit tested for permission character `p`: read, write and execute of
      owner, group and other, from 0o400 down to 0o001. */
  const PERMISSION_MASKS: seq<bv32> := [0x100, 0x80, 0x40, 0x20, 0x10, 0x8, 0x4, 0x2, 0x1]

  /** Permission character `p` is tested against `S_IRUSR >> p`. */
  lemma MasksAreShifts()
    ensures forall p :: 0 <= p < 9 ==> PERMISSION_MASKS[p] == S_IRUSR >> p
  {
    forall p | 0 <= p < 9
      ensures PERMISSION_MASKS[p] == S_IRUSR >> p
    {
      if p == 0 { } else if p == 1 { } else if p == 2 { } else if p == 3 { }
      else if p == 4 { } else if p == 5 { } else if p == 6 { } else if p == 7 { } else { }
    }
  }

  /** Permission character `p` of `mode`: `r`, `w` or `x` for class `p / 3`
      (owner, group, other) and permission `p % 3` when bit
      `PERMISSION_MASKS[p]` is set, and `-` otherwise. */
  function PermissionChar(mode: bv32, p: nat): char
    requires p < 9
  {
    if mode & PERMISSION_MASKS[p] != 0 then "rwxrwxrwx"[p] else '-'
  }

  /** The nine permission characters of `mode`. */
  function PermissionBits(mode: bv32): (s: string)
    ensures |s| == 9
  {
    seq(9, p requires 0 <= p < 9 => PermissionChar(mode, p))
  }

  /** One round of the loop in `permissions_to_string`: the masks 0o400, 0o200
      and 0o100 (`perm_masks`) applied to the mode shifted so far. */
  function OwnerClass(shifted: bv32): string {
    [if shifted & 0x100 != 0 then 'r' else '-',
     if shifted & 0x80 != 0 then 'w' else '-',
     if shifted & 0x40 != 0 then 'x' else '-']
  }

  /** What `classes` more rounds of the loop append, from the mode `shifted`. */
  function ShiftedClasses(shifted: bv32, classes: nat): string
    decreases classes
  {
    if classes == 0 then [] else OwnerClass(shifted) + ShiftedClasses(shifted << 3, classes - 1)
  }

  lemma GroupClass(m: bv32)
    ensures PermissionBits(m)[3..6] == OwnerClass(m << 3)
  {
    assert (m << 3) & 0x100 != 0 <==> m & 0x20 != 0;
    assert (m << 3) & 0x80 != 0 <==> m & 0x10 != 0;
    assert (m << 3) & 0x40 != 0 <==> m & 0x8 != 0;
  }

  lemma OtherClass(m: bv32)
    ensures PermissionBits(m)[6..9] == OwnerClass((m << 3) << 3)
  {
    assert (m << 3) << 3 == m << 6;
    assert (m << 6) & 0x100 != 0 <==> m & 0x4 != 0;
    assert (m << 6) & 0x80 != 0 <==> m & 0x2 != 0;
    assert (m << 6) & 0x40 != 0 <==> m & 0x1 != 0;
  }

  lemma OwnClass(m: bv32)
    ensures PermissionBits(m)[0..3] == OwnerClass(m)
  {
  }

  /** Three rounds of testing the owner's bits and shifting left by one class
      read every one of the nine masks: the loop computes `PermissionBits`. */
  lemma ShiftingReadsEveryMask(m: bv32)
    ensures ShiftedClasses(m, 3) == PermissionBits(m)
  {
    OwnClass(m);
    GroupClass(m);
    OtherClass(m);
    var b := PermissionBits(m);
    assert b == b[0..3] + b[3..6] + b[6..9];
    assert ShiftedClasses(m, 3) == OwnerClass(m) + OwnerClass(m << 3) + OwnerClass((m << 3) << 3) by {
      assert ShiftedClasses((m << 3) << 3, 1)
        == OwnerClass((m << 3) << 3) + ShiftedClasses(((m << 3) << 3) << 3, 0);
    }
  }

  /** One more round of the loop moves a class from what is left to do onto the
      output. */
  lemma AppendRound(out: string, mode: bv32, classes: nat)
    requires classes > 0
    ensures (out + OwnerClass(mode)) + ShiftedClasses(mode << 3, classes - 1) == out + ShiftedClasses(mode, classes)
  {
  }

  /** `permissions_to_string`: the type character, then three classes of `rwx`
      read off the mode by shifting it left one class at a time, or nine `?` when
      there is no metadata. Always ten characters. */
  method PermissionsToString(md: Option<Metadata>, k: FileType) returns (out: string)
    ensures |out| == 10 && out[0] == FileTypeChar(k)
    ensures md.None? ==> out[1..] == "?????????"
    ensures md.Some? ==> out[1..] == PermissionBits(md.value.mode)
  {
    out := [FileTypeChar(k)];
    match md {
      case Some(metadata) =>
        var mode := metadata.mode;
        for i := 0 to 3
          invariant out + ShiftedClasses(mode, 3 - i) == [FileTypeChar(k)] + ShiftedClasses(metadata.mode, 3)
        {
          AppendRound(out, mode, 3 - i);
          out := out + OwnerClass(mode);
          mode := mode << 3;
        }
        assert out == [FileTypeChar(k)] + PermissionBits(metadata.mode) by {
          assert ShiftedClasses(mode, 0) == [];
          ShiftingReadsEveryMask(metadata.mode);
        }
      case None =>
        out := out + "?????????";
    }
  }

  /** `S_IXUGO`: the execute bits of owner, group and other. */
  const S_IXUGO: bv32 := 0x49 // 0o111

  /** `is_executable` */
  predicate IsExecutable(md: Option<Metadata>) {
    md.Some? && md.value.mode & S_IXUGO != 0
  }

  /** An entry is executable exactly when its permission string shows an `x` for
      some class. */
  lemma ExecutableIffSomeX(md: Option<Metadata>)
    ensures IsExecutable(md) <==>
      md.Some? && (PermissionBits(md.value.mode)[2] == 'x' || PermissionBits(md.value.mode)[5] == 'x'
                   || PermissionBits(md.value.mode)[8] == 'x')
  {
    if md.Some? {
      var m := md.value.mode;
      assert PermissionBits(m)[2] == 'x' <==> m & 0x40 != 0 by {
        assert PermissionBits(m)[2] == PermissionChar(m, 2);
      }
      assert PermissionBits(m)[5] == 'x' <==> m & 0x8 != 0 by {
        assert PermissionBits(m)[5] == PermissionChar(m, 5);
      }
      assert PermissionBits(m)[8] == 'x' <==> m & 0x1 != 0 by {
        assert PermissionBits(m)[8] == PermissionChar(m, 8);
      }
      ExecuteBits(m);
    }
  }

  lemma ExecuteBits(m: bv32)
    ensures m & S_IXUGO != 0 <==> m & 0x40 != 0 || m & 0x8 != 0 || m & 0x1 != 0
  {
  }

  // ---------------------------------------------------------------------------
  // Padding

  function Spaces(n: nat): (s: string)
    ensures |s| == n && forall i :: 0 <= i < n ==> s[i] == ' '
  {
    seq(n, _ => ' ')
  }

  /** `indent`: a space for every step from `from` up to `to`, none when `from`
      is already there. */
  method Indent(from: nat, to: nat) returns (out: string)
    ensures |out| == if from < to then to - from else 0
    ensures out == Spaces(|out|)
  {
    out := "";
    var at := from;
    assert out == Spaces(0);
    while at < to
      invariant from <= at && (at <= to || at == from)
      invariant out == Spaces(at - from)
      decreases (if from < to then to else from) - at
    {
      out := out + " ";
      at := at + 1;
    }
  }

  /** `format!("{:>w$}", s)`: `s` padded on the left with spaces to `w`
      characters, never cut. */
  function RightAlign(s: string, w: nat): (r: string)
    ensures |r| == Max(|s|, w)
    ensures r == Spaces(|r| - |s|) + s
  {
    Spaces(if |s| < w then w - |s| else 0) + s
  }

  /** The text of a right-aligned field with its leading spaces removed. */
  function Unpad(s: string): (t: string)
    ensures |t| <= |s| && t == s[|s| - |t|..]
  {
    if s != [] && s[0] == ' ' then Unpad(s[1..]) else s
  }

  lemma {:induction false} UnpadSpaces(k: nat, s: string)
    requires s == [] || s[0] != ' '
    ensures Unpad(Spaces(k) + s) == s
  {
    if k > 0 {
      assert (Spaces(k) + s)[1..] == Spaces(k - 1) + s;
      UnpadSpaces(k - 1, s);
    } else {
      assert Spaces(k) + s == s;
    }
  }

  // ---------------------------------------------------------------------------
  // Long-format fields

  /** A number right-aligned to `w`, or `?` when it is unknown. The field is never
      narrower than `w`, and its text reads back as the number. */
  function NumberField(v: Option<nat>, w: nat): (r: string)
    ensures |r| == Max(if v.Some? then DigitWidth(v.value) else 1, w)
    ensures v.Some? ==> AllDigits(Unpad(r)) && ParseDecimal(Unpad(r)) == v.value
    ensures v.None? ==> Unpad(r) == "?"
  {
    var shown := if v.Some? then DecimalString(v.value) else "?";
    AlignedReadsBack(v, w, shown);
    RightAlign(shown, w)
  }

  lemma AlignedReadsBack(v: Option<nat>, w: nat, shown: string)
    requires shown == if v.Some? then DecimalString(v.value) else "?"
    ensures |shown| == if v.Some? then DigitWidth(v.value) else 1
    ensures Unpad(RightAlign(shown, w)) == shown
    ensures v.Some? ==> AllDigits(shown) && ParseDecimal(shown) == v.value
  {
    UnpadSpaces(|RightAlign(shown, w)| - |shown|, shown);
    if v.Some? {
      DecimalRoundTrip(v.value);
    }
  }

  /** `n_link_to_string` */
  function NLinkField(md: Option<Metadata>, w: Widths): (r: string)
    ensures |r| >= w.hardLink
    ensures md.Some? ==> AllDigits(Unpad(r)) && ParseDecimal(Unpad(r)) == md.value.nlink
    ensures md.None? ==> Unpad(r) == "?"
  {
    NumberField(if md.Some? then Some(md.value.nlink as nat) else None, w.hardLink)
  }

  /** `owner_to_string`: the numeric user id. */
  function OwnerField(md: Option<Metadata>, w: Widths): (r: string)
    ensures |r| >= w.user
    ensures md.Some? ==> AllDigits(Unpad(r)) && ParseDecimal(Unpad(r)) == md.value.uid
    ensures md.None? ==> Unpad(r) == "?"
  {
    NumberField(if md.Some? then Some(md.value.uid as nat) else None, w.user)
  }

  /** `group_to_string`: the numeric group id. */
  function GroupField(md: Option<Metadata>, w: Widths): (r: string)
    ensures |r| >= w.group
    ensures md.Some? ==> AllDigits(Unpad(r)) && ParseDecimal(Unpad(r)) == md.value.gid
    ensures md.None? ==> Unpad(r) == "?"
  {
    NumberField(if md.Some? then Some(md.value.gid as nat) else None, w.group)
  }

  /** "major, minor", each part right-aligned to its width. */
  function DeviceField(major: nat, minor: nat, w: Widths): (r: string)
    ensures |r| == Max(DigitWidth(major), w.major) + 2 + Max(DigitWidth(minor), w.minor)
  {
    NumberField(Some(major), w.major) + ", " + NumberField(Some(minor), w.minor)
  }

  /** The device field reads back as its major and minor number, on either side
      of the separator. */
  lemma DeviceFieldDecodes(major: nat, minor: nat, w: Widths)
    ensures var a := Max(DigitWidth(major), w.major);
      var r := DeviceField(major, minor, w);
      r[a..a + 2] == ", "
      && AllDigits(Unpad(r[..a])) && ParseDecimal(Unpad(r[..a])) == major
      && AllDigits(Unpad(r[a + 2..])) && ParseDecimal(Unpad(r[a + 2..])) == minor
  {
    var x := NumberField(Some(major), w.major);
    var y := NumberField(Some(minor), w.minor);
    SplitAround(x, ", ", y);
  }

  /** A concatenation splits back into its three parts. */
  lemma SplitAround(x: string, sep: string, y: string)
    ensures var r := x + sep + y;
      r[..|x|] == x && r[|x|..|x| + |sep|] == sep && r[|x| + |sep|..] == y
  {
    var r := x + sep + y;
    assert r[..|x|] == x;
    assert r[|x|..|x| + |sep|] == sep;
  }

  predicate IsDevice(md: Metadata) {
    md.fileType.isBlockDevice || md.fileType.isCharDevice
  }

  /** `file_size_to_string` as written: a block or character device shows the
      major and minor number of `st_dev` (the device the entry lives on); any other
      entry shows its size; `?` without metadata. */
  function FileSizeField(md: Option<Metadata>, w: Widths): (r: string)
    ensures md.Some? && IsDevice(md.value) ==>
      r == DeviceField(DeviceNumbers(md.value.dev).0, DeviceNumbers(md.value.dev).1, w)
    ensures md.Some? && !IsDevice(md.value) ==>
      |r| >= w.fileSize && AllDigits(Unpad(r)) && ParseDecimal(Unpad(r)) == md.value.size
    ensures md.None? ==> |r| >= w.fileSize && Unpad(r) == "?"
  {
    match md
    case Some(m) =>
      if IsDevice(m) then DeviceField(DeviceNumbers(m.dev).0, DeviceNumbers(m.dev).1, w)
      else NumberField(Some(m.size as nat), w.fileSize)
    case None => NumberField(None, w.fileSize)
  }

  /** The size field as evidently intended: a device shows the major and minor
      number of `st_rdev`, the device it denotes, which is also what the widths
      were folded from. */
  function DeviceSizeField(md: Option<Metadata>, w: Widths): (r: string)
    ensures md.Some? && IsDevice(md.value) ==>
      r == DeviceField(DeviceNumbers(md.value.rdev).0, DeviceNumbers(md.value.rdev).1, w)
    ensures !(md.Some? && IsDevice(md.value)) ==> r == FileSizeField(md, w)
  {
    match md
    case Some(m) =>
      if IsDevice(m) then DeviceField(DeviceNumbers(m.rdev).0, DeviceNumbers(m.rdev).1, w)
      else FileSizeField(md, w)
    case None => FileSizeField(md, w)
  }

  /** Once the widths cover what the entry folded into them, its link count,
      owner and group fields are exactly as wide as their columns, and so is the
      size of an entry that is not a device. */
  lemma LongFieldsAligned(md: Metadata, kind: FileType, w0: Widths, w: Widths)
    requires md.fileType == FlagsOf(kind)
    requires Covers(w, FoldWidths(w0, md, kind))
    ensures |NLinkField(Some(md), w)| == w.hardLink
    ensures |OwnerField(Some(md), w)| == w.user && |GroupField(Some(md), w)| == w.group
    ensures !IsDevice(md) ==> |DeviceSizeField(Some(md), w)| == w.fileSize
  {
    if !IsDevice(md) {
      assert !(kind == CharDev || kind == BlockDev);
    }
  }

  /** With the size field as intended, a device's "major, minor" is exactly as
      wide as the major and minor columns and the separator, once the widths
      cover what the device folded into them. */
  lemma DeviceFieldAligned(md: Metadata, kind: FileType, w0: Widths, w: Widths)
    requires md.fileType == FlagsOf(kind) && IsDevice(md)
    requires Covers(w, FoldWidths(w0, md, kind))
    ensures |DeviceSizeField(Some(md), w)| == w.major + 2 + w.minor
  {
    assert kind == CharDev || kind == BlockDev;
  }

  /** A character device such as `/dev/null` (`st_rdev` 1:3, read and write for
      everyone) on a file system whose `st_dev` is 10:0. */
  function NullDevice(): Metadata {
    Metadata(FlagsOf(CharDev), 0x1b6, 1, 0, 0, 0, 0, 0xa00, 0x103)
  }

  lemma NullDeviceNumbers()
    ensures DeviceNumbers(NullDevice().dev) == (10, 0)
    ensures DeviceNumbers(NullDevice().rdev) == (1, 3)
  {
    assert Major(0xa00) == 10 && Minor(0xa00) == 0;
    assert Major(0x103) == 1 && Minor(0x103) == 3;
  }

  lemma NullDeviceWidths()
    ensures var w := FoldWidths(ZeroWidths(), NullDevice(), CharDev);
      w.major == 1 && w.minor == 1
  {
    NullDeviceNumbers();
    assert DecimalString(1) == "1" && DecimalString(3) == "3";
  }

  /** A number at least as wide as its column is shown without padding. */
  lemma NumberFieldUnpadded(n: nat, w: nat)
    requires w <= DigitWidth(n)
    ensures NumberField(Some(n), w) == DecimalString(n)
  {
    assert Spaces(0) + DecimalString(n) == DecimalString(n);
  }

  lemma DeviceFieldUnpadded(major: nat, minor: nat, w: Widths)
    requires w.major <= DigitWidth(major) && w.minor <= DigitWidth(minor)
    ensures DeviceField(major, minor, w) == DecimalString(major) + ", " + DecimalString(minor)
  {
    NumberFieldUnpadded(major, w.major);
    NumberFieldUnpadded(minor, w.minor);
  }

  lemma SmallDecimals()
    ensures DecimalString(0) == "0" && DecimalString(1) == "1" && DecimalString(3) == "3"
    ensures DecimalString(10) == "10"
  {
    assert DecimalString(10) == DecimalString(1) + [DigitChar(0)];
  }

  lemma DeviceFieldShows(w: Widths)
    requires w.major == 1 && w.minor == 1
    ensures DeviceField(10, 0, w) == "10, 0" && DeviceField(1, 3, w) == "1, 3"
  {
    SmallDecimals();
    assert "10" + ", " + "0" == "10, 0" && "1" + ", " + "3" == "1, 3";
    DeviceFieldUnpadded(10, 0, w);
    DeviceFieldUnpadded(1, 3, w);
  }

  /** For that device, the size column as written shows "10, 0", the numbers of
      the containing file system, one character wider than the widths the entry
      itself folded; as intended it shows "1, 3" at exactly that width. */
  lemma DeviceFieldFromStDev()
    ensures var w := FoldWidths(ZeroWidths(), NullDevice(), CharDev);
      FileSizeField(Some(NullDevice()), w) == "10, 0"
      && |FileSizeField(Some(NullDevice()), w)| == w.major + 2 + w.minor + 1
      && DeviceSizeField(Some(NullDevice()), w) == "1, 3"
      && |DeviceSizeField(Some(NullDevice()), w)| == w.major + 2 + w.minor
  {
    var md := NullDevice();
    var w := FoldWidths(ZeroWidths(), md, CharDev);
    NullDeviceNumbers();
    NullDeviceWidths();
    DeviceFieldShows(w);
    assert IsDevice(md);
    assert FileSizeField(Some(md), w) == DeviceField(10, 0, w);
    assert DeviceSizeField(Some(md), w) == DeviceField(1, 3, w);
  }

  /** `symlink_path_to_string`: "-> " and the target when there is one, else nothing. */
  function SymlinkPathToString(linkName: Option<string>): (r: string)
    ensures linkName.None? <==> r == ""
    ensures linkName.Some? ==> |r| == 3 + |linkName.value| && r[..3] == "-> " && r[3..] == linkName.value
  {
    match linkName
    case Some(target) => "-> " + target
    case None => ""
  }

  // ---------------------------------------------------------------------------
  // Many per line

  /** What `print_many_per_line` writes: the quoted name of the sorted entry at a
      position, a run of spaces, or the end of a row. */
  datatype Emit = Entry(position: nat) | Pad(spaces: nat) | Newline

  /** `file_count / columns + (file_count % columns != 0)`: the rows for `cols` columns. */
  function RowCount(n: nat, cols: nat): nat
    requires cols > 0
  {
    n / cols + (if n % cols != 0 then 1 else 0)
  }

  lemma MulLe(a: int, b: int, d: nat)
    requires a <= b
    ensures a * d <= b * d
  {
  }

  /** Euclidean division has one quotient and one remainder. */
  lemma DivModUnique(x: int, d: int, q: int, m: int)
    requires d > 0 && 0 <= m < d && x == q * d + m
    ensures x / d == q && x % d == m
  {
    var q', m' := x / d, x % d;
    assert x == q' * d + m';
    assert (q - q') * d == m' - m;
    if q > q' {
      MulLe(1, q - q', d);
      assert false;
    }
    if q < q' {
      MulLe(1, q' - q, d);
      assert false;
    }
  }

  /** There is a row for every `cols` entries and never more rows than entries. */
  lemma RowCountBounds(n: nat, cols: nat)
    requires n > 0 && cols > 0
    ensures 1 <= RowCount(n, cols) <= n
    ensures Stride(cols, RowCount(n, cols)) >= n
  {
    StrideIsProduct(cols, RowCount(n, cols));
    var q, m := n / cols, n % cols;
    assert n == q * cols + m;
    MulLe(1, cols, q);
    if m != 0 {
      assert (q + 1) * cols == q * cols + cols;
    } else {
      if q == 0 {
        assert false;
      }
    }
  }

  /** The first position of column `c` when every column holds `rows` entries,
      `c * rows`, counted out column by column. */
  function Stride(c: nat, rows: nat): (p: nat)
    ensures c > 0 ==> p >= rows
  {
    if c == 0 then 0 else Stride(c - 1, rows) + rows
  }

  lemma {:induction false} StrideIsProduct(c: nat, rows: nat)
    ensures Stride(c, rows) == c * rows
  {
    if c > 0 {
      StrideIsProduct(c - 1, rows);
      assert c * rows == (c - 1) * rows + rows;
    }
  }

  lemma {:induction false} StrideMonotone(a: nat, b: nat, rows: nat)
    requires a <= b
    ensures Stride(a, rows) <= Stride(b, rows)
    decreases b
  {
    if a < b {
      StrideMonotone(a, b - 1, rows);
    }
  }

  /** Within the first `cols` columns' worth of positions, the one at column `c`
      of its row has a column of its own in the layout. */
  lemma ColumnInRange(c: nat, rows: nat, f: nat, n: nat, cols: nat)
    requires rows > 0 && Stride(c, rows) <= f < n <= Stride(cols, rows)
    ensures c < cols
  {
    if c >= cols {
      StrideMonotone(cols, c, rows);
      assert false;
    }
  }

  /** One row as written from the entry at position `f`, in column `c`: the entry,
      then, unless it is the last of the row, spaces up to the column's width and
      the rest of the row `rows` positions further on. */
  function RowOutput(widths: seq<nat>, colArr: seq<nat>, rows: nat, f: nat, c: nat): seq<Emit>
    requires rows > 0 && Stride(c, rows) <= f < |widths| <= Stride(|colArr|, rows)
    decreases |widths| - f
  {
    ColumnInRange(c, rows, f, |widths|, |colArr|);
    var padding := if widths[f] < colArr[c] then colArr[c] - widths[f] else 0;
    if |widths| - rows <= f then [Entry(f)]
    else
      [Entry(f), Pad(padding)] + RowOutput(widths, colArr, rows, f + rows, c + 1)
  }

  /** A row from a position that is not the last of the row: the entry, its
      padding, then the rest of the row from the next column. */
  lemma RowOutputNext(widths: seq<nat>, colArr: seq<nat>, rows: nat, f: nat, c: nat, pad: nat)
    requires rows > 0 && Stride(c, rows) <= f < |widths| - rows && |widths| <= Stride(|colArr|, rows)
    requires c < |colArr| && pad == if widths[f] < colArr[c] then colArr[c] - widths[f] else 0
    ensures Stride(c + 1, rows) <= f + rows
    ensures RowOutput(widths, colArr, rows, f, c)
         == [Entry(f), Pad(pad)] + RowOutput(widths, colArr, rows, f + rows, c + 1)
  {
  }

  /** A row from a position in the last `rows` positions is that entry alone. */
  lemma RowOutputLast(widths: seq<nat>, colArr: seq<nat>, rows: nat, f: nat, c: nat)
    requires rows > 0 && Stride(c, rows) <= f < |widths| <= Stride(|colArr|, rows)
    requires |widths| - rows <= f
    ensures RowOutput(widths, colArr, rows, f, c) == [Entry(f)]
  {
  }

  /** Moving a written part from what is left to what is done. */
  lemma Extend<T>(done: seq<T>, part: seq<T>, rest: seq<T>, whole: seq<T>)
    requires done + (part + rest) == whole
    ensures (done + part) + rest == whole
  {
  }

  /** The step of the row loop: after writing an entry that is not the last of
      its row, and its padding, the rest is the row from the next column. */
  lemma RowStep(widths: seq<nat>, colArr: seq<nat>, rows: nat, f: nat, c: nat, pad: nat,
                line: seq<Emit>, whole: seq<Emit>)
    requires rows > 0 && Stride(c, rows) <= f < |widths| - rows && |widths| <= Stride(|colArr|, rows)
    requires c < |colArr| && pad == if widths[f] < colArr[c] then colArr[c] - widths[f] else 0
    requires line + RowOutput(widths, colArr, rows, f, c) == whole
    ensures Stride(c + 1, rows) <= f + rows
    ensures (line + [Entry(f), Pad(pad)]) + RowOutput(widths, colArr, rows, f + rows, c + 1) == whole
  {
    RowOutputNext(widths, colArr, rows, f, c, pad);
    Extend(line, [Entry(f), Pad(pad)], RowOutput(widths, colArr, rows, f + rows, c + 1), whole);
  }

  /** Rows `0 .. k - 1`, each ended by a newline. */
  function RowsUpTo(widths: seq<nat>, colArr: seq<nat>, rows: nat, k: nat): seq<Emit>
    requires 0 < rows <= |widths| <= Stride(|colArr|, rows) && k <= rows
  {
    if k == 0 then [] else RowsUpTo(widths, colArr, rows, k - 1) + RowOutput(widths, colArr, rows, k - 1, 0) + [Newline]
  }

  /** The positions named by the entries of some output, in order. */
  function Positions(e: seq<Emit>): seq<nat> {
    if e == [] then [] else (if e[0].Entry? then [e[0].position] else []) + Positions(e[1..])
  }

  lemma {:induction false} PositionsConcat(a: seq<Emit>, b: seq<Emit>)
    ensures Positions(a + b) == Positions(a) + Positions(b)
  {
    if a != [] {
      assert (a + b)[1..] == a[1..] + b;
      PositionsConcat(a[1..], b);
    } else {
      assert a + b == b;
    }
  }

  lemma ModStep(x: nat, rows: nat)
    requires rows > 0 && x >= rows
    ensures (x - rows) % rows == x % rows
  {
    var q, m := x / rows, x % rows;
    assert x == q * rows + m;
    assert x - rows == (q - 1) * rows + m;
    DivModUnique(x - rows, rows, q - 1, m);
  }

  /** Two positions less than `rows` apart lie in different residue classes. */
  lemma SameResidueApart(f: nat, x: nat, rows: nat)
    requires rows > 0 && f < x < f + rows
    ensures x % rows != f % rows
  {
    var qf, qx, m := f / rows, x / rows, f % rows;
    assert f == qf * rows + m;
    if x % rows == m {
      assert x == qx * rows + m;
      assert x - f == (qx - qf) * rows;
      if qx - qf >= 1 {
        MulLe(1, qx - qf, rows);
      } else {
        MulLe(qx - qf, 0, rows);
      }
      assert false;
    }
  }

  /** The positions from `f` on in its residue class are `f` and those from
      `f + rows` on. */
  lemma NextOfResidue(f: nat, x: nat, rows: nat, n: nat)
    requires 0 < rows && f < n
    ensures (f <= x < n && x % rows == f % rows)
      <==> (x == f || (f + rows <= x < n && x % rows == (f + rows) % rows))
  {
    assert (f + rows) % rows == f % rows by {
      ModStep(f + rows, rows);
      assert f + rows - rows == f;
    }
    if f < x < f + rows {
      SameResidueApart(f, x, rows);
    }
  }

  /** The positions a row lists: its first entry, then those of the rest of the row. */
  lemma RowOutputStep(widths: seq<nat>, colArr: seq<nat>, rows: nat, f: nat, c: nat)
    requires rows > 0 && Stride(c, rows) <= f < |widths| <= Stride(|colArr|, rows)
    ensures |widths| - rows <= f ==> Positions(RowOutput(widths, colArr, rows, f, c)) == [f]
    ensures f < |widths| - rows ==>
      Positions(RowOutput(widths, colArr, rows, f, c))
      == [f] + Positions(RowOutput(widths, colArr, rows, f + rows, c + 1))
  {
    var out := RowOutput(widths, colArr, rows, f, c);
    if |widths| - rows <= f {
      assert out == [Entry(f)];
      assert Positions(out[1..]) == [];
    } else {
      var rest := RowOutput(widths, colArr, rows, f + rows, c + 1);
      ColumnInRange(c, rows, f, |widths|, |colArr|);
      var padding := if widths[f] < colArr[c] then colArr[c] - widths[f] else 0;
      assert out == [Entry(f), Pad(padding)] + rest;
      PositionsConcat([Entry(f), Pad(padding)], rest);
      assert Positions([Entry(f), Pad(padding)]) == [f] by {
        assert [Entry(f), Pad(padding)][1..] == [Pad(padding)];
        assert [Pad(padding)][1..] == [];
      }
    }
  }

  /** The positions `f, f + rows, f + 2 * rows, ...` below `n`. */
  function Residues(f: nat, rows: nat, n: nat): seq<nat>
    requires rows > 0
    decreases n - f
  {
    if n <= f then [] else [f] + Residues(f + rows, rows, n)
  }

  /** Those positions are exactly the ones from `f` on, below `n`, in the residue
      class of `f`, each once. */
  lemma {:induction false} ResiduesCount(f: nat, rows: nat, n: nat, x: nat)
    requires rows > 0
    ensures multiset(Residues(f, rows, n))[x] == if f <= x < n && x % rows == f % rows then 1 else 0
    decreases n - f
  {
    if f < n {
      var first: seq<nat> := [f];
      var later: multiset<nat> := multiset(Residues(f + rows, rows, n));
      assert multiset(first + Residues(f + rows, rows, n))[x] == (if x == f then 1 else 0) + later[x];
      ResiduesCount(f + rows, rows, n, x);
      NextOfResidue(f, x, rows, n);
    }
  }

  /** A row lists the positions from its first entry on in steps of `rows`. */
  lemma {:induction false} RowOutputLists(widths: seq<nat>, colArr: seq<nat>, rows: nat, f: nat, c: nat)
    requires rows > 0 && Stride(c, rows) <= f < |widths| <= Stride(|colArr|, rows)
    ensures Positions(RowOutput(widths, colArr, rows, f, c)) == Residues(f, rows, |widths|)
    decreases |widths| - f
  {
    RowOutputStep(widths, colArr, rows, f, c);
    if f < |widths| - rows {
      RowOutputLists(widths, colArr, rows, f + rows, c + 1);
    } else {
      assert Residues(f + rows, rows, |widths|) == [];
    }
  }

  /** A row lists position `x` once when `x` lies at or after `f` in the row's
      residue class, and not at all otherwise. */
  lemma RowOutputCount(widths: seq<nat>, colArr: seq<nat>, rows: nat, f: nat, c: nat, x: nat)
    requires rows > 0 && Stride(c, rows) <= f < |widths| <= Stride(|colArr|, rows)
    ensures multiset(Positions(RowOutput(widths, colArr, rows, f, c)))[x]
      == if f <= x < |widths| && x % rows == f % rows then 1 else 0
  {
    RowOutputLists(widths, colArr, rows, f, c);
    ResiduesCount(f, rows, |widths|, x);
  }

  /** A row holds no newline; the caller ends it. */
  lemma {:induction false} RowOutputHasNoNewline(widths: seq<nat>, colArr: seq<nat>, rows: nat, f: nat, c: nat)
    requires rows > 0 && Stride(c, rows) <= f < |widths| <= Stride(|colArr|, rows)
    ensures Newline !in RowOutput(widths, colArr, rows, f, c)
    decreases |widths| - f
  {
    if f < |widths| - rows {
      RowOutputHasNoNewline(widths, colArr, rows, f + rows, c + 1);
    }
  }

  /** After `k` rows, position `x` has been written once if its residue is below
      `k`, and not at all otherwise. */
  lemma {:induction false} RowsUpToCount(widths: seq<nat>, colArr: seq<nat>, rows: nat, k: nat, x: nat)
    requires 0 < rows <= |widths| <= Stride(|colArr|, rows) && k <= rows
    ensures multiset(Positions(RowsUpTo(widths, colArr, rows, k)))[x]
      == if x < |widths| && x % rows < k then 1 else 0
  {
    if k > 0 {
      var prev := RowsUpTo(widths, colArr, rows, k - 1);
      var row := RowOutput(widths, colArr, rows, k - 1, 0);
      assert Positions(RowsUpTo(widths, colArr, rows, k)) == Positions(prev) + Positions(row) by {
        PositionsConcat(prev + row, [Newline]);
        PositionsConcat(prev, row);
        assert Positions([Newline]) == [] by {
          assert [Newline][1..] == [];
        }
      }
      RowsUpToCount(widths, colArr, rows, k - 1, x);
      RowOutputCount(widths, colArr, rows, k - 1, 0, x);
      ResidueBelow(x, rows, |widths|, k);
    }
  }

  /** Residues below `k` are those below `k - 1` and `k - 1` itself. */
  lemma ResidueBelow(x: nat, rows: nat, n: nat, k: nat)
    requires 0 < k <= rows
    ensures (if x < n && x % rows < k then 1 else 0)
      == (if x < n && x % rows < k - 1 then 1 else 0)
      + (if k - 1 <= x < n && x % rows == (k - 1) % rows then 1 else 0)
  {
    assert (k - 1) % rows == k - 1;
    if x < n && x % rows == k - 1 {
      assert k - 1 <= x;
    }
  }

  /** After `k` rows there are `k` newlines. */
  lemma {:induction false} RowsUpToNewlines(widths: seq<nat>, colArr: seq<nat>, rows: nat, k: nat)
    requires 0 < rows <= |widths| <= Stride(|colArr|, rows) && k <= rows
    ensures multiset(RowsUpTo(widths, colArr, rows, k))[Newline] == k
  {
    if k > 0 {
      RowsUpToNewlines(widths, colArr, rows, k - 1);
      RowOutputHasNoNewline(widths, colArr, rows, k - 1, 0);
    }
  }

  /** The names `print_many_per_line` writes: with `rows` rows over the widths of
      the columns of a layout that holds every entry, each position `0 .. n - 1`
      appears exactly once and nothing else does, and every row ends with a
      newline. */
  lemma EveryEntryOnce(widths: seq<nat>, colArr: seq<nat>, rows: nat)
    requires 0 < rows <= |widths| <= Stride(|colArr|, rows)
    ensures forall x: nat ::
      multiset(Positions(RowsUpTo(widths, colArr, rows, rows)))[x]
      == if x < |widths| then 1 else 0
    ensures multiset(RowsUpTo(widths, colArr, rows, rows))[Newline] == rows
  {
    forall x: nat
      ensures multiset(Positions(RowsUpTo(widths, colArr, rows, rows)))[x]
        == if x < |widths| then 1 else 0
    {
      RowsUpToCount(widths, colArr, rows, rows, x);
    }
    RowsUpToNewlines(widths, colArr, rows, rows);
  }

  /** One pass of the row loop of `print_many_per_line`: starting at position
      `row`, write the entry, stop after the last row's worth of positions, and
      otherwise pad to the column's width and step `rows` positions on. */
  method PrintRow(widths: seq<nat>, colArr: seq<nat>, rows: nat, row: nat) returns (line: seq<Emit>)
    requires row < rows <= |widths| <= Stride(|colArr|, rows)
    ensures line == RowOutput(widths, colArr, rows, row, 0)
  {
    var fileCount := |widths|;
    var column := 0;
    var filesno := row;
    var pos := 0;
    line := [];
    ghost var whole := RowOutput(widths, colArr, rows, row, 0);
    while true
      invariant Stride(column, rows) <= filesno < fileCount
      invariant line + RowOutput(widths, colArr, rows, filesno, column) == whole
      decreases fileCount - filesno
    {
      var nameLength := widths[filesno];
      ColumnInRange(column, rows, filesno, fileCount, |colArr|);
      var maxNameLength := colArr[column];
      column := column + 1;

      if fileCount - rows <= filesno {
        RowOutputLast(widths, colArr, rows, filesno, column - 1);
        line := line + [Entry(filesno)];
        break;
      }
      filesno := filesno + rows;

      var spaces := Indent(pos + nameLength, pos + maxNameLength);
      RowStep(widths, colArr, rows, filesno - rows, column - 1, |spaces|, line, whole);
      line := line + [Entry(filesno - rows), Pad(|spaces|)];
      pos := pos + maxNameLength;
    }
  }

  /** `print_many_per_line`: the column pick of `calculate_columns(true)` is used
      as the number of columns and the widths of candidate `columns - 1`; row `r`
      writes the entries at positions `r, r + rows, ...` (column by column),
      padding each but the last to its column's width. The source divides by the
      pick, so the line must hold a column of the minimum width. */
  method PrintManyPerLine(ws: WorkingSet) returns (cols: nat, out: seq<Emit>)
    requires InBounds(ws.cwdFiles, ws.sortedFiles) && |ws.sortedFiles| > 0
    requires ws.printInfo.maxIdx > 0
    modifies ws
    ensures ws.cwdFiles == old(ws.cwdFiles) && ws.sortedFiles == old(ws.sortedFiles)
    ensures ws.formatInfo == old(ws.formatInfo) && ws.exitStatus == old(ws.exitStatus)
    ensures ws.columnState.Some?
    ensures Scanned(SortedWidths(ws.cwdFiles, ws.sortedFiles), ws.printInfo, true, ws.columnState.value)
    ensures PickedAsWritten(SortedWidths(ws.cwdFiles, ws.sortedFiles), ws.printInfo, true, cols)
    ensures 1 <= cols <= |ws.columnState.value.columns|
    ensures var n := |ws.sortedFiles|;
      var colArr := ws.columnState.value.columns[cols - 1].colArr;
      1 <= RowCount(n, cols) <= n <= Stride(|colArr|, RowCount(n, cols))
      && out == RowsUpTo(SortedWidths(ws.cwdFiles, ws.sortedFiles), colArr, RowCount(n, cols), RowCount(n, cols))
  {
    var fileCount := |ws.sortedFiles|;
    cols := ws.CalculateColumns(true);
    var widths := SortedWidths(ws.cwdFiles, ws.sortedFiles);
    var rows := fileCount / cols + (if fileCount % cols != 0 then 1 else 0);
    assert rows == RowCount(fileCount, cols);
    RowCountBounds(fileCount, cols);
    var lineFmt := ws.columnState.value.columns[cols - 1];
    assert Describes(lineFmt, widths, |widths|, cols - 1, true, ws.printInfo.lineLength);
    assert |lineFmt.colArr| == cols;

    out := [];
    label Printing:
    for row := 0 to rows
      invariant unchanged@Printing(ws)
      invariant out == RowsUpTo(widths, lineFmt.colArr, rows, row)
    {
      var line := PrintRow(widths, lineFmt.colArr, rows, row);
      out := out + line + [Newline];
    }
    assert lineFmt == ws.columnState.value.columns[cols - 1];
  }
}
