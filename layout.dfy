/** The column-fitting algorithm (`WorkingSet::calculate_columns`,
    src/working_set.rs:132-177).

    For every candidate with `col + 1` columns the entries are placed column by
    column (or row by row); a column is as wide as its widest entry plus a gap of
    2, except the candidate's last column, and at least `MIN_COLUMN_WIDTH`. The
    source keeps, per candidate, the widths and their total in place and stops
    updating a candidate once its total no longer fits the line. The functions
    below define the same widths without that pruning; the method is proved to
    compute them. */
module Layout {
  import opened Base
  import opened Columns

  /** `min(max_idx, file_count)`: the number of candidates. */
  function MaxCols(info: PrintInfo, n: nat): nat {
    if info.maxIdx < n then info.maxIdx else n
  }

  /** Rows of a candidate with `col + 1` columns: `ceil(n / (col + 1))`. */
  function Rows(n: nat, col: nat): nat {
    (n + col) / (col + 1)
  }

  /** The rows of every candidate hold all `n` entries, and there is at least one row. */
  lemma RowsCover(n: nat, col: nat)
    requires n > 0
    ensures Rows(n, col) >= 1
    ensures Rows(n, col) * (col + 1) >= n
  {
    var d := col + 1;
    var q := (n + col) / d;
    var r := (n + col) % d;
    assert n + col == q * d + r;
    assert r < d;
    assert q * d >= n;
  }

  /** The column index of entry `i` for the candidate with `col + 1` columns. */
  function ColumnOf(i: nat, n: nat, col: nat, byColumns: bool): nat
    requires i < n
  {
    RowsCover(n, col);
    if byColumns then i / Rows(n, col) else i % (col + 1)
  }

  /** Every entry lands in one of the candidate's columns: `idx <= col`. */
  lemma ColumnOfBound(i: nat, n: nat, col: nat, byColumns: bool)
    requires i < n
    ensures ColumnOf(i, n, col, byColumns) <= col
  {
    if byColumns {
      RowsCover(n, col);
      var q := Rows(n, col);
      var c := i / q;
      assert c * q <= i by {
        assert i == c * q + i % q;
      }
      if c > col {
        assert c * q >= (col + 1) * q by {
          MulMonotone(col + 1, c, q);
        }
        assert false;
      }
    }
  }

  /** Multiplying by the same factor keeps the order; the solver needs this
      nonlinear step spelled out. */
  lemma MulMonotone(a: nat, b: nat, m: nat)
    requires a <= b
    ensures a * m <= b * m
  {
  }

  /** The width an entry asks of its column: the gap of 2 is left out only in the
      candidate's last column. */
  function RealLength(w: nat, idx: nat, col: nat): nat {
    if idx == col then w else w + 2
  }

  /** The width of column `idx` of the candidate with `col + 1` columns once the
      first `k` entries are placed. */
  function ColWidth(ws: seq<nat>, k: nat, col: nat, byColumns: bool, idx: nat): nat
    requires k <= |ws|
  {
    if k == 0 then MIN_COLUMN_WIDTH
    else
      var prev := ColWidth(ws, k - 1, col, byColumns, idx);
      var c := ColumnOf(k - 1, |ws|, col, byColumns);
      if c == idx && prev < RealLength(ws[k - 1], c, col) then RealLength(ws[k - 1], c, col) else prev
  }

  /** All column widths of the candidate after `k` entries. */
  function Widths(ws: seq<nat>, k: nat, col: nat, byColumns: bool): (s: seq<nat>)
    requires k <= |ws|
    ensures |s| == col + 1
  {
    seq(col + 1, idx requires 0 <= idx < col + 1 => ColWidth(ws, k, col, byColumns, idx))
  }

  /** The candidate's total line length after `k` entries. */
  function LineLen(ws: seq<nat>, k: nat, col: nat, byColumns: bool): nat
    requires k <= |ws|
  {
    Sum(Widths(ws, k, col, byColumns))
  }

  /** The candidate still counts as fitting: its total is below the line length,
      or no entry has widened any of its columns yet. */
  predicate Fits(ws: seq<nat>, k: nat, col: nat, byColumns: bool, lineLength: nat)
    requires k <= |ws|
  {
    LineLen(ws, k, col, byColumns) < lineLength
    || LineLen(ws, k, col, byColumns) == (col + 1) * MIN_COLUMN_WIDTH
  }

  /** The in-place record `c` of the candidate with `col + 1` columns is up to date
      after `k` entries: the total is the sum of the widths, the flag says whether
      the candidate fits, and while it fits the widths are exact. */
  predicate Describes(c: ColumnInfo, ws: seq<nat>, k: nat, col: nat, byColumns: bool, lineLength: nat)
    requires k <= |ws|
  {
    |c.colArr| == col + 1
    && c.lineLen == Sum(c.colArr)
    && c.validLen == Fits(ws, k, col, byColumns, lineLength)
    && (c.validLen ==> c.colArr == Widths(ws, k, col, byColumns))
  }

  /** Every candidate's record is up to date after all entries. */
  predicate Scanned(ws: seq<nat>, info: PrintInfo, byColumns: bool, state: ColumnState) {
    |state.columns| == MaxCols(info, |ws|)
    && forall col :: 0 <= col < |state.columns| ==>
         Describes(state.columns[col], ws, |ws|, col, byColumns, info.lineLength)
  }

  /** The pick of `calculate_columns` as written: `max_cols` itself when it is at
      most 1; otherwise the largest candidate INDEX `k` in `1 .. max_cols - 1` whose
      candidate (`k + 1` columns) fits, or 1 when none of those does. */
  predicate PickedAsWritten(ws: seq<nat>, info: PrintInfo, byColumns: bool, cols: nat) {
    var maxCols := MaxCols(info, |ws|);
    (maxCols <= 1 ==> cols == maxCols)
    && (maxCols > 1 ==>
          1 <= cols < maxCols
          && (cols == 1 || Fits(ws, |ws|, cols, byColumns, info.lineLength))
          && forall k :: cols < k < maxCols ==> !Fits(ws, |ws|, k, byColumns, info.lineLength))
  }

  // ---------------------------------------------------------------------------
  // Facts about the specification

  /** Column width is the largest width asked of the column, and at least the minimum. */
  lemma {:induction false} ColWidthIsMax(ws: seq<nat>, k: nat, col: nat, byColumns: bool, idx: nat)
    requires k <= |ws|
    ensures ColWidth(ws, k, col, byColumns, idx) >= MIN_COLUMN_WIDTH
    ensures forall i :: 0 <= i < k && ColumnOf(i, |ws|, col, byColumns) == idx ==>
      ColWidth(ws, k, col, byColumns, idx) >= RealLength(ws[i], idx, col)
    ensures ColWidth(ws, k, col, byColumns, idx) == MIN_COLUMN_WIDTH
      || exists i :: 0 <= i < k && ColumnOf(i, |ws|, col, byColumns) == idx
           && ColWidth(ws, k, col, byColumns, idx) == RealLength(ws[i], idx, col)
  {
    if k > 0 {
      ColWidthIsMax(ws, k - 1, col, byColumns, idx);
    }
  }

  /** Column widths never shrink as entries are added. */
  lemma {:induction false} ColWidthGrows(ws: seq<nat>, k: nat, k': nat, col: nat, byColumns: bool, idx: nat)
    requires k <= k' <= |ws|
    ensures ColWidth(ws, k, col, byColumns, idx) <= ColWidth(ws, k', col, byColumns, idx)
    decreases k' - k
  {
    if k < k' {
      ColWidthGrows(ws, k, k' - 1, col, byColumns, idx);
    }
  }

  lemma {:induction false} SumUpdate(s: seq<nat>, j: nat, v: nat)
    requires j < |s|
    ensures Sum(s[j := v]) == Sum(s) - s[j] + v
    decreases |s|
  {
    var t := s[j := v];
    if j < |s| - 1 {
      SumUpdate(s[..|s| - 1], j, v);
      assert t[..|t| - 1] == s[..|s| - 1][j := v];
    } else {
      assert t[..|t| - 1] == s[..|s| - 1];
    }
  }

  lemma {:induction false} SumAtLeast(s: seq<nat>)
    requires forall k :: 0 <= k < |s| ==> s[k] >= MIN_COLUMN_WIDTH
    ensures Sum(s) >= |s| * MIN_COLUMN_WIDTH
    decreases |s|
  {
    if s != [] {
      SumAtLeast(s[..|s| - 1]);
    }
  }

  /** One entry changes one column of the candidate: the one it lands in. */
  lemma WidthsStep(ws: seq<nat>, k: nat, col: nat, byColumns: bool)
    requires k < |ws|
    ensures ColumnOf(k, |ws|, col, byColumns) <= col
    ensures Widths(ws, k + 1, col, byColumns)
      == Widths(ws, k, col, byColumns)[ColumnOf(k, |ws|, col, byColumns) :=
           ColWidth(ws, k + 1, col, byColumns, ColumnOf(k, |ws|, col, byColumns))]
    ensures LineLen(ws, k + 1, col, byColumns)
      == LineLen(ws, k, col, byColumns)
         - ColWidth(ws, k, col, byColumns, ColumnOf(k, |ws|, col, byColumns))
         + ColWidth(ws, k + 1, col, byColumns, ColumnOf(k, |ws|, col, byColumns))
  {
    var c := ColumnOf(k, |ws|, col, byColumns);
    ColumnOfBound(k, |ws|, col, byColumns);
    SumUpdate(Widths(ws, k, col, byColumns), c, ColWidth(ws, k + 1, col, byColumns, c));
  }

  /** A candidate's total is at least that of its minimum-width columns. */
  lemma LineLenAtLeastMinimum(ws: seq<nat>, k: nat, col: nat, byColumns: bool)
    requires k <= |ws|
    ensures LineLen(ws, k, col, byColumns) >= (col + 1) * MIN_COLUMN_WIDTH
  {
    forall idx | 0 <= idx < col + 1
      ensures Widths(ws, k, col, byColumns)[idx] >= MIN_COLUMN_WIDTH
    {
      ColWidthIsMax(ws, k, col, byColumns, idx);
    }
    SumAtLeast(Widths(ws, k, col, byColumns));
  }

  /** Once a candidate stops fitting it never fits again: the source's one-way
      `valid_len` loses nothing by freezing it. */
  lemma {:induction false} FitsStaysFalse(ws: seq<nat>, k: nat, k': nat, col: nat, byColumns: bool, lineLength: nat)
    requires k <= k' <= |ws|
    requires !Fits(ws, k, col, byColumns, lineLength)
    ensures !Fits(ws, k', col, byColumns, lineLength)
    decreases k' - k
  {
    if k < k' {
      FitsStaysFalse(ws, k, k' - 1, col, byColumns, lineLength);
      var c := ColumnOf(k' - 1, |ws|, col, byColumns);
      WidthsStep(ws, k' - 1, col, byColumns);
      ColWidthGrows(ws, k' - 1, k', col, byColumns, c);
      LineLenAtLeastMinimum(ws, k' - 1, col, byColumns);
    }
  }

  // ---------------------------------------------------------------------------
  // The algorithm

  /** The inner loop body of `calculate_columns` for one candidate and one entry:
      a candidate that still fits has the entry's column widened if needed, its
      total adjusted and its validity recomputed; a candidate that no longer fits
      is left alone. */
  method ScanEntry(c: ColumnInfo, ws: seq<nat>, fileI: nat, col: nat, byColumns: bool, lineLength: nat)
    returns (c': ColumnInfo)
    requires fileI < |ws|
    requires Describes(c, ws, fileI, col, byColumns, lineLength)
    ensures Describes(c', ws, fileI + 1, col, byColumns, lineLength)
    ensures !c.validLen ==> c' == c
  {
    c' := c;
    var fileCount := |ws|;
    var nameLength := ws[fileI];
    var cIdx := ColumnOf(fileI, fileCount, col, byColumns);
    WidthsStep(ws, fileI, col, byColumns);
    ColWidthGrows(ws, fileI, fileI + 1, col, byColumns, cIdx);
    LineLenAtLeastMinimum(ws, fileI, col, byColumns);
    if c'.validLen {
      RowsCover(fileCount, col);
      var rows := (fileCount + col) / (col + 1);
      var idx := if byColumns then fileI / rows else fileI % (col + 1);
      assert idx == cIdx;
      var realLength := if idx == col then nameLength else nameLength + 2;
      if c'.colArr[idx] < realLength {
        c' := c'.(lineLen := c'.lineLen + (realLength - c'.colArr[idx]));
        c' := c'.(colArr := c'.colArr[idx := realLength]);
        c' := c'.(validLen := c'.lineLen < lineLength);
      }
    } else {
      FitsStaysFalse(ws, fileI, fileI + 1, col, byColumns, lineLength);
    }
  }

  /** The scan of `calculate_columns`: every candidate's record after all entries. */
  method ScanAll(ws: seq<nat>, maxCols: nat, byColumns: bool, lineLength: nat)
    returns (columns: seq<ColumnInfo>)
    ensures |columns| == maxCols
    ensures forall col :: 0 <= col < maxCols ==>
      Describes(columns[col], ws, |ws|, col, byColumns, lineLength)
  {
    var fileCount := |ws|;
    var columnState := InitColumnInfo(maxCols);
    columns := columnState.columns;
    forall col | 0 <= col < maxCols
      ensures Describes(columns[col], ws, 0, col, byColumns, lineLength)
    {
      assert Widths(ws, 0, col, byColumns) == MinWidths(col + 1);
      SumMinWidths(col + 1);
    }

    for fileI := 0 to fileCount
      invariant |columns| == maxCols
      invariant forall col :: 0 <= col < maxCols ==>
        Describes(columns[col], ws, fileI, col, byColumns, lineLength)
    {
      for col := 0 to maxCols
        invariant |columns| == maxCols
        invariant forall c :: 0 <= c < col ==>
          Describes(columns[c], ws, fileI + 1, c, byColumns, lineLength)
        invariant forall c :: col <= c < maxCols ==>
          Describes(columns[c], ws, fileI, c, byColumns, lineLength)
      {
        var updated := ScanEntry(columns[col], ws, fileI, col, byColumns, lineLength);
        columns := columns[col := updated];
      }
    }
  }

  /** The pick of `calculate_columns`: counting down from `max_cols - 1`, the first
      candidate index whose record still fits, stopping at 1. */
  method PickColumns(columns: seq<ColumnInfo>) returns (cols: nat)
    ensures |columns| <= 1 ==> cols == |columns|
    ensures |columns| > 1 ==>
      1 <= cols < |columns|
      && (cols == 1 || columns[cols].validLen)
      && forall k :: cols < k < |columns| ==> !columns[k].validLen
  {
    var maxCols := |columns|;
    cols := maxCols;
    while cols > 1
      invariant cols <= maxCols
      invariant maxCols <= 1 ==> cols == maxCols
      invariant maxCols >= 1 ==> cols >= 1
      invariant forall k :: cols <= k < maxCols ==> !columns[k].validLen
    {
      cols := cols - 1;
      if columns[cols].validLen {
        break;
      }
    }
  }

  /** `calculate_columns`: scans the entries' widths for every candidate, then picks
      the column count. As written the pick is the largest candidate INDEX `k` in
      `1 .. max_cols - 1` that still fits (the candidate with `k + 1` columns), or 1
      when none does; `max_cols` itself when it is at most 1. */
  method CalculateColumns(ws: seq<nat>, info: PrintInfo, byColumns: bool)
    returns (cols: nat, state: ColumnState)
    ensures Scanned(ws, info, byColumns, state)
    ensures PickedAsWritten(ws, info, byColumns, cols)
  {
    var fileCount := |ws|;
    var maxIdx := info.maxIdx;
    var maxCols := if maxIdx < fileCount then maxIdx else fileCount;
    var columns := ScanAll(ws, maxCols, byColumns, info.lineLength);
    cols := PickColumns(columns);
    forall k | 0 <= k < maxCols
      ensures columns[k].validLen == Fits(ws, |ws|, k, byColumns, info.lineLength)
    {
      assert Describes(columns[k], ws, |ws|, k, byColumns, info.lineLength);
    }
    state := ColumnState(columns);
  }

  // ---------------------------------------------------------------------------
  // The column count as intended

  /** Whether `ws'` is `ws` with some names made wider. */
  predicate Wider(ws: seq<nat>, ws': seq<nat>) {
    |ws| == |ws'| && forall i :: 0 <= i < |ws| ==> ws[i] <= ws'[i]
  }

  lemma {:induction false} ColWidthMonotone(ws: seq<nat>, ws': seq<nat>, k: nat, col: nat, byColumns: bool, idx: nat)
    requires Wider(ws, ws') && k <= |ws|
    ensures ColWidth(ws, k, col, byColumns, idx) <= ColWidth(ws', k, col, byColumns, idx)
  {
    if k > 0 {
      ColWidthMonotone(ws, ws', k - 1, col, byColumns, idx);
    }
  }

  lemma {:induction false} SumMonotone(s: seq<nat>, t: seq<nat>)
    requires |s| == |t| && forall i :: 0 <= i < |s| ==> s[i] <= t[i]
    ensures Sum(s) <= Sum(t)
    decreases |s|
  {
    if s != [] {
      SumMonotone(s[..|s| - 1], t[..|t| - 1]);
    }
  }

  /** Wider names never make a candidate fit that did not fit before. */
  lemma FitsAntitone(ws: seq<nat>, ws': seq<nat>, col: nat, byColumns: bool, lineLength: nat)
    requires Wider(ws, ws')
    requires Fits(ws', |ws'|, col, byColumns, lineLength)
    ensures Fits(ws, |ws|, col, byColumns, lineLength)
  {
    forall idx | 0 <= idx < col + 1
      ensures Widths(ws, |ws|, col, byColumns)[idx] <= Widths(ws', |ws'|, col, byColumns)[idx]
    {
      ColWidthMonotone(ws, ws', |ws|, col, byColumns, idx);
    }
    SumMonotone(Widths(ws, |ws|, col, byColumns), Widths(ws', |ws'|, col, byColumns));
    LineLenAtLeastMinimum(ws, |ws|, col, byColumns);
  }

  /** The column count the layout is meant to produce: the LARGEST count whose
      candidate still fits, at least 1 whenever there is an entry (also on a
      terminal narrower than one minimum column), and the line it lays out stays
      within the line length unless only one column is used. */
  method FittingColumnCount(ws: seq<nat>, info: PrintInfo, byColumns: bool)
    returns (count: nat, state: ColumnState)
    requires info.maxIdx * MIN_COLUMN_WIDTH <= info.lineLength
    ensures Scanned(ws, info, byColumns, state)
    ensures count <= |ws|
    ensures |ws| > 0 ==> count >= 1
    ensures count >= 2 ==>
      count <= MaxCols(info, |ws|)
      && Fits(ws, |ws|, count - 1, byColumns, info.lineLength)
      && LineLen(ws, |ws|, count - 1, byColumns) <= info.lineLength
    ensures forall k :: count <= k < MaxCols(info, |ws|) ==>
      !Fits(ws, |ws|, k, byColumns, info.lineLength)
  {
    var fileCount := |ws|;
    var maxCols := MaxCols(info, fileCount);
    var columns := ScanAll(ws, maxCols, byColumns, info.lineLength);
    count := maxCols;
    while count > 1 && !columns[count - 1].validLen
      invariant count <= maxCols
      invariant forall k :: count <= k < maxCols ==> !columns[k].validLen
    {
      count := count - 1;
    }
    if count == 0 && fileCount > 0 {
      count := 1;
    }
    forall k | 0 <= k < maxCols
      ensures columns[k].validLen == Fits(ws, fileCount, k, byColumns, info.lineLength)
    {
      assert Describes(columns[k], ws, fileCount, k, byColumns, info.lineLength);
    }
    state := ColumnState(columns);
  }

  /** With the entry count and line length fixed, wider names never give more columns. */
  method WiderNamesFewerColumns(ws: seq<nat>, ws': seq<nat>, info: PrintInfo, byColumns: bool)
    returns (count: nat, count': nat)
    requires info.maxIdx * MIN_COLUMN_WIDTH <= info.lineLength
    requires Wider(ws, ws')
    ensures count' <= count
  {
    var state, state';
    count, state := FittingColumnCount(ws, info, byColumns);
    count', state' := FittingColumnCount(ws', info, byColumns);
    if count' >= 2 {
      FitsAntitone(ws, ws', count' - 1, byColumns, info.lineLength);
    }
  }

  /** The pick as written also never grows as names widen. */
  lemma AsWrittenPickMonotone(ws: seq<nat>, ws': seq<nat>, info: PrintInfo, byColumns: bool, cols: nat, cols': nat)
    requires Wider(ws, ws')
    requires PickedAsWritten(ws, info, byColumns, cols) && PickedAsWritten(ws', info, byColumns, cols')
    ensures cols' <= cols
  {
    if MaxCols(info, |ws|) > 1 && cols' > 1 && cols' > cols {
      FitsAntitone(ws, ws', cols', byColumns, info.lineLength);
    }
  }

  // ---------------------------------------------------------------------------
  // Where the source's pick differs

  /** Two one-character names on an 80-column line: both candidates fit, yet
      `calculate_columns` answers 1, so the grid uses a single column. */
  method TwoShortNamesAsWritten() returns (cols: nat, count: nat)
    ensures Fits([1, 1], 2, 1, true, DEFAULT_LINE_LENGTH)
    ensures cols == 1
    ensures count == 2
  {
    var info := NewPrintInfo(None);
    var state;
    cols, state := CalculateColumns([1, 1], info, true);
    count, state := FittingColumnCount([1, 1], info, true);
    assert Widths([1, 1], 2, 1, true) == [3, 3];
    assert [3, 3][..1] == [3];
    assert Sum([3, 3]) == 6;
    assert Fits([1, 1], |[1, 1]|, 1, true, info.lineLength);
  }

  /** A terminal two characters wide leaves no candidate: `calculate_columns`
      answers 0, the divisor of the grid printer, while the intended count is 1. */
  method NarrowTerminalAsWritten() returns (cols: nat, count: nat)
    ensures cols == 0
    ensures count == 1
  {
    var info := NewPrintInfo(Some(2));
    var state;
    cols, state := CalculateColumns([4], info, true);
    count, state := FittingColumnCount([4], info, true);
  }

  /** Names of widths 1, 1, 70, 70, 1. */
  function Uneven(): seq<nat> {
    [1, 1, 70, 70, 1]
  }

  /** Two columns of 3 rows: the widest names share neither column. */
  lemma UnevenTwoColumns()
    ensures Widths(Uneven(), 5, 1, true) == [72, 70]
    ensures LineLen(Uneven(), 5, 1, true) == 142
  {
    var ws := Uneven();
    assert Rows(5, 1) == 3;
    assert ColumnOf(0, 5, 1, true) == 0 && ColumnOf(1, 5, 1, true) == 0 && ColumnOf(2, 5, 1, true) == 0;
    assert ColumnOf(3, 5, 1, true) == 1 && ColumnOf(4, 5, 1, true) == 1;
    assert ColWidth(ws, 5, 1, true, 0) == 72;
    assert ColWidth(ws, 5, 1, true, 1) == 70;
    assert Widths(ws, 5, 1, true) == [72, 70];
    assert [72, 70][..1] == [72];
    assert Sum([72, 70]) == 142;
  }

  /** Three columns of 2 rows: both wide names land in the middle column. */
  lemma UnevenThreeColumns()
    ensures Widths(Uneven(), 5, 2, true) == [3, 72, 3]
    ensures LineLen(Uneven(), 5, 2, true) == 78
  {
    var ws := Uneven();
    assert Rows(5, 2) == 2;
    assert ColumnOf(0, 5, 2, true) == 0 && ColumnOf(1, 5, 2, true) == 0;
    assert ColumnOf(2, 5, 2, true) == 1 && ColumnOf(3, 5, 2, true) == 1 && ColumnOf(4, 5, 2, true) == 2;
    assert ColWidth(ws, 5, 2, true, 0) == 3;
    assert ColWidth(ws, 5, 2, true, 1) == 72;
    assert ColWidth(ws, 5, 2, true, 2) == 3;
    assert Widths(ws, 5, 2, true) == [3, 72, 3];
    assert [3, 72, 3][..2] == [3, 72] && [3, 72][..1] == [3];
    assert Sum([3, 72, 3]) == 78;
  }

  /** Four columns of 2 rows: the wide names share the second column, so the
      line needs at least 3 + 72 + 3 + 3 characters. */
  lemma UnevenFourColumns()
    ensures LineLen(Uneven(), 5, 3, true) >= 81
  {
    var ws := Uneven();
    assert Rows(5, 3) == 2;
    assert ColumnOf(2, 5, 3, true) == 1;
    forall idx | 0 <= idx < 4
      ensures ColWidth(ws, 5, 3, true, idx) >= [3, 72, 3, 3][idx]
    {
      ColWidthIsMax(ws, 5, 3, true, idx);
    }
    SumMonotone([3, 72, 3, 3], Widths(ws, 5, 3, true));
    assert Sum([3, 72, 3, 3]) == 81 by {
      assert [3, 72, 3, 3][..3] == [3, 72, 3] && [3, 72, 3][..2] == [3, 72] && [3, 72][..1] == [3];
    }
  }

  /** Five columns of 1 row: one name per column, at least 3 + 3 + 72 + 72 + 3
      characters. */
  lemma UnevenFiveColumns()
    ensures LineLen(Uneven(), 5, 4, true) >= 153
  {
    var ws := Uneven();
    assert Rows(5, 4) == 1;
    assert ColumnOf(2, 5, 4, true) == 2 && ColumnOf(3, 5, 4, true) == 3;
    forall idx | 0 <= idx < 5
      ensures ColWidth(ws, 5, 4, true, idx) >= [3, 3, 72, 72, 3][idx]
    {
      ColWidthIsMax(ws, 5, 4, true, idx);
    }
    SumMonotone([3, 3, 72, 72, 3], Widths(ws, 5, 4, true));
    assert Sum([3, 3, 72, 72, 3]) == 153 by {
      assert [3, 3, 72, 72, 3][..4] == [3, 3, 72, 72] && [3, 3, 72, 72][..3] == [3, 3, 72];
      assert [3, 3, 72][..2] == [3, 3] && [3, 3][..1] == [3];
    }
  }

  /** On an 80-column line the pick as written for these names is the index 2. */
  lemma UnevenPick(cols: nat)
    requires PickedAsWritten(Uneven(), NewPrintInfo(None), true, cols)
    ensures cols == 2
  {
    var ws, info := Uneven(), NewPrintInfo(None);
    UnevenThreeColumns();
    UnevenFourColumns();
    UnevenFiveColumns();
    assert MaxCols(info, |ws|) == 5 by {
      assert info.maxIdx == DEFAULT_LINE_LENGTH / MIN_COLUMN_WIDTH;
    }
    assert Fits(ws, |ws|, 2, true, info.lineLength);
    assert cols >= 2;
    assert !Fits(ws, |ws|, 3, true, info.lineLength) && !Fits(ws, |ws|, 4, true, info.lineLength);
  }

  /** Widths 1, 1, 70, 70, 1 on an 80-column line: three columns fit (78 wide), so
      the pick as written is the index 2, and the grid printer lays out the
      two-column candidate, whose columns 72 and 70 need 142 characters. */
  method OverflowAsWritten() returns (cols: nat)
    ensures cols == 2
    ensures Fits(Uneven(), 5, 2, true, DEFAULT_LINE_LENGTH)
    ensures LineLen(Uneven(), 5, 2, true) == 78
    ensures !Fits(Uneven(), 5, cols - 1, true, DEFAULT_LINE_LENGTH)
    ensures Widths(Uneven(), 5, cols - 1, true) == [72, 70]
    ensures LineLen(Uneven(), 5, cols - 1, true) == 142
  {
    var state;
    cols, state := CalculateColumns(Uneven(), NewPrintInfo(None), true);
    UnevenPick(cols);
    UnevenTwoColumns();
    UnevenThreeColumns();
  }
}
