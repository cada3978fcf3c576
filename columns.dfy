/** Output geometry (src/print/print_info.rs): the line length, the largest
    number of columns worth trying, and the initial state of each column-count
    candidate. */
module Columns {
  import opened Base

  const MIN_COLUMN_WIDTH: nat := 3
  const DEFAULT_LINE_LENGTH: nat := 80

  datatype PrintInfo = PrintInfo(maxIdx: nat, lineLength: nat)

  /** `PrintInfo::new`, with the terminal's width passed in (none when unknown). */
  function NewPrintInfo(terminalWidth: Option<nat>): (p: PrintInfo)
    ensures p.lineLength == if terminalWidth.Some? then terminalWidth.value else DEFAULT_LINE_LENGTH
    ensures p.maxIdx * MIN_COLUMN_WIDTH <= p.lineLength < (p.maxIdx + 1) * MIN_COLUMN_WIDTH
  {
    var lineLength := match terminalWidth
      case Some(len) => len
      case None => DEFAULT_LINE_LENGTH;
    PrintInfo(lineLength / MIN_COLUMN_WIDTH, lineLength)
  }

  /** One column-count candidate: its column widths, their running total and
      whether the total has stayed within the line. */
  datatype ColumnInfo = ColumnInfo(validLen: bool, lineLen: nat, colArr: seq<nat>)

  datatype ColumnState = ColumnState(columns: seq<ColumnInfo>)

  function Sum(s: seq<nat>): nat
    decreases |s|
  {
    if s == [] then 0 else Sum(s[..|s| - 1]) + s[|s| - 1]
  }

  /** `vec![MIN_COLUMN_WIDTH; n]` */
  function MinWidths(n: nat): (s: seq<nat>)
    ensures |s| == n && forall k :: 0 <= k < n ==> s[k] == MIN_COLUMN_WIDTH
  {
    seq(n, _ => MIN_COLUMN_WIDTH)
  }

  /** The total of `n` minimum-width columns. */
  lemma {:induction false} SumMinWidths(n: nat)
    ensures Sum(MinWidths(n)) == n * MIN_COLUMN_WIDTH
  {
    if n > 0 {
      SumMinWidths(n - 1);
      assert MinWidths(n)[..n - 1] == MinWidths(n - 1);
    }
  }

  /** The candidate with `i + 1` columns before any entry is seen. */
  predicate Initial(c: ColumnInfo, i: nat) {
    c.validLen && c.colArr == MinWidths(i + 1) && c.lineLen == (i + 1) * MIN_COLUMN_WIDTH
  }

  /** `ColumnState::init_column_info`: `maxCols` candidates, candidate `i` with
      `i + 1` columns of the minimum width, its line length their sum, valid. */
  method InitColumnInfo(maxCols: nat) returns (state: ColumnState)
    ensures |state.columns| == maxCols
    ensures forall i :: 0 <= i < maxCols ==> Initial(state.columns[i], i)
    ensures forall i :: 0 <= i < maxCols ==> state.columns[i].lineLen == Sum(state.columns[i].colArr)
  {
    var columns: seq<ColumnInfo> := [];
    for i := 0 to maxCols
      invariant |columns| == i
      invariant forall k :: 0 <= k < i ==> Initial(columns[k], k)
      invariant forall k :: 0 <= k < i ==> columns[k].lineLen == Sum(columns[k].colArr)
    {
      var colCount := i + 1;
      var colArr := MinWidths(colCount);
      var lineLen := colCount * MIN_COLUMN_WIDTH;
      SumMinWidths(colCount);
      columns := columns + [ColumnInfo(true, lineLen, colArr)];
    }
    state := ColumnState(columns);
  }
}
