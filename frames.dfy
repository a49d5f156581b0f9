/** The table the ranking pipeline works on: a pandas DataFrame indexed by
    ticker ("Papel"), with an ordered list of column labels and, for each
    row, one cell per column. */
module Frames {

  datatype Option<+T> = None | Some(value: T)

  /** A cell as pandas holds it once the page is parsed: a number, or text
      that was not parsed (the percentage columns). */
  datatype Cell = Num(v: real) | Text(s: string)

  datatype Row = Row(ticker: string, cells: map<string, Cell>)

  datatype Frame = Frame(columns: seq<string>, rows: seq<Row>)

  /** The exceptions the pipeline raises and does not catch. */
  datatype Exception =
    | KeyError(key: string)           // a column the table does not have
    | TypeError(column: string)       // `<=` between a text cell and a number
    | ValueError(text: string)        // `float()` of text that is not a number
    | AttributeError(column: string)  // `.strip` on a cell that is not text

  datatype Result<+T> = Ok(value: T) | Err(error: Exception)

  /** What an in-place step leaves behind: the table as it now is, and the
      exception that interrupted the step, if any. */
  datatype Outcome = Outcome(df: Frame, raised: Option<Exception>)

  function ColumnSet(columns: seq<string>): set<string> {
    set c | c in columns
  }

  /** Every row has a cell for exactly the table's columns. */
  predicate WellFormed(df: Frame) {
    forall r :: r in df.rows ==> r.cells.Keys == ColumnSet(df.columns)
  }

  predicate HasNum(r: Row, col: string) {
    col in r.cells && r.cells[col].Num?
  }

  function Value(r: Row, col: string): real
    requires HasNum(r, col)
  {
    r.cells[col].v
  }

  predicate AllNum(rows: seq<Row>, col: string) {
    forall k :: 0 <= k < |rows| ==> HasNum(rows[k], col)
  }

  /** A column the table has, holding a number in every row. */
  predicate NumericColumn(df: Frame, col: string) {
    col in df.columns && AllNum(df.rows, col)
  }

  /** `DataFrame.empty`: no rows, or no columns. */
  predicate IsEmpty(df: Frame) {
    |df.rows| == 0 || |df.columns| == 0
  }

  predicate DistinctTickers(rows: seq<Row>) {
    forall i, j :: 0 <= i < j < |rows| ==> rows[i].ticker != rows[j].ticker
  }

  /** Assigning a column `df[c] = ...`: a new label goes last, an existing
      one keeps its place. */
  function AddColumn(columns: seq<string>, c: string): (r: seq<string>)
    ensures ColumnSet(r) == ColumnSet(columns) + {c}
    ensures columns <= r
    ensures c in columns ==> r == columns
    ensures c !in columns ==> r == columns + [c]
  {
    if c in columns then columns else columns + [c]
  }

  function Min(a: int, b: int): int { if a <= b then a else b }

  function Max(a: int, b: int): int { if a <= b then b else a }

  /** `DataFrame.head(n)`: the first n rows; a negative n keeps all rows but
      the last -n. */
  function Head<T>(s: seq<T>, n: int): (r: seq<T>)
    ensures r <= s
    ensures n >= 0 ==> |r| == Min(n, |s|)
    ensures n < 0 ==> |r| == Max(|s| + n, 0)
  {
    if n >= 0 then
      (if n <= |s| then s[..n] else s)
    else
      (if |s| + n >= 0 then s[..|s| + n] else [])
  }
}
