/** The first two stages of `calc_rank`: normalising the return-on-capital
    column and dropping the rows that cannot be ranked. Each stage is given
    as the `Outcome` it leaves in `pd_df`. */
module Filtering {
  import opened Frames
  import opened PercentText

  /** The two-month liquidity column every method filters on. */
  const Liquidity := "Liq.2meses"

  // ---------------------------------------------------------------------
  // Normalisation (`pct_to_float` as the converter of one column)
  // ---------------------------------------------------------------------

  /** `pct_to_float` on one cell; `parse` stands for `float()`, which gives
      None where Python raises ValueError. A cell that is already a number
      has no `.strip`, which raises AttributeError. */
  function ConvertCell(c: Cell, col: string, parse: string -> Option<real>): Result<Cell> {
    match c
    case Num(_) => Err(AttributeError(col))
    case Text(s) =>
      match parse(PctText(s))
      case Some(v) => Ok(Num(v))
      case None => Err(ValueError(PctText(s)))
  }

  predicate Convertible(r: Row, col: string, parse: string -> Option<real>)
    requires col in r.cells
  {
    ConvertCell(r.cells[col], col, parse).Ok?
  }

  /** The row with its cell in col replaced by the converted cell. */
  function ConvertedRow(r: Row, col: string, parse: string -> Option<real>): Row
    requires col in r.cells && Convertible(r, col, parse)
  {
    Row(r.ticker, r.cells[col := ConvertCell(r.cells[col], col, parse).value])
  }

  /** The position of the first row whose cell in col does not convert,
      or |rows| when every one does. */
  function FirstFailure(rows: seq<Row>, col: string, parse: string -> Option<real>): (i: nat)
    requires forall k :: 0 <= k < |rows| ==> col in rows[k].cells
    ensures i <= |rows|
    ensures i < |rows| ==> !Convertible(rows[i], col, parse)
    ensures forall k :: 0 <= k < i ==> Convertible(rows[k], col, parse)
  {
    if rows == [] then 0
    else if !Convertible(rows[0], col, parse) then 0
    else
      assert forall k :: 0 <= k < |rows| - 1 ==> rows[1..][k] == rows[k + 1];
      1 + FirstFailure(rows[1..], col, parse)
  }

  /** `Series.apply(pct_to_float)` on the column col of the rows: the cells
      are converted in order, and the first one that raises ends the
      application with its exception. */
  function ConvertRows(rows: seq<Row>, col: string, parse: string -> Option<real>): (r: Result<seq<Row>>)
    requires forall k :: 0 <= k < |rows| ==> col in rows[k].cells
    ensures r.Ok? <==> forall k :: 0 <= k < |rows| ==> Convertible(rows[k], col, parse)
    ensures r.Ok? ==> |r.value| == |rows|
    ensures r.Ok? ==> forall k :: 0 <= k < |rows| ==> r.value[k] == ConvertedRow(rows[k], col, parse)
  {
    var i := FirstFailure(rows, col, parse);
    if i < |rows| then Err(ConvertCell(rows[i].cells[col], col, parse).error)
    else Ok(seq(|rows|, k requires 0 <= k < |rows| => ConvertedRow(rows[k], col, parse)))
  }

  /** The converter fails on a column that already holds numbers: `strip`
      does not exist on a float. */
  lemma ConvertNumbersFails(rows: seq<Row>, col: string, parse: string -> Option<real>)
    requires rows != [] && AllNum(rows, col)
    ensures ConvertRows(rows, col, parse) == Err(AttributeError(col))
  {
    assert HasNum(rows[0], col);
    assert FirstFailure(rows, col, parse) == 0;
  }

  /** `_apply_converters`: the converter runs on the return-on-capital
      column only, and only when the table has that column. A failing
      conversion raises before the column is reassigned. */
  function ApplyConverters(df: Frame, roc: string, parse: string -> Option<real>): (r: Outcome)
    requires WellFormed(df)
    ensures roc !in df.columns ==> r == Outcome(df, None)
    ensures r.raised.Some? ==> r.df == df
    ensures r.df.columns == df.columns && WellFormed(r.df)
    ensures r.raised.None? && roc in df.columns ==> AllNum(r.df.rows, roc)
    ensures r.raised.None? ==> |r.df.rows| == |df.rows|
    ensures r.raised.None? ==> forall k :: 0 <= k < |df.rows| ==>
              r.df.rows[k].ticker == df.rows[k].ticker && r.df.rows[k].cells - {roc} == df.rows[k].cells - {roc}
    ensures r.raised.None? && roc in df.columns ==> forall k :: 0 <= k < |df.rows| ==>
              roc in df.rows[k].cells && Convertible(df.rows[k], roc, parse)
              && r.df.rows[k] == ConvertedRow(df.rows[k], roc, parse)
    ensures r.raised.Some? <==>
              roc in df.columns
              && exists k :: 0 <= k < |df.rows| && roc in df.rows[k].cells && !Convertible(df.rows[k], roc, parse)
    ensures r.raised.Some? ==>
              exists i :: 0 <= i < |df.rows| && roc in df.rows[i].cells
                && ConvertCell(df.rows[i].cells[roc], roc, parse) == Err(r.raised.value)
                && forall k :: 0 <= k < i ==> roc in df.rows[k].cells && Convertible(df.rows[k], roc, parse)
  {
    if roc !in df.columns then Outcome(df, None)
    else
      assert forall k :: 0 <= k < |df.rows| ==> roc in df.rows[k].cells by {
        forall k | 0 <= k < |df.rows| ensures roc in df.rows[k].cells {
          assert df.rows[k] in df.rows;
        }
      }
      var conv := ConvertRows(df.rows, roc, parse);
      if conv.Err? then
        var i := FirstFailure(df.rows, roc, parse);
        assert ConvertCell(df.rows[i].cells[roc], roc, parse) == Err(conv.error);
        Outcome(df, Some(conv.error))
      else
        ConvertedFrame(df, roc, parse, conv.value);
        Outcome(Frame(df.columns, conv.value), None)
  }

  /** The facts ApplyConverters promises about a successful conversion. */
  lemma ConvertedFrame(df: Frame, roc: string, parse: string -> Option<real>, rows: seq<Row>)
    requires WellFormed(df) && roc in df.columns
    requires |rows| == |df.rows|
    requires forall k :: 0 <= k < |df.rows| ==> roc in df.rows[k].cells && Convertible(df.rows[k], roc, parse)
    requires forall k :: 0 <= k < |rows| ==> rows[k] == ConvertedRow(df.rows[k], roc, parse)
    ensures WellFormed(Frame(df.columns, rows))
    ensures AllNum(rows, roc)
    ensures forall k :: 0 <= k < |df.rows| ==>
              rows[k].ticker == df.rows[k].ticker && rows[k].cells - {roc} == df.rows[k].cells - {roc}
  {
    forall k | 0 <= k < |rows| ensures rows[k].cells.Keys == ColumnSet(df.columns) && HasNum(rows[k], roc) {
      assert df.rows[k] in df.rows;
      assert rows[k].cells.Keys == df.rows[k].cells.Keys;
      assert ConvertCell(df.rows[k].cells[roc], roc, parse).value.Num?;
    }
    forall x | x in rows ensures x.cells.Keys == ColumnSet(df.columns) {
      var k :| 0 <= k < |rows| && rows[k] == x;
    }
  }

  // ---------------------------------------------------------------------
  // Dropping rows (`_remove_rows`, `remove_rows`)
  // ---------------------------------------------------------------------

  /** The index labels selected by `pd_df.loc[pd_df[col] <= minValue].index`. */
  function BadTickers(rows: seq<Row>, col: string, minValue: real): (b: set<string>)
    requires AllNum(rows, col)
    ensures forall k :: 0 <= k < |rows| && Value(rows[k], col) <= minValue ==> rows[k].ticker in b
    ensures forall t :: t in b ==> exists k :: 0 <= k < |rows| && rows[k].ticker == t && Value(rows[k], col) <= minValue
  {
    if rows == [] then {}
    else
      var p := rows[..|rows| - 1];
      var last := rows[|rows| - 1];
      var b := BadTickers(p, col, minValue) + (if Value(last, col) <= minValue then {last.ticker} else {});
      assert forall t :: t in b ==> exists k :: 0 <= k < |rows| && rows[k].ticker == t && Value(rows[k], col) <= minValue by {
        forall t | t in b
          ensures exists k :: 0 <= k < |rows| && rows[k].ticker == t && Value(rows[k], col) <= minValue
        {
          if t in BadTickers(p, col, minValue) {
            var k :| 0 <= k < |p| && p[k].ticker == t && Value(p[k], col) <= minValue;
            assert rows[k] == p[k];
          } else {
            assert rows[|rows| - 1].ticker == t;
          }
        }
      }
      b
  }

  /** `DataFrame.drop(labels)`: removes every row whose index label is one of
      the labels, keeping the others in order. */
  function DropTickers(rows: seq<Row>, bad: set<string>): (r: seq<Row>)
    ensures |r| <= |rows|
    ensures forall x :: x in r <==> x in rows && x.ticker !in bad
  {
    if rows == [] then []
    else
      assert rows == rows[..|rows| - 1] + [rows[|rows| - 1]];
      DropTickers(rows[..|rows| - 1], bad) + (if rows[|rows| - 1].ticker in bad then [] else [rows[|rows| - 1]])
  }

  /** Dropping by label keeps the relative order of what remains: it
      distributes over concatenation. */
  lemma {:induction false} DropTickersConcat(a: seq<Row>, b: seq<Row>, bad: set<string>)
    ensures DropTickers(a + b, bad) == DropTickers(a, bad) + DropTickers(b, bad)
    decreases |b|
  {
    if b == [] {
      assert a + b == a;
    } else {
      var p := b[..|b| - 1];
      assert (a + b)[..|a + b| - 1] == a + p;
      assert (a + b)[|a + b| - 1] == b[|b| - 1];
      DropTickersConcat(a, p, bad);
    }
  }

  /** `_remove_rows(col, minValue)`: a missing column raises KeyError, a text
      cell in it raises TypeError on `<=`, and otherwise the rows whose value
      is at most minValue are dropped by label. */
  function RemoveRows(df: Frame, col: string, minValue: real): Outcome {
    if col !in df.columns then Outcome(df, Some(KeyError(col)))
    else if !AllNum(df.rows, col) then Outcome(df, Some(TypeError(col)))
    else Outcome(Frame(df.columns, DropTickers(df.rows, BadTickers(df.rows, col, minValue))), None)
  }

  /** Dropping rows keeps the remaining rows whole. */
  lemma RemoveRowsWellFormed(df: Frame, col: string, minValue: real)
    requires WellFormed(df)
    ensures WellFormed(RemoveRows(df, col, minValue).df)
    ensures RemoveRows(df, col, minValue).df.columns == df.columns
  {
  }

  lemma RemoveRowsColumns(df: Frame, col: string, minValue: real)
    ensures RemoveRows(df, col, minValue).raised.None? ==> col in df.columns
    ensures RemoveRows(df, col, minValue).df.columns == df.columns
  {
  }

  /** The reference filter: the rows whose value in col is above minValue,
      in their original order. */
  function KeepAbove(rows: seq<Row>, col: string, minValue: real): (r: seq<Row>)
    requires AllNum(rows, col)
    ensures |r| <= |rows|
    ensures forall x :: x in r ==> x in rows
    ensures forall k :: 0 <= k < |rows| ==> (rows[k] in r <==> Value(rows[k], col) > minValue)
  {
    if rows == [] then []
    else
      var p := rows[..|rows| - 1];
      var last := rows[|rows| - 1];
      var r := KeepAbove(p, col, minValue) + (if Value(last, col) > minValue then [last] else []);
      assert forall k :: 0 <= k < |rows| ==> (rows[k] in r <==> Value(rows[k], col) > minValue) by {
        forall k | 0 <= k < |rows| ensures rows[k] in r <==> Value(rows[k], col) > minValue {
          if k < |p| {
            assert rows[k] == p[k];
          }
        }
      }
      r
  }

  lemma {:induction false} DropIgnoresForeignTicker(rows: seq<Row>, bad: set<string>, t: string)
    requires forall k :: 0 <= k < |rows| ==> rows[k].ticker != t
    ensures DropTickers(rows, bad + {t}) == DropTickers(rows, bad)
  {
    if rows != [] {
      DropIgnoresForeignTicker(rows[..|rows| - 1], bad, t);
    }
  }

  /** With unique tickers, dropping by label removes exactly the rows whose
      value is at most minValue and keeps the others in order. */
  lemma {:induction false} RemoveRowsIsKeepAbove(rows: seq<Row>, col: string, minValue: real)
    requires AllNum(rows, col)
    requires DistinctTickers(rows)
    ensures DropTickers(rows, BadTickers(rows, col, minValue)) == KeepAbove(rows, col, minValue)
  {
    if rows != [] {
      var p := rows[..|rows| - 1];
      var last := rows[|rows| - 1];
      var bp := BadTickers(p, col, minValue);
      var b := BadTickers(rows, col, minValue);
      RemoveRowsIsKeepAbove(p, col, minValue);
      forall k | 0 <= k < |p| ensures p[k].ticker != last.ticker {
        assert p[k] == rows[k];
      }
      assert last.ticker !in bp;
      if Value(last, col) <= minValue {
        assert b == bp + {last.ticker};
        DropIgnoresForeignTicker(p, bp, last.ticker);
      } else {
        assert b == bp;
      }
    }
  }

  lemma {:induction false} KeepAboveDistinct(rows: seq<Row>, col: string, minValue: real)
    requires AllNum(rows, col)
    requires DistinctTickers(rows)
    ensures DistinctTickers(KeepAbove(rows, col, minValue))
  {
    if rows != [] {
      var p := rows[..|rows| - 1];
      KeepAboveDistinct(p, col, minValue);
      var kp := KeepAbove(p, col, minValue);
      forall x | x in kp ensures x.ticker != rows[|rows| - 1].ticker {
        var k :| 0 <= k < |p| && p[k] == x;
        assert rows[k] == x;
      }
    }
  }

  // ---------------------------------------------------------------------
  // The filter stage (`_filter_data`, `filter_data`)
  // ---------------------------------------------------------------------

  /** Earnings yield, return on capital and liquidity all hold numbers
      above zero. */
  predicate Passes(r: Row, ey: string, roc: string) {
    && HasNum(r, ey) && Value(r, ey) > 0.0
    && HasNum(r, roc) && Value(r, roc) > 0.0
    && HasNum(r, Liquidity) && Value(r, Liquidity) > 0.0
  }

  /** The reference definition of the filter stage. */
  function KeepPassing(rows: seq<Row>, ey: string, roc: string): (r: seq<Row>)
    ensures forall x :: x in r ==> x in rows && Passes(x, ey, roc)
    ensures forall k :: 0 <= k < |rows| && Passes(rows[k], ey, roc) ==> rows[k] in r
  {
    if rows == [] then []
    else
      var p := rows[..|rows| - 1];
      var r := KeepPassing(p, ey, roc) + (if Passes(rows[|rows| - 1], ey, roc) then [rows[|rows| - 1]] else []);
      assert forall k :: 0 <= k < |rows| && Passes(rows[k], ey, roc) ==> rows[k] in r by {
        forall k | 0 <= k < |rows| && Passes(rows[k], ey, roc) ensures rows[k] in r {
          if k < |p| {
            assert rows[k] == p[k];
          }
        }
      }
      r
  }

  /** `_filter_data`: three removals in a row, the first exception stopping
      the stage. */
  function FilterData(df: Frame, ey: string, roc: string): Outcome {
    var a := RemoveRows(df, ey, 0.0);
    if a.raised.Some? then a
    else
      var b := RemoveRows(a.df, roc, 0.0);
      if b.raised.Some? then b
      else RemoveRows(b.df, Liquidity, 0.0)
  }

  lemma FilterDataWellFormed(df: Frame, ey: string, roc: string)
    requires WellFormed(df)
    ensures WellFormed(FilterData(df, ey, roc).df)
    ensures FilterData(df, ey, roc).df.columns == df.columns
  {
    var a := RemoveRows(df, ey, 0.0);
    RemoveRowsWellFormed(df, ey, 0.0);
    RemoveRowsWellFormed(a.df, roc, 0.0);
    RemoveRowsWellFormed(RemoveRows(a.df, roc, 0.0).df, Liquidity, 0.0);
  }

  lemma KeepAboveSnoc(p: seq<Row>, x: Row, col: string, minValue: real)
    requires AllNum(p + [x], col)
    ensures AllNum(p, col) && HasNum(x, col)
    ensures KeepAbove(p + [x], col, minValue)
            == KeepAbove(p, col, minValue) + (if Value(x, col) > minValue then [x] else [])
  {
    assert (p + [x])[..|p|] == p;
    assert forall k :: 0 <= k < |p| ==> p[k] == (p + [x])[k];
    assert (p + [x])[|p|] == x;
  }

  lemma KeepPassingSnoc(p: seq<Row>, x: Row, ey: string, roc: string)
    ensures KeepPassing(p + [x], ey, roc)
            == KeepPassing(p, ey, roc) + (if Passes(x, ey, roc) then [x] else [])
  {
    assert (p + [x])[..|p|] == p;
  }

  /** Three threshold filters in sequence are the one filter on all three. */
  lemma {:induction false} KeepAboveChain(rows: seq<Row>, ey: string, roc: string)
    requires AllNum(rows, ey)
    requires AllNum(KeepAbove(rows, ey, 0.0), roc)
    requires AllNum(KeepAbove(KeepAbove(rows, ey, 0.0), roc, 0.0), Liquidity)
    ensures KeepAbove(KeepAbove(KeepAbove(rows, ey, 0.0), roc, 0.0), Liquidity, 0.0) == KeepPassing(rows, ey, roc)
  {
    if rows != [] {
      var p := rows[..|rows| - 1];
      var x := rows[|rows| - 1];
      assert rows == p + [x];
      KeepAboveSnoc(p, x, ey, 0.0);
      KeepPassingSnoc(p, x, ey, roc);
      var a, ap := KeepAbove(rows, ey, 0.0), KeepAbove(p, ey, 0.0);
      var b := KeepAbove(a, roc, 0.0);
      var c := KeepAbove(b, Liquidity, 0.0);
      if Value(x, ey) > 0.0 {
        assert a == ap + [x];
        KeepAboveSnoc(ap, x, roc, 0.0);
        var bp := KeepAbove(ap, roc, 0.0);
        if Value(x, roc) > 0.0 {
          assert b == bp + [x];
          KeepAboveSnoc(bp, x, Liquidity, 0.0);
          KeepAboveChain(p, ey, roc);
          assert c == KeepAbove(bp, Liquidity, 0.0) + (if Value(x, Liquidity) > 0.0 then [x] else []);
        } else {
          assert b == bp;
          KeepAboveChain(p, ey, roc);
          assert !Passes(x, ey, roc);
        }
      } else {
        assert a == ap;
        KeepAboveChain(p, ey, roc);
        assert !Passes(x, ey, roc);
      }
    }
  }

  /** After `_filter_data` raises nothing, the rows left are input rows that
      pass all three thresholds; with unique tickers they are exactly those
      rows, in their original order, and the columns are untouched. */
  lemma FilterDataExact(df: Frame, ey: string, roc: string)
    requires FilterData(df, ey, roc).raised.None?
    ensures FilterData(df, ey, roc).df.columns == df.columns
    ensures forall x :: x in FilterData(df, ey, roc).df.rows ==> x in df.rows && Passes(x, ey, roc)
    ensures DistinctTickers(df.rows) ==> FilterData(df, ey, roc).df.rows == KeepPassing(df.rows, ey, roc)
  {
    var a := RemoveRows(df, ey, 0.0);
    var b := RemoveRows(a.df, roc, 0.0);
    var c := RemoveRows(b.df, Liquidity, 0.0);
    assert FilterData(df, ey, roc) == c;
    forall x | x in c.df.rows ensures x in df.rows && Passes(x, ey, roc) {
      assert x in b.df.rows;
      var j :| 0 <= j < |b.df.rows| && b.df.rows[j] == x;
      assert x in a.df.rows;
      var i :| 0 <= i < |a.df.rows| && a.df.rows[i] == x;
      var h :| 0 <= h < |df.rows| && df.rows[h] == x;
      assert x.ticker !in BadTickers(df.rows, ey, 0.0);
      assert x.ticker !in BadTickers(a.df.rows, roc, 0.0);
      assert x.ticker !in BadTickers(b.df.rows, Liquidity, 0.0);
    }
    if DistinctTickers(df.rows) {
      RemoveRowsIsKeepAbove(df.rows, ey, 0.0);
      KeepAboveDistinct(df.rows, ey, 0.0);
      RemoveRowsIsKeepAbove(a.df.rows, roc, 0.0);
      KeepAboveDistinct(a.df.rows, roc, 0.0);
      RemoveRowsIsKeepAbove(b.df.rows, Liquidity, 0.0);
      KeepAboveChain(df.rows, ey, roc);
    }
  }
}
