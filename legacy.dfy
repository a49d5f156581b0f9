/** The older single-file `MagicFormula` (src/magicformulabr.py): the table
    is read with the percentage converter already applied, filtered, cut
    down to the columns of the chosen verbosity, ranked without an
    emptiness check, and shown with its rows numbered from 1. */
module MagicFormulaLegacy {
  import opened Frames
  import opened Ranking
  import Filtering
  import Main = MagicFormulaMain

  /** `MAGIC_METHOD_FIELD` of this module, keyed by the method number as
      text. */
  const MagicMethodField: map<string, Main.Fields> :=
    map["1" := Main.Fields("P/L", "ROE"),
        "2" := Main.Fields("EV/EBIT", "ROIC"),
        "3" := Main.Fields("EV/EBITDA", "ROIC")]

  /** The label `reset_index` gives the column made from the index. */
  const IndexLabel := "Papel"

  /** The columns shown at verbosity 1 besides the method's own two. */
  const WatchedColumns :=
    ["Cota\U{00E7}\U{00E3}o", "Div.Yield", "ROIC", "ROE", "P/L", "EV/EBIT", "EV/EBITDA"]

  // ---------------------------------------------------------------------
  // `str(args.method)`
  // ---------------------------------------------------------------------

  function Digit(d: int): char
    requires 0 <= d < 10
  {
    "0123456789"[d]
  }

  /** The decimal digits of n, most significant first, without leading
      zeros. */
  function NaturalString(n: nat): (r: string)
    ensures |r| >= 1
    ensures n >= 10 ==> |r| >= 2
    ensures n < 10 ==> r == [Digit(n)]
    ensures forall k :: 0 <= k < |r| ==> '0' <= r[k] <= '9'
  {
    if n < 10 then [Digit(n)] else NaturalString(n / 10) + [Digit(n % 10)]
  }

  predicate IsDigits(s: string) {
    forall k :: 0 <= k < |s| ==> '0' <= s[k] <= '9'
  }

  /** The number a string of decimal digits spells, read from the left. */
  function DigitsValue(s: string): nat
    requires IsDigits(s)
  {
    if s == [] then 0 else 10 * DigitsValue(s[..|s| - 1]) + (s[|s| - 1] as int - '0' as int)
  }

  lemma DigitValue(d: int)
    requires 0 <= d < 10
    ensures Digit(d) as int - '0' as int == d
  {
    assert "0123456789" == ['0', '1', '2', '3', '4', '5', '6', '7', '8', '9'];
  }

  /** The partner of NaturalString: its digits spell n. */
  lemma {:induction false} NaturalStringValue(n: nat)
    ensures IsDigits(NaturalString(n)) && DigitsValue(NaturalString(n)) == n
  {
    var r := NaturalString(n);
    if n < 10 {
      DigitValue(n);
      assert r[..0] == [];
    } else {
      NaturalStringValue(n / 10);
      DigitValue(n % 10);
      assert r[..|r| - 1] == NaturalString(n / 10);
    }
  }

  /** Different numbers are written differently. */
  lemma NaturalStringInjective(m: nat, n: nat)
    requires NaturalString(m) == NaturalString(n)
    ensures m == n
  {
    NaturalStringValue(m);
    NaturalStringValue(n);
  }

  /** `str(n)` for an int. */
  function DecimalString(n: int): string {
    if n < 0 then "-" + NaturalString(-n) else NaturalString(n)
  }

  /** `main` looks the method up by `str(args.method)`; that finds an entry
      exactly for the numbers the package module's integer-keyed table has,
      and the same two columns. */
  lemma LegacyLookup(m: int)
    ensures DecimalString(m) in MagicMethodField <==> m in Main.MagicMethodField
    ensures m in Main.MagicMethodField ==> MagicMethodField[DecimalString(m)] == Main.MagicMethodField[m]
  {
    var s := DecimalString(m);
    if m < 0 {
      assert s[0] == '-';
      assert s !in MagicMethodField by {
        assert "1"[0] != '-' && "2"[0] != '-' && "3"[0] != '-';
      }
    } else if m >= 10 {
      assert |s| >= 2;
    } else {
      assert s == [Digit(m)];
      assert "0123456789"[m] == Digit(m);
    }
  }

  // ---------------------------------------------------------------------
  // `drop_unneeded_columns`
  // ---------------------------------------------------------------------

  /** `[x for x in columns if x in keep]` with the complement taken: the
      columns that stay, in their order. */
  function KeepOnly(columns: seq<string>, keep: seq<string>): (r: seq<string>)
    ensures forall c :: c in r <==> c in columns && c in keep
    ensures |r| <= |columns|
    ensures (forall c :: c in columns ==> c in keep) ==> r == columns
  {
    if columns == [] then []
    else
      var p := columns[..|columns| - 1];
      var last := columns[|columns| - 1];
      assert columns == p + [last];
      KeepOnly(p, keep) + (if last in keep then [last] else [])
  }

  /** a is b with some elements deleted: the elements of a occur in b in
      the same order. */
  predicate IsSubsequence(a: seq<string>, b: seq<string>)
    decreases |b|
  {
    if a == [] then true
    else if b == [] then false
    else if a[|a| - 1] == b[|b| - 1] then IsSubsequence(a[..|a| - 1], b[..|b| - 1])
    else IsSubsequence(a, b[..|b| - 1])
  }

  /** The columns that stay keep their relative order. */
  lemma {:induction false} KeepOnlyInOrder(columns: seq<string>, keep: seq<string>)
    ensures IsSubsequence(KeepOnly(columns, keep), columns)
  {
    if columns != [] {
      var p := columns[..|columns| - 1];
      var last := columns[|columns| - 1];
      var r := KeepOnly(columns, keep);
      KeepOnlyInOrder(p, keep);
      if last in keep {
        assert r[..|r| - 1] == KeepOnly(p, keep);
      } else {
        assert r == KeepOnly(p, keep);
        if r != [] {
          assert r[|r| - 1] in keep && r[|r| - 1] != last;
        }
      }
    }
  }

  /** The row without the cells of the dropped columns. */
  function RestrictRow(r: Row, keep: seq<string>): (out: Row)
    ensures out.ticker == r.ticker
    ensures forall c :: c in out.cells <==> c in r.cells && c in keep
    ensures forall c :: c in out.cells ==> out.cells[c] == r.cells[c]
  {
    Row(r.ticker, map c | c in r.cells && c in keep :: r.cells[c])
  }

  /** `drop(columns, axis="columns")` of every column not in keep. */
  function KeepColumns(df: Frame, keep: seq<string>): (r: Frame)
    requires WellFormed(df)
    ensures WellFormed(r)
    ensures r.columns == KeepOnly(df.columns, keep)
    ensures |r.rows| == |df.rows|
    ensures forall k :: 0 <= k < |r.rows| ==> r.rows[k] == RestrictRow(df.rows[k], keep)
  {
    var out := Frame(KeepOnly(df.columns, keep),
                     seq(|df.rows|, k requires 0 <= k < |df.rows| => RestrictRow(df.rows[k], keep)));
    assert WellFormed(out) by {
      forall x | x in out.rows ensures x.cells.Keys == ColumnSet(out.columns) {
        var k :| 0 <= k < |out.rows| && out.rows[k] == x;
        assert df.rows[k] in df.rows;
      }
    }
    out
  }

  /** The columns `drop_unneeded_columns(level)` keeps, or None when it
      returns without dropping anything. */
  function KeptAt(f: Main.Fields, level: int): (r: Option<seq<string>>)
    ensures r.Some? ==> f.earningsYield in r.value && f.returnOnCapital in r.value
  {
    if level == 0 then Some([f.earningsYield, f.returnOnCapital])
    else if level == 1 then Some(WatchedColumns + [f.earningsYield, f.returnOnCapital])
    else None
  }

  function DropUnneeded(df: Frame, f: Main.Fields, level: int): Frame
    requires WellFormed(df)
  {
    match KeptAt(f, level)
    case None => df
    case Some(keep) => KeepColumns(df, keep)
  }

  /** The method's two columns survive every level with their cells, the
      rows keep their tickers and order, level 0 keeps no other column,
      and a level other than 0 and 1 changes nothing. */
  lemma DropUnneededFacts(df: Frame, f: Main.Fields, level: int)
    requires WellFormed(df)
    ensures var r := DropUnneeded(df, f, level);
            && WellFormed(r)
            && |r.rows| == |df.rows|
            && (forall k :: 0 <= k < |r.rows| ==> r.rows[k].ticker == df.rows[k].ticker)
            && (f.earningsYield in df.columns ==> f.earningsYield in r.columns)
            && (f.returnOnCapital in df.columns ==> f.returnOnCapital in r.columns)
            && (forall k :: 0 <= k < |r.rows| && f.earningsYield in df.rows[k].cells ==>
                  f.earningsYield in r.rows[k].cells && r.rows[k].cells[f.earningsYield] == df.rows[k].cells[f.earningsYield])
            && (forall k :: 0 <= k < |r.rows| && f.returnOnCapital in df.rows[k].cells ==>
                  f.returnOnCapital in r.rows[k].cells && r.rows[k].cells[f.returnOnCapital] == df.rows[k].cells[f.returnOnCapital])
            && (level == 0 ==> forall c :: c in r.columns ==> c == f.earningsYield || c == f.returnOnCapital)
            && (level != 0 && level != 1 ==> r == df)
  {
  }

  // ---------------------------------------------------------------------
  // `calc_rank` and `show_rank`
  // ---------------------------------------------------------------------

  /** The earnings-yield rank column alone: what the table holds when the
      second rank assignment raises. */
  function AddEarningsRank(df: Frame, ey: string): Frame
    requires AllNum(df.rows, ey)
  {
    Frame(AddColumn(df.columns, RankEarningsYield),
          seq(|df.rows|, k requires 0 <= k < |df.rows| =>
            Row(df.rows[k].ticker,
                df.rows[k].cells[RankEarningsYield := Num(MinRank(df.rows, ey, Value(df.rows[k], ey), true) as real)])))
  }

  /** `calc_rank` of this module: the two ranks, their sum and the sort, with
      no conversion and no emptiness check. A missing column raises KeyError
      at the assignment that reads it, leaving the assignments before it in
      place. */
  function RankTable(df: Frame, ey: string, roc: string): (r: Outcome)
    requires WellFormed(df)
    requires ey in df.columns ==> AllNum(df.rows, ey)
    requires roc in df.columns ==> AllNum(df.rows, roc)
    ensures r.raised.None? <==> ey in df.columns && roc in df.columns
    ensures ey !in df.columns ==> r == Outcome(df, Some(KeyError(ey)))
    ensures ey in df.columns && roc !in df.columns ==> r == Outcome(AddEarningsRank(df, ey), Some(KeyError(roc)))
    ensures r.raised.None? ==> r.df.columns == AddRanks(df, ey, roc).columns
    ensures r.raised.None? ==> multiset(r.df.rows) == multiset(AddRanks(df, ey, roc).rows)
    ensures r.raised.None? ==> AllNum(r.df.rows, RankFinal) && SortedBy(r.df.rows, RankFinal)
    ensures r.raised.None? ==> WellFormed(r.df)
  {
    if ey !in df.columns then Outcome(df, Some(KeyError(ey)))
    else if roc !in df.columns then Outcome(AddEarningsRank(df, ey), Some(KeyError(roc)))
    else
      Main.AddRanksWellFormed(df, ey, roc);
      var ranked := AddRanks(df, ey, roc);
      Main.SortedWellFormed(ranked);
      Outcome(Frame(ranked.columns, SortBy(ranked.rows, RankFinal)), None)
  }

  /** The table `calc_rank` leaves is well formed whether or not it raised:
      a KeyError on the second column leaves the earnings-yield rank added
      to every row. */
  lemma RankTableWellFormed(df: Frame, ey: string, roc: string)
    requires WellFormed(df)
    requires ey in df.columns ==> AllNum(df.rows, ey)
    requires roc in df.columns ==> AllNum(df.rows, roc)
    ensures WellFormed(RankTable(df, ey, roc).df)
  {
    if ey in df.columns && roc !in df.columns {
      var e := AddEarningsRank(df, ey);
      forall x | x in e.rows ensures x.cells.Keys == ColumnSet(e.columns) {
        var k :| 0 <= k < |e.rows| && e.rows[k] == x;
        assert df.rows[k] in df.rows;
        assert x.cells.Keys == df.rows[k].cells.Keys + {RankEarningsYield};
      }
    }
  }

  /** Unlike the package module, an empty table is still ranked: it gets
      the three rank columns and no rows. */
  lemma RankEmptyTable(columns: seq<string>, ey: string, roc: string)
    requires ey in columns && roc in columns
    ensures RankTable(Frame(columns, []), ey, roc)
            == Outcome(Frame(RankColumns(columns), []), None)
  {
  }

  /** `reset_index` followed by `index = index + 1`: the tickers move into a
      first column and the rows are labelled 1, 2, ... in their order;
      ValueError when the table already has a column of that label. */
  function ResetIndex(df: Frame): (r: Result<Frame>)
    ensures IndexLabel in df.columns <==> r.Err?
    ensures r.Err? ==> r.error == ValueError(IndexLabel)
    ensures r.Ok? ==> r.value.columns == [IndexLabel] + df.columns && |r.value.rows| == |df.rows|
    ensures r.Ok? ==> forall k :: 0 <= k < |df.rows| ==>
              && r.value.rows[k].ticker == DecimalString(k + 1)
              && r.value.rows[k].cells == df.rows[k].cells[IndexLabel := Text(df.rows[k].ticker)]
  {
    if IndexLabel in df.columns then Err(ValueError(IndexLabel))
    else
      Ok(Frame([IndexLabel] + df.columns,
               seq(|df.rows|, k requires 0 <= k < |df.rows| =>
                 Row(DecimalString(k + 1), df.rows[k].cells[IndexLabel := Text(df.rows[k].ticker)]))))
  }

  /** The renumbered table is well formed, and its labels are the
      numbers 1, 2, ... written out, so no two rows share one. */
  lemma ResetIndexLabels(df: Frame)
    requires WellFormed(df) && ResetIndex(df).Ok?
    ensures WellFormed(ResetIndex(df).value)
    ensures forall k :: 0 <= k < |df.rows| ==>
              var t := ResetIndex(df).value.rows[k].ticker; IsDigits(t) && DigitsValue(t) == k + 1
    ensures DistinctTickers(ResetIndex(df).value.rows)
  {
    var r := ResetIndex(df).value;
    forall x | x in r.rows ensures x.cells.Keys == ColumnSet(r.columns) {
      var k :| 0 <= k < |r.rows| && r.rows[k] == x;
      assert df.rows[k] in df.rows;
    }
    forall k | 0 <= k < |df.rows|
      ensures IsDigits(r.rows[k].ticker) && DigitsValue(r.rows[k].ticker) == k + 1
    {
      NaturalStringValue(k + 1);
    }
    forall i, j | 0 <= i < j < |r.rows| ensures r.rows[i].ticker != r.rows[j].ticker {
      assert DigitsValue(r.rows[i].ticker) != DigitsValue(r.rows[j].ticker);
    }
  }

  // ---------------------------------------------------------------------
  // The run of `main`
  // ---------------------------------------------------------------------

  /** `read_html` hands a column's converter the cell text as it stands in
      the page, so every cell of that column reaches it as text. */
  predicate RawText(fetched: Frame, col: string) {
    forall k :: 0 <= k < |fetched.rows| && col in fetched.rows[k].cells ==> fetched.rows[k].cells[col].Text?
  }

  /** What `main` prints, as the rows of `head(top)` after `show_rank`, or
      the exception that stops it. The stages run in the order of `main`:
      load with the converter, filter, drop columns, rank, show. */
  function Pipeline(f: Main.Fields, level: int, top: int, fetched: Frame, parse: string -> Option<real>)
    : Result<seq<Row>>
    requires WellFormed(fetched)
  {
    var loaded := Filtering.ApplyConverters(fetched, f.returnOnCapital, parse);
    if loaded.raised.Some? then Err(loaded.raised.value)
    else AfterLoad(f, level, top, loaded.df)
  }

  /** The stages of `main` after `get_data`. */
  function AfterLoad(f: Main.Fields, level: int, top: int, loaded: Frame): Result<seq<Row>>
    requires WellFormed(loaded)
  {
    var filtered := Filtering.FilterData(loaded, f.earningsYield, f.returnOnCapital);
    if filtered.raised.Some? then Err(filtered.raised.value)
    else
      DroppedPositive(loaded, f, level);
      var ranked := RankTable(DropUnneeded(filtered.df, f, level), f.earningsYield, f.returnOnCapital);
      if ranked.raised.Some? then Err(ranked.raised.value)
      else
        match ResetIndex(ranked.df)
        case Err(e) => Err(e)
        case Ok(shown) => Ok(Head(shown.rows, top))
  }

  /** A shown row keeps its final rank. */
  lemma ResetKeepsRank(df: Frame)
    requires AllNum(df.rows, RankFinal) && SortedBy(df.rows, RankFinal)
    requires ResetIndex(df).Ok?
    ensures AllNum(ResetIndex(df).value.rows, RankFinal)
    ensures SortedBy(ResetIndex(df).value.rows, RankFinal)
  {
    var rows := ResetIndex(df).value.rows;
    assert RankFinal != IndexLabel;
    forall k | 0 <= k < |rows| ensures HasNum(rows[k], RankFinal) && Value(rows[k], RankFinal) == Value(df.rows[k], RankFinal) {
    }
  }

  /** A prefix of a ranked list is ranked. */
  lemma HeadSorted(rows: seq<Row>, top: int)
    requires AllNum(rows, RankFinal) && SortedBy(rows, RankFinal)
    ensures AllNum(Head(rows, top), RankFinal) && SortedBy(Head(rows, top), RankFinal)
  {
    var h := Head(rows, top);
    assert forall k :: 0 <= k < |h| ==> h[k] == rows[k];
  }

  /** What the printed table shows: at most `top` rows for a non-negative
      top, numbered 1, 2, ... in order, in non-decreasing order of final
      rank, each with a positive earnings yield and return on capital. */
  lemma PipelineFacts(f: Main.Fields, level: int, top: int, fetched: Frame, parse: string -> Option<real>)
    requires WellFormed(fetched)
    requires Main.SeparateColumns(f)
    requires Pipeline(f, level, top, fetched, parse).Ok?
    ensures var shown := Pipeline(f, level, top, fetched, parse).value;
            && (top >= 0 ==> |shown| <= top)
            && (forall k :: 0 <= k < |shown| ==> shown[k].ticker == DecimalString(k + 1))
            && AllNum(shown, RankFinal) && SortedBy(shown, RankFinal)
            && AllNum(shown, f.earningsYield) && AllNum(shown, f.returnOnCapital)
            && (forall k :: 0 <= k < |shown| ==>
                  Value(shown[k], f.earningsYield) > 0.0 && Value(shown[k], f.returnOnCapital) > 0.0)
  {
    var loaded := Filtering.ApplyConverters(fetched, f.returnOnCapital, parse);
    assert loaded.raised.None? && AfterLoad(f, level, top, loaded.df).Ok?;
    var filtered := Filtering.FilterData(loaded.df, f.earningsYield, f.returnOnCapital);
    assert filtered.raised.None?;
    DroppedPositive(loaded.df, f, level);
    var dropped := DropUnneeded(filtered.df, f, level);
    PositiveAfterRanking(dropped, f);
    var ranked := RankTable(dropped, f.earningsYield, f.returnOnCapital);
    ShownFacts(ranked.df, f, top);
  }

  /** After filtering and dropping columns, both ranked columns are present
      and hold positive numbers in every row. */
  lemma DroppedPositive(loaded: Frame, f: Main.Fields, level: int)
    requires WellFormed(loaded)
    requires Filtering.FilterData(loaded, f.earningsYield, f.returnOnCapital).raised.None?
    ensures var filtered := Filtering.FilterData(loaded, f.earningsYield, f.returnOnCapital).df;
            && WellFormed(filtered)
            && var dropped := DropUnneeded(filtered, f, level);
            && WellFormed(dropped)
            && f.earningsYield in dropped.columns && f.returnOnCapital in dropped.columns
            && AllNum(dropped.rows, f.earningsYield) && AllNum(dropped.rows, f.returnOnCapital)
            && forall k :: 0 <= k < |dropped.rows| ==>
                 Value(dropped.rows[k], f.earningsYield) > 0.0 && Value(dropped.rows[k], f.returnOnCapital) > 0.0
  {
    var filtered := Filtering.FilterData(loaded, f.earningsYield, f.returnOnCapital).df;
    Filtering.FilterDataWellFormed(loaded, f.earningsYield, f.returnOnCapital);
    Filtering.FilterDataExact(loaded, f.earningsYield, f.returnOnCapital);
    DropUnneededFacts(filtered, f, level);
    if |filtered.rows| > 0 {
      assert filtered.rows[0] in filtered.rows;
      assert f.earningsYield in filtered.columns && f.returnOnCapital in filtered.columns;
    } else {
      FilteredColumns(loaded, f);
    }
    DroppedPassing(filtered, f, level);
  }

  /** Dropping columns keeps the two ranked cells of rows that pass the
      filters. */
  lemma DroppedPassing(df: Frame, f: Main.Fields, level: int)
    requires WellFormed(df)
    requires forall x :: x in df.rows ==> Filtering.Passes(x, f.earningsYield, f.returnOnCapital)
    ensures var dropped := DropUnneeded(df, f, level);
            && AllNum(dropped.rows, f.earningsYield) && AllNum(dropped.rows, f.returnOnCapital)
            && forall k :: 0 <= k < |dropped.rows| ==>
                 Value(dropped.rows[k], f.earningsYield) > 0.0 && Value(dropped.rows[k], f.returnOnCapital) > 0.0
  {
    DropUnneededFacts(df, f, level);
    var dropped := DropUnneeded(df, f, level);
    forall k | 0 <= k < |dropped.rows|
      ensures HasNum(dropped.rows[k], f.earningsYield) && HasNum(dropped.rows[k], f.returnOnCapital)
      ensures Value(dropped.rows[k], f.earningsYield) > 0.0 && Value(dropped.rows[k], f.returnOnCapital) > 0.0
    {
      assert df.rows[k] in df.rows;
    }
  }

  /** A filter that raises nothing found both of its columns. */
  lemma FilteredColumns(df: Frame, f: Main.Fields)
    requires Filtering.FilterData(df, f.earningsYield, f.returnOnCapital).raised.None?
    ensures f.earningsYield in df.columns && f.returnOnCapital in df.columns
  {
    var a := Filtering.RemoveRows(df, f.earningsYield, 0.0);
    Filtering.RemoveRowsColumns(df, f.earningsYield, 0.0);
    Filtering.RemoveRowsColumns(a.df, f.returnOnCapital, 0.0);
  }

  /** Showing a ranked table whose rows carry positive values. */
  lemma ShownFacts(ranked: Frame, f: Main.Fields, top: int)
    requires AllNum(ranked.rows, RankFinal) && SortedBy(ranked.rows, RankFinal)
    requires ResetIndex(ranked).Ok?
    requires forall x :: x in ranked.rows ==>
               && HasNum(x, f.earningsYield) && Value(x, f.earningsYield) > 0.0
               && HasNum(x, f.returnOnCapital) && Value(x, f.returnOnCapital) > 0.0
    requires f.earningsYield != IndexLabel && f.returnOnCapital != IndexLabel
    ensures var shown := Head(ResetIndex(ranked).value.rows, top);
            && (top >= 0 ==> |shown| <= top)
            && (forall k :: 0 <= k < |shown| ==> shown[k].ticker == DecimalString(k + 1))
            && AllNum(shown, RankFinal) && SortedBy(shown, RankFinal)
            && AllNum(shown, f.earningsYield) && AllNum(shown, f.returnOnCapital)
            && (forall k :: 0 <= k < |shown| ==>
                  Value(shown[k], f.earningsYield) > 0.0 && Value(shown[k], f.returnOnCapital) > 0.0)
  {
    var reset := ResetIndex(ranked).value;
    ResetKeepsRank(ranked);
    HeadSorted(reset.rows, top);
    var shown := Head(reset.rows, top);
    assert forall k :: 0 <= k < |shown| ==> shown[k] == reset.rows[k];
    forall k | 0 <= k < |shown|
      ensures HasNum(shown[k], f.earningsYield) && HasNum(shown[k], f.returnOnCapital)
      ensures Value(shown[k], f.earningsYield) > 0.0 && Value(shown[k], f.returnOnCapital) > 0.0
    {
      assert ranked.rows[k] in ranked.rows;
    }
  }

  /** Ranking only adds the rank cells and reorders rows, so every ranked
      row still carries the positive values it had. */
  lemma PositiveAfterRanking(df: Frame, f: Main.Fields)
    requires WellFormed(df) && Main.SeparateColumns(f)
    requires f.earningsYield in df.columns && f.returnOnCapital in df.columns
    requires AllNum(df.rows, f.earningsYield) && AllNum(df.rows, f.returnOnCapital)
    requires forall k :: 0 <= k < |df.rows| ==>
               Value(df.rows[k], f.earningsYield) > 0.0 && Value(df.rows[k], f.returnOnCapital) > 0.0
    ensures forall x :: x in RankTable(df, f.earningsYield, f.returnOnCapital).df.rows ==>
              && HasNum(x, f.earningsYield) && Value(x, f.earningsYield) > 0.0
              && HasNum(x, f.returnOnCapital) && Value(x, f.returnOnCapital) > 0.0
  {
    var ranked := RankTable(df, f.earningsYield, f.returnOnCapital).df;
    var added := AddRanks(df, f.earningsYield, f.returnOnCapital);
    forall x | x in ranked.rows
      ensures HasNum(x, f.earningsYield) && Value(x, f.earningsYield) > 0.0
      ensures HasNum(x, f.returnOnCapital) && Value(x, f.returnOnCapital) > 0.0
    {
      assert x in multiset(ranked.rows);
      assert x in multiset(added.rows);
      var j :| 0 <= j < |added.rows| && added.rows[j] == x;
      AddRanksFacts(df, f.earningsYield, f.returnOnCapital, j);
    }
  }

  // ---------------------------------------------------------------------
  // The four-company table of the calc_rank test
  // ---------------------------------------------------------------------

  function Company(ticker: string, evEbit: real, roic: real): Row {
    Row(ticker, map["EV/EBIT" := Num(evEbit), "ROIC" := Num(roic)])
  }

  function Fixture(): Frame {
    Frame(["EV/EBIT", "ROIC"],
          [Company("AAAA3", 0.2, 10.0), Company("BBBB3", 8.0, 60.0),
           Company("CCCC3", 4.0, 40.0), Company("DDDD4", 2.0, 90.0)])
  }

  function Ranked(r: Row, ey: real, roc: real): Row {
    Row(r.ticker, r.cells[RankEarningsYield := Num(ey)][RankReturnOnCapital := Num(roc)][RankFinal := Num(ey + roc)])
  }

  lemma {:induction false} CountBetterOfFour(rows: seq<Row>, col: string, x: real, ascending: bool)
    requires |rows| == 4 && AllNum(rows, col)
    ensures CountBetter(rows, col, x, ascending)
            == (if Better(Value(rows[0], col), x, ascending) then 1 else 0)
             + (if Better(Value(rows[1], col), x, ascending) then 1 else 0)
             + (if Better(Value(rows[2], col), x, ascending) then 1 else 0)
             + (if Better(Value(rows[3], col), x, ascending) then 1 else 0)
  {
    var p3, p2, p1 := rows[..3], rows[..2], rows[..1];
    assert p3[..2] == p2 && p2[..1] == p1 && p1[..0] == [];
    assert p3[2] == rows[2] && p2[1] == rows[1] && p1[0] == rows[0];
    assert CountBetter(p1, col, x, ascending) == (if Better(Value(rows[0], col), x, ascending) then 1 else 0);
    assert CountBetter(p2, col, x, ascending)
           == CountBetter(p1, col, x, ascending) + (if Better(Value(rows[1], col), x, ascending) then 1 else 0);
    assert CountBetter(p3, col, x, ascending)
           == CountBetter(p2, col, x, ascending) + (if Better(Value(rows[2], col), x, ascending) then 1 else 0);
  }

  lemma FixtureWellFormed()
    ensures WellFormed(Fixture())
  {
    var cols := ["EV/EBIT", "ROIC"];
    assert ColumnSet(cols) == {"EV/EBIT", "ROIC"};
    forall r | r in Fixture().rows ensures r.cells.Keys == {"EV/EBIT", "ROIC"} {
    }
  }

  lemma FixtureValues()
    ensures var rows := Fixture().rows;
            && |rows| == 4 && AllNum(rows, "EV/EBIT") && AllNum(rows, "ROIC")
            && Value(rows[0], "EV/EBIT") == 0.2 && Value(rows[1], "EV/EBIT") == 8.0
            && Value(rows[2], "EV/EBIT") == 4.0 && Value(rows[3], "EV/EBIT") == 2.0
            && Value(rows[0], "ROIC") == 10.0 && Value(rows[1], "ROIC") == 60.0
            && Value(rows[2], "ROIC") == 40.0 && Value(rows[3], "ROIC") == 90.0
  {
    assert "EV/EBIT" != "ROIC" by {
      assert |"EV/EBIT"| != |"ROIC"|;
    }
  }

  /** One row of the ranked table of the test. */
  lemma FixtureRankOf(k: nat, ey: real, roc: real)
    requires k < 4
    requires ey == [1.0, 4.0, 3.0, 2.0][k] && roc == [4.0, 2.0, 3.0, 1.0][k]
    ensures |AddRanks(Fixture(), "EV/EBIT", "ROIC").rows| == 4
    ensures AddRanks(Fixture(), "EV/EBIT", "ROIC").rows[k] == Ranked(Fixture().rows[k], ey, roc)
  {
    FixtureValues();
    var rows := Fixture().rows;
    CountBetterOfFour(rows, "EV/EBIT", Value(rows[k], "EV/EBIT"), true);
    CountBetterOfFour(rows, "ROIC", Value(rows[k], "ROIC"), false);
  }

  /** The ranks the test expects: earnings yield ranked ascending (1, 4, 3,
      2), return on capital descending (4, 2, 3, 1), and their sums. */
  lemma FixtureRanks()
    ensures
            AddRanks(Fixture(), "EV/EBIT", "ROIC").rows
            == [Ranked(Fixture().rows[0], 1.0, 4.0), Ranked(Fixture().rows[1], 4.0, 2.0),
                Ranked(Fixture().rows[2], 3.0, 3.0), Ranked(Fixture().rows[3], 2.0, 1.0)]
  {
    FixtureRankOf(0, 1.0, 4.0);
    FixtureRankOf(1, 4.0, 2.0);
    FixtureRankOf(2, 3.0, 3.0);
    FixtureRankOf(3, 2.0, 1.0);
  }

  /** The expected output of the test: DDDD4 (final rank 3), AAAA3 (5), then
      BBBB3 and CCCC3 tied at 6, after the rank columns were added behind
      EV/EBIT and ROIC. The two tied rows keep their input order under the
      model's sort. */
  lemma FixtureRanking()
    ensures (FixtureValues();
             RankTable(Fixture(), "EV/EBIT", "ROIC")
             == Outcome(Frame(["EV/EBIT", "ROIC", RankEarningsYield, RankReturnOnCapital, RankFinal],
                              [Ranked(Fixture().rows[3], 2.0, 1.0), Ranked(Fixture().rows[0], 1.0, 4.0),
                               Ranked(Fixture().rows[1], 4.0, 2.0), Ranked(Fixture().rows[2], 3.0, 3.0)]),
                        None))
  {
    FixtureValues();
    FixtureRanks();
    var rows := Fixture().rows;
    var a, b := Ranked(rows[0], 1.0, 4.0), Ranked(rows[1], 4.0, 2.0);
    var c, d := Ranked(rows[2], 3.0, 3.0), Ranked(rows[3], 2.0, 1.0);
    RankedValue(rows[0], 1.0, 4.0);
    RankedValue(rows[1], 4.0, 2.0);
    RankedValue(rows[2], 3.0, 3.0);
    RankedValue(rows[3], 2.0, 1.0);
    SortFour(a, b, c, d);
    FixtureColumns();
    var added := AddRanks(Fixture(), "EV/EBIT", "ROIC");
    assert added.rows == [a, b, c, d];
    FixtureWellFormed();
    assert "EV/EBIT" in Fixture().columns && "ROIC" in Fixture().columns;
    assert RankTable(Fixture(), "EV/EBIT", "ROIC") == Outcome(Frame(added.columns, SortBy(added.rows, RankFinal)), None);
  }

  lemma RankedValue(r: Row, ey: real, roc: real)
    ensures HasNum(Ranked(r, ey, roc), RankFinal) && Value(Ranked(r, ey, roc), RankFinal) == ey + roc
  {
  }

  lemma FixtureColumns()
    ensures RankColumns(["EV/EBIT", "ROIC"])
            == ["EV/EBIT", "ROIC", RankEarningsYield, RankReturnOnCapital, RankFinal]
  {
    var c0 := ["EV/EBIT", "ROIC"];
    assert |c0[0]| == 7 && |c0[1]| == 4;
    assert |RankEarningsYield| == 19 && |RankReturnOnCapital| == 22 && |RankFinal| == 10;
    var c1 := AddColumn(c0, RankEarningsYield);
    assert RankEarningsYield !in c0;
    assert c1 == c0 + [RankEarningsYield];
    var c2 := AddColumn(c1, RankReturnOnCapital);
    assert RankReturnOnCapital !in c1;
    assert c2 == c1 + [RankReturnOnCapital];
    assert RankFinal !in c2;
  }

  /** The model's sort on four rows whose final ranks are 5, 6, 6 and 3. */
  lemma SortFour(a: Row, b: Row, c: Row, d: Row)
    requires HasNum(a, RankFinal) && HasNum(b, RankFinal) && HasNum(c, RankFinal) && HasNum(d, RankFinal)
    requires Value(a, RankFinal) == 5.0 && Value(b, RankFinal) == 6.0
    requires Value(c, RankFinal) == 6.0 && Value(d, RankFinal) == 3.0
    ensures AllNum([a, b, c, d], RankFinal)
    ensures SortBy([a, b, c, d], RankFinal) == [d, a, b, c]
  {
    SortFourOrdered(a, b, c, d, RankFinal);
  }

  lemma SortFourOrdered(a: Row, b: Row, c: Row, d: Row, col: string)
    requires HasNum(a, col) && HasNum(b, col) && HasNum(c, col) && HasNum(d, col)
    requires Value(d, col) < Value(a, col) <= Value(b, col) <= Value(c, col)
    ensures AllNum([a, b, c, d], col)
    ensures SortBy([a, b, c, d], col) == [d, a, b, c]
  {
    AllNumFour(a, b, c, d, col);
    SortByStep([a, b, c, d], col);
    assert [a, b, c, d][1..] == [b, c, d];
    SortThree(b, c, d, col);
    InsertBehindThree(a, b, c, d, col);
  }

  lemma AllNumFour(a: Row, b: Row, c: Row, d: Row, col: string)
    requires HasNum(a, col) && HasNum(b, col) && HasNum(c, col) && HasNum(d, col)
    ensures AllNum([a, b, c, d], col) && AllNum([d, b, c], col) && AllNum([b, c], col)
  {
  }

  lemma InsertBehindThree(a: Row, b: Row, c: Row, d: Row, col: string)
    requires HasNum(a, col) && HasNum(b, col) && HasNum(c, col) && HasNum(d, col)
    requires Value(d, col) < Value(a, col) <= Value(b, col)
    ensures AllNum([d, b, c], col)
    ensures Insert(a, [d, b, c], col) == [d, a, b, c]
  {
    AllNumFour(a, b, c, d, col);
    TailOfThree(d, b, c);
    InsertStep(a, [b, c], col);
    InsertStep(a, [d, b, c], col);
    ConsFour(d, a, b, c);
  }

  /** Literal lists of rows taken apart and put together element by
      element. */
  lemma TailOfThree(x: Row, y: Row, z: Row)
    ensures [x, y, z][1..] == [y, z] && [x, y, z][0] == x
  {
  }

  lemma ConsThree(x: Row, y: Row, z: Row)
    ensures [x] + ([y] + [z]) == [x, y, z]
  {
  }

  lemma ConsFour(x: Row, y: Row, z: Row, w: Row)
    ensures [x] + ([y] + [z, w]) == [x, y, z, w]
  {
  }

  lemma SortThree(b: Row, c: Row, d: Row, col: string)
    requires HasNum(b, col) && HasNum(c, col) && HasNum(d, col)
    requires Value(d, col) < Value(b, col) <= Value(c, col)
    ensures AllNum([b, c, d], col)
    ensures SortBy([b, c, d], col) == [d, b, c]
  {
    SortTwo(c, d, col);
    assert AllNum([b, c, d], col);
    TailOfThree(b, c, d);
    SortByStep([b, c, d], col);
    InsertBehindTwo(b, c, d, col);
  }

  lemma InsertBehindTwo(b: Row, c: Row, d: Row, col: string)
    requires HasNum(b, col) && HasNum(c, col) && HasNum(d, col)
    requires Value(d, col) < Value(b, col) <= Value(c, col)
    ensures AllNum([d, c], col)
    ensures Insert(b, [d, c], col) == [d, b, c]
  {
    assert AllNum([d, c], col) && AllNum([c], col);
    InsertStep(b, [c], col);
    InsertStep(b, [d, c], col);
    assert [d, c][1..] == [c];
    ConsThree(d, b, c);
  }

  lemma SortTwo(c: Row, d: Row, col: string)
    requires HasNum(c, col) && HasNum(d, col)
    requires Value(d, col) < Value(c, col)
    ensures AllNum([c, d], col)
    ensures SortBy([c, d], col) == [d, c]
  {
    assert AllNum([c, d], col);
    SortByStep([c, d], col);
    assert [c, d][1..] == [d];
    SortByStep([d], col);
    assert [d][1..] == [];
    InsertStep(c, [d], col);
  }

  /** The package module's `calc_rank` does not accept this table: its
      converter calls `strip` on the numbers of the ROIC column. */
  lemma FixtureRejectedByConverter(parse: string -> Option<real>)
    ensures (FixtureWellFormed();
             Main.Prepared(Fixture(), Main.Fields("EV/EBIT", "ROIC"), parse).raised == Some(AttributeError("ROIC")))
  {
    FixtureWellFormed();
    FixtureValues();
    Filtering.ConvertNumbersFails(Fixture().rows, "ROIC", parse);
    assert "ROIC" in Fixture().columns;
  }

  // ---------------------------------------------------------------------
  // The class
  // ---------------------------------------------------------------------

  class MagicFormula {
    /** `self.pd_df`; None until `get_data`. */
    var df: Option<Frame>
    const earningsYield: string
    const returnOnCapital: string

    ghost predicate Valid()
      reads this
    {
      && (df.Some? ==> WellFormed(df.value))
      && Main.Fields(earningsYield, returnOnCapital) in MagicMethodField.Values
    }

    function Method(): Main.Fields {
      Main.Fields(earningsYield, returnOnCapital)
    }

    constructor (magicMethod: string)
      requires magicMethod in MagicMethodField
      ensures Valid() && df == None
      ensures Method() == MagicMethodField[magicMethod]
    {
      df := None;
      earningsYield := MagicMethodField[magicMethod].earningsYield;
      returnOnCapital := MagicMethodField[magicMethod].returnOnCapital;
    }

    /** `get_data` with `fetched` standing for the first table of the page:
        the converter runs while the table is read, so a failing conversion
        leaves `pd_df` as it was. */
    method GetData(fetched: Frame, parse: string -> Option<real>) returns (raised: Option<Exception>)
      requires Valid() && WellFormed(fetched) && RawText(fetched, returnOnCapital)
      modifies this
      ensures Valid()
      ensures var o := Filtering.ApplyConverters(fetched, returnOnCapital, parse);
              && raised == o.raised
              && df == (if o.raised.None? then Some(o.df) else old(df))
    {
      var o := Filtering.ApplyConverters(fetched, returnOnCapital, parse);
      raised := o.raised;
      if raised.None? {
        df := Some(o.df);
      }
    }

    /** `remove_rows(col_name, min_value)` */
    method RemoveRows(col: string, minValue: real) returns (raised: Option<Exception>)
      requires Valid() && df.Some?
      modifies this
      ensures Valid() && df.Some?
      ensures Outcome(df.value, raised) == Filtering.RemoveRows(old(df).value, col, minValue)
    {
      var o := Filtering.RemoveRows(df.value, col, minValue);
      Filtering.RemoveRowsWellFormed(df.value, col, minValue);
      df, raised := Some(o.df), o.raised;
    }

    /** `filter_data` */
    method FilterData() returns (raised: Option<Exception>)
      requires Valid() && df.Some?
      modifies this
      ensures Valid() && df.Some?
      ensures Outcome(df.value, raised) == Filtering.FilterData(old(df).value, earningsYield, returnOnCapital)
    {
      raised := RemoveRows(earningsYield, 0.0);
      if raised.Some? {
        return;
      }
      raised := RemoveRows(returnOnCapital, 0.0);
      if raised.Some? {
        return;
      }
      raised := RemoveRows(Filtering.Liquidity, 0.0);
    }

    /** `drop_unneeded_columns(level)` */
    method DropUnneededColumns(level: int)
      requires Valid() && df.Some?
      modifies this
      ensures Valid()
      ensures df == Some(DropUnneeded(old(df).value, Method(), level))
    {
      DropUnneededFacts(df.value, Method(), level);
      df := Some(DropUnneeded(df.value, Method(), level));
    }

    /** `calc_rank` */
    method CalcRank() returns (raised: Option<Exception>)
      requires Valid() && df.Some?
      requires earningsYield in df.value.columns ==> AllNum(df.value.rows, earningsYield)
      requires returnOnCapital in df.value.columns ==> AllNum(df.value.rows, returnOnCapital)
      modifies this
      ensures Valid() && df.Some?
      ensures Outcome(df.value, raised) == RankTable(old(df).value, earningsYield, returnOnCapital)
    {
      RankTableWellFormed(df.value, earningsYield, returnOnCapital);
      var o := RankTable(df.value, earningsYield, returnOnCapital);
      df, raised := Some(o.df), o.raised;
    }

    /** `show_rank(top)`: the rows `head(top)` prints; the table keeps the
        reset index. */
    method ShowRank(top: int) returns (shown: seq<Row>, raised: Option<Exception>)
      requires Valid() && df.Some?
      modifies this
      ensures Valid() && df.Some?
      ensures match ResetIndex(old(df).value)
              case Err(e) => raised == Some(e) && df == old(df) && shown == []
              case Ok(reset) => raised.None? && df == Some(reset) && shown == Head(reset.rows, top)
    {
      match ResetIndex(df.value)
      case Err(e) =>
        shown, raised := [], Some(e);
      case Ok(reset) =>
        ResetIndexLabels(df.value);
        df := Some(reset);
        shown, raised := Head(reset.rows, top), None;
    }
  }

  /** `main` after the command line is parsed: the stages in their order,
      stopping at the first exception. */
  method Run(magicMethod: int, verbose: int, top: int, fetched: Frame, parse: string -> Option<real>)
    returns (shown: seq<Row>, raised: Option<Exception>)
    requires magicMethod in Main.MagicMethodField
    requires WellFormed(fetched) && RawText(fetched, Main.MagicMethodField[magicMethod].returnOnCapital)
    ensures var p := Pipeline(Main.MagicMethodField[magicMethod], verbose, top, fetched, parse);
            && (raised.None? <==> p.Ok?)
            && (p.Ok? ==> shown == p.value)
            && (p.Err? ==> raised == Some(p.error))
  {
    LegacyLookup(magicMethod);
    var mf := new MagicFormula(DecimalString(magicMethod));
    raised := mf.GetData(fetched, parse);
    if raised.Some? {
      return [], raised;
    }
    ghost var loaded := mf.df.value;
    raised := mf.FilterData();
    if raised.Some? {
      return [], raised;
    }
    Filtering.FilterDataExact(loaded, mf.earningsYield, mf.returnOnCapital);
    Main.PassingNumeric(mf.df.value, mf.earningsYield, mf.returnOnCapital);
    DropUnneededFacts(mf.df.value, mf.Method(), verbose);
    mf.DropUnneededColumns(verbose);
    raised := mf.CalcRank();
    if raised.Some? {
      return [], raised;
    }
    shown, raised := mf.ShowRank(top);
  }
}
