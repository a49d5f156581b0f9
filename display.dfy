/** `display_results` of the package module (src/magicformulabr/main.py):
    which columns of the ranked table are shown, and which rows, numbered
    from 1. The text layout of `to_string` is not modelled; the listing
    holds the cells it would lay out. */
module Display {
  import opened Frames
  import opened Ranking
  import opened MagicFormulaMain

  const TickerHeader := "Ticker"

  /** `base_cols` */
  const BaseColumns := [RankEarningsYield, RankReturnOnCapital, RankFinal]

  /** The columns shown at verbosity 1 before the method's own two. */
  const WatchedColumns :=
    ["Cota\U{00E7}\U{00E3}o", "Div.Yield", "ROIC", "ROE", "P/L", "EV/EBIT", "EV/EBITDA"]

  /** One printed line: its number, the ticker and the shown cells. */
  datatype Line = Line(position: int, ticker: string, values: seq<Cell>)

  datatype Listing = Listing(header: seq<string>, lines: seq<Line>)

  predicate Distinct<T(==)>(s: seq<T>) {
    forall i, j :: 0 <= i < j < |s| ==> s[i] != s[j]
  }

  /** The position of the first occurrence of x in s. */
  function FirstIndex<T(==)>(s: seq<T>, x: T): (i: nat)
    requires x in s
    ensures i < |s| && s[i] == x && x !in s[..i]
  {
    if s[0] == x then 0
    else
      var j := FirstIndex(s[1..], x);
      assert s[1..][..j] == s[1..j + 1];
      1 + j
  }

  lemma FirstIndexUnique<T>(s: seq<T>, x: T, i: nat)
    requires i < |s| && s[i] == x && x !in s[..i]
    ensures FirstIndex(s, x) == i
  {
    var f := FirstIndex(s, x);
    assert forall k :: 0 <= k < i ==> s[..i][k] == s[k];
    assert forall k :: 0 <= k < f ==> s[..f][k] == s[k];
  }

  /** `list(dict.fromkeys(s))`: the first occurrence of every element, in
      the order of first occurrence. */
  function Dedup(s: seq<string>): (r: seq<string>)
    ensures Distinct(r)
    ensures forall x :: x in r <==> x in s
  {
    if s == [] then []
    else
      var p := s[..|s| - 1];
      var x := s[|s| - 1];
      assert s == p + [x];
      if x in p then Dedup(p) else Dedup(p) + [x]
  }

  /** Dedup keeps the order of first occurrences. */
  lemma {:induction false} DedupOrder(s: seq<string>)
    ensures forall i, j :: 0 <= i < j < |Dedup(s)| ==>
              FirstIndex(s, Dedup(s)[i]) < FirstIndex(s, Dedup(s)[j])
  {
    if s != [] {
      var p := s[..|s| - 1];
      var x := s[|s| - 1];
      assert s == p + [x];
      DedupOrder(p);
      var d := Dedup(p);
      forall y | y in p ensures FirstIndex(s, y) == FirstIndex(p, y) {
        var i := FirstIndex(p, y);
        assert s[..i] == p[..i];
        FirstIndexUnique(s, y, i);
      }
      if x !in p {
        assert s[..|p|] == p;
        FirstIndexUnique(s, x, |p|);
        forall i, j | 0 <= i < j < |Dedup(s)|
          ensures FirstIndex(s, Dedup(s)[i]) < FirstIndex(s, Dedup(s)[j])
        {
          assert Dedup(s) == d + [x];
          if j < |d| {
            assert Dedup(s)[i] == d[i] && Dedup(s)[j] == d[j];
          } else {
            assert Dedup(s)[i] == d[i];
            assert d[i] in p;
          }
        }
      }
    }
  }

  /** A list without repetitions is left as it is. */
  lemma {:induction false} DedupDistinct(s: seq<string>)
    requires Distinct(s)
    ensures Dedup(s) == s
  {
    if s != [] {
      var p := s[..|s| - 1];
      assert Distinct(p);
      DedupDistinct(p);
      assert s[|s| - 1] !in p;
      assert s == p + [s[|s| - 1]];
    }
  }

  /** `keep_cols` before the duplicates are removed. */
  function KeepColumns(columns: seq<string>, f: Fields, verbose: int): seq<string> {
    if verbose == 0 then [f.earningsYield, f.returnOnCapital] + BaseColumns
    else if verbose == 1 then WatchedColumns + [f.earningsYield, f.returnOnCapital] + BaseColumns
    else columns
  }

  /** The columns shown after the ticker. */
  function ShownColumns(columns: seq<string>, f: Fields, verbose: int): (r: seq<string>)
    ensures Distinct(r)
    ensures verbose == 0 && SeparateColumns(f) ==> r == [f.earningsYield, f.returnOnCapital] + BaseColumns
    ensures verbose >= 2 && Distinct(columns) ==> r == columns
  {
    var r := Dedup(KeepColumns(columns, f, verbose));
    if verbose == 0 && SeparateColumns(f) then
      DedupDistinct([f.earningsYield, f.returnOnCapital] + BaseColumns);
      r
    else if verbose >= 2 && Distinct(columns) then
      DedupDistinct(columns);
      r
    else r
  }

  /** The shown columns of every method: at verbosity 0 its two columns and
      the three ranks; at verbosity 1 the watched columns in order, then
      the ranks, with the method's columns not repeated. */
  lemma ShownColumnsQuiet(columns: seq<string>, m: int)
    requires m in MagicMethodField
    ensures ShownColumns(columns, MagicMethodField[m], 0)
            == [MagicMethodField[m].earningsYield, MagicMethodField[m].returnOnCapital] + BaseColumns
  {
    MethodTable();
  }

  lemma ShownColumnsVerbose(columns: seq<string>, m: int)
    requires m in MagicMethodField
    ensures ShownColumns(columns, MagicMethodField[m], 1) == WatchedColumns + BaseColumns
  {
    DedupKeepsWatched(MagicMethodField[m]);
  }

  /** Removing duplicates from the verbosity-1 list gives the watched
      columns followed by the ranks, because every method's two columns are
      watched. */
  lemma DedupKeepsWatched(f: Fields)
    requires f in MagicMethodField.Values
    ensures Dedup(WatchedColumns + [f.earningsYield, f.returnOnCapital] + BaseColumns)
            == WatchedColumns + BaseColumns
  {
    var w := WatchedColumns;
    var a := w + [f.earningsYield];
    var b := a + [f.returnOnCapital];
    assert WatchedColumns + [f.earningsYield, f.returnOnCapital] + BaseColumns == b + BaseColumns;
    MethodColumnsWatched(f);
    assert Dedup(a) == Dedup(w) by {
      assert a[..|a| - 1] == w;
    }
    assert Dedup(b) == Dedup(a) by {
      assert b[..|b| - 1] == a;
      assert f.returnOnCapital in a;
    }
    WatchedAndBaseDistinct();
    DedupDistinct(w);
    forall x | x in BaseColumns ensures x !in b {
      assert x !in w;
    }
    DedupAppendFresh(b, BaseColumns);
  }

  lemma MethodColumnsWatched(f: Fields)
    requires f in MagicMethodField.Values
    ensures f.earningsYield in WatchedColumns && f.returnOnCapital in WatchedColumns
  {
    var m :| m in MagicMethodField && MagicMethodField[m] == f;
    assert m == 1 || m == 2 || m == 3;
  }

  lemma WatchedAndBaseDistinct()
    ensures Distinct(WatchedColumns) && Distinct(BaseColumns)
    ensures forall x :: x in BaseColumns ==> x !in WatchedColumns
  {
    WatchedDistinct();
    BaseDistinct();
    WatchedShort();
    forall x | x in BaseColumns ensures x !in WatchedColumns {
      assert |x| >= 10;
    }
  }

  /** The three rank columns are at least ten characters long and every
      watched column at most nine, so no rank column is watched; comparing
      lengths spares the solver the character-by-character comparison of
      every pair. */
  lemma BaseDistinct()
    ensures Distinct(BaseColumns)
    ensures forall x :: x in BaseColumns ==> |x| >= 10
  {
    assert |RankEarningsYield| == 19 && |RankReturnOnCapital| == 22 && |RankFinal| == 10;
  }

  lemma WatchedShort()
    ensures forall x :: x in WatchedColumns ==> |x| <= 9
  {
    var w := WatchedColumns;
    assert |w| == 7;
    forall i | 0 <= i < 7 ensures |w[i]| <= 9 {
    }
  }

  /** Two watched columns of the same length differ in their first letter. */
  lemma WatchedDistinct()
    ensures Distinct(WatchedColumns)
  {
    var w := WatchedColumns;
    assert |w| == 7;
    forall i, j | 0 <= i < j < 7 ensures w[i] != w[j] {
      assert |w[i]| != |w[j]| || w[i][0] != w[j][0];
    }
  }

  /** Appending elements that are new and distinct appends them unchanged. */
  lemma {:induction false} DedupAppendFresh(p: seq<string>, q: seq<string>)
    requires Distinct(q)
    requires forall x :: x in q ==> x !in p
    ensures Dedup(p + q) == Dedup(p) + q
    decreases |q|
  {
    if q == [] {
      assert p + q == p;
    } else {
      var q' := q[..|q| - 1];
      var x := q[|q| - 1];
      assert (p + q)[..|p + q| - 1] == p + q';
      assert Distinct(q');
      DedupAppendFresh(p, q');
      assert x !in q';
      assert x !in p + q';
    }
  }

  /** The first of cols that columns lacks, if any. */
  function FirstMissing(cols: seq<string>, columns: seq<string>): (r: Option<string>)
    ensures r.None? <==> forall c :: c in cols ==> c in columns
    ensures r.Some? ==> r.value in cols && r.value !in columns
    ensures r.Some? ==> exists i :: 0 <= i < |cols| && cols[i] == r.value &&
                                    forall j :: 0 <= j < i ==> cols[j] in columns
  {
    if cols == [] then None
    else if cols[0] !in columns then Some(cols[0])
    else
      var t := FirstMissing(cols[1..], columns);
      if t.Some? then
        var i :| 0 <= i < |cols[1..]| && cols[1..][i] == t.value &&
                 forall j :: 0 <= j < i ==> cols[1..][j] in columns;
        assert cols[i + 1] == t.value;
        assert forall j :: 0 <= j < i + 1 ==> cols[j] in columns by {
          forall j | 0 <= j < i + 1 ensures cols[j] in columns {
            if j > 0 { assert cols[j] == cols[1..][j - 1]; }
          }
        }
        t
      else t
  }

  /** `display_results`: copy the table, choose the columns, move the index
      into a "Ticker" column, number the rows from 1, keep the first `top`
      rows and lay out the ticker and the chosen columns. Moving the index
      raises ValueError when the table already has a "Ticker" column, and
      laying out a column the table lacks raises KeyError. */
  function DisplayResults(df: Frame, magicMethod: int, verbose: int, top: int): (r: Result<Listing>)
    requires WellFormed(df)
    requires magicMethod in MagicMethodField
    ensures TickerHeader in df.columns ==> r == Err(ValueError(TickerHeader))
    ensures TickerHeader !in df.columns && r.Err? ==>
              var missing := FirstMissing(ShownColumns(df.columns, MagicMethodField[magicMethod], verbose), df.columns);
              missing.Some? && r == Err(KeyError(missing.value))
    ensures TickerHeader !in df.columns ==>
              (r.Ok? <==> forall c :: c in ShownColumns(df.columns, MagicMethodField[magicMethod], verbose) ==> c in df.columns)
    ensures r.Ok? ==> r.value.header == [TickerHeader] + ShownColumns(df.columns, MagicMethodField[magicMethod], verbose)
    ensures r.Ok? ==> |r.value.lines| == |Head(df.rows, top)|
    ensures r.Ok? ==> forall k :: 0 <= k < |r.value.lines| ==>
              var cols := ShownColumns(df.columns, MagicMethodField[magicMethod], verbose);
              && r.value.lines[k].position == k + 1
              && r.value.lines[k].ticker == df.rows[k].ticker
              && |r.value.lines[k].values| == |cols|
              && forall j :: 0 <= j < |cols| ==> r.value.lines[k].values[j] == df.rows[k].cells[cols[j]]
  {
    var cols := ShownColumns(df.columns, MagicMethodField[magicMethod], verbose);
    if TickerHeader in df.columns then Err(ValueError(TickerHeader))
    else if FirstMissing(cols, df.columns).Some? then Err(KeyError(FirstMissing(cols, df.columns).value))
    else
      var shown := Head(df.rows, top);
      Ok(Listing([TickerHeader] + cols,
                 seq(|shown|, k requires 0 <= k < |shown| =>
                   assert shown[k] in df.rows;
                   Line(k + 1, shown[k].ticker, seq(|cols|, j requires 0 <= j < |cols| => shown[k].cells[cols[j]])))))
  }
}
