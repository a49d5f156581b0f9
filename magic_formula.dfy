/** `MagicFormula` of the package module (src/magicformulabr/main.py): a
    ranking engine that owns its table and changes it in place, stage by
    stage, in `calc_rank`. */
module MagicFormulaMain {
  import opened Frames
  import opened PercentText
  import Filtering
  import opened Ranking

  /** The two columns a method ranks on. */
  datatype Fields = Fields(earningsYield: string, returnOnCapital: string)

  /** `MAGIC_METHOD_FIELD`, keyed by the method number. */
  const MagicMethodField: map<int, Fields> :=
    map[1 := Fields("P/L", "ROE"),
        2 := Fields("EV/EBIT", "ROIC"),
        3 := Fields("EV/EBITDA", "ROIC")]

  /** The lookup `MAGIC_METHOD_FIELD[magic_method]`; None where Python raises
      KeyError. */
  function MethodFields(magicMethod: int): (r: Option<Fields>)
    ensures r.Some? <==> 1 <= magicMethod <= 3
    ensures r.Some? ==> r.value == MagicMethodField[magicMethod]
  {
    if magicMethod in MagicMethodField then Some(MagicMethodField[magicMethod]) else None
  }

  /** The columns of every method are distinct from each other and from the
      liquidity and rank columns, so no stage overwrites a column that a
      later stage reads. */
  predicate SeparateColumns(f: Fields) {
    && f.earningsYield != f.returnOnCapital
    && f.earningsYield !in [Filtering.Liquidity, RankEarningsYield, RankReturnOnCapital, RankFinal]
    && f.returnOnCapital !in [Filtering.Liquidity, RankEarningsYield, RankReturnOnCapital, RankFinal]
  }

  lemma MethodTable()
    ensures MethodFields(1) == Some(Fields("P/L", "ROE"))
    ensures MethodFields(2) == Some(Fields("EV/EBIT", "ROIC"))
    ensures MethodFields(3) == Some(Fields("EV/EBITDA", "ROIC"))
    ensures forall m :: m in MagicMethodField ==> SeparateColumns(MagicMethodField[m])
  {
  }

  /** The table `calc_rank` ranks: converted, then filtered. */
  function Prepared(df: Frame, f: Fields, parse: string -> Option<real>): Outcome
    requires WellFormed(df)
  {
    var conv := Filtering.ApplyConverters(df, f.returnOnCapital, parse);
    if conv.raised.Some? then conv else Filtering.FilterData(conv.df, f.earningsYield, f.returnOnCapital)
  }

  /** `out` holds the rows of df with their rank columns, in non-decreasing
      order of final rank. */
  predicate IsRankingOf(out: Frame, df: Frame, f: Fields)
    requires AllNum(df.rows, f.earningsYield) && AllNum(df.rows, f.returnOnCapital)
  {
    var ranked := AddRanks(df, f.earningsYield, f.returnOnCapital);
    && out.columns == ranked.columns
    && multiset(out.rows) == multiset(ranked.rows)
    && AllNum(out.rows, RankFinal)
    && SortedBy(out.rows, RankFinal)
  }

  lemma AddRanksWellFormed(df: Frame, ey: string, roc: string)
    requires WellFormed(df) && AllNum(df.rows, ey) && AllNum(df.rows, roc)
    ensures WellFormed(AddRanks(df, ey, roc))
    ensures AllNum(AddRanks(df, ey, roc).rows, RankFinal)
  {
    var out := AddRanks(df, ey, roc);
    var added := {RankEarningsYield, RankReturnOnCapital, RankFinal};
    assert ColumnSet(out.columns) == ColumnSet(df.columns) + added;
    forall k | 0 <= k < |out.rows|
      ensures out.rows[k].cells.Keys == ColumnSet(out.columns) && HasNum(out.rows[k], RankFinal)
    {
      assert df.rows[k] in df.rows;
      assert out.rows[k] == RankRow(df.rows[k], df.rows, ey, roc);
      assert out.rows[k].cells.Keys == df.rows[k].cells.Keys + added;
    }
  }

  /** Sorting reorders whole rows, so every row still has the table's
      columns. */
  lemma SortedWellFormed(df: Frame)
    requires WellFormed(df) && AllNum(df.rows, RankFinal)
    ensures WellFormed(Frame(df.columns, SortBy(df.rows, RankFinal)))
  {
    var sorted := SortBy(df.rows, RankFinal);
    forall x | x in sorted ensures x in df.rows {
      assert x in multiset(sorted);
    }
  }

  /** Rows that passed the filters hold numbers in both ranked columns. */
  lemma PassingNumeric(df: Frame, ey: string, roc: string)
    requires forall x :: x in df.rows ==> Filtering.Passes(x, ey, roc)
    ensures AllNum(df.rows, ey) && AllNum(df.rows, roc)
  {
    forall k | 0 <= k < |df.rows| ensures HasNum(df.rows[k], ey) && HasNum(df.rows[k], roc) {
      assert df.rows[k] in df.rows;
    }
  }

  class MagicFormula {
    /** `self.pd_df` */
    var df: Frame
    /** `self.earnings_yield` */
    const earningsYield: string
    /** `self.ret_on_capital` */
    const returnOnCapital: string

    ghost predicate Valid()
      reads this
    {
      && WellFormed(df)
      && Fields(earningsYield, returnOnCapital) in MagicMethodField.Values
    }

    function Method(): Fields {
      Fields(earningsYield, returnOnCapital)
    }

    constructor (pdDf: Frame, magicMethod: int)
      requires WellFormed(pdDf)
      requires magicMethod in MagicMethodField
      ensures Valid() && df == pdDf
      ensures Method() == MagicMethodField[magicMethod]
    {
      df := pdDf;
      earningsYield := MagicMethodField[magicMethod].earningsYield;
      returnOnCapital := MagicMethodField[magicMethod].returnOnCapital;
    }

    /** `_apply_converters`: the one converter runs on the return-on-capital
        column when the table has it. */
    method ApplyConverters(parse: string -> Option<real>) returns (raised: Option<Exception>)
      requires Valid()
      modifies this
      ensures Valid()
      ensures Outcome(df, raised) == Filtering.ApplyConverters(old(df), returnOnCapital, parse)
    {
      var o := Filtering.ApplyConverters(df, returnOnCapital, parse);
      df, raised := o.df, o.raised;
    }

    /** `_remove_rows(col_name, min_value)` */
    method RemoveRows(col: string, minValue: real) returns (raised: Option<Exception>)
      requires Valid()
      modifies this
      ensures Valid()
      ensures Outcome(df, raised) == Filtering.RemoveRows(old(df), col, minValue)
    {
      var o := Filtering.RemoveRows(df, col, minValue);
      Filtering.RemoveRowsWellFormed(df, col, minValue);
      df, raised := o.df, o.raised;
    }

    /** `_filter_data` */
    method FilterData() returns (raised: Option<Exception>)
      requires Valid()
      modifies this
      ensures Valid()
      ensures Outcome(df, raised) == Filtering.FilterData(old(df), earningsYield, returnOnCapital)
    {
      raised := RemoveRows(earningsYield, 0.0);
      if raised.Some? {
        return;
      }
      raised := RemoveRows(returnOnCapital, 0.0);
      if raised.Some? {
        return;
      }
      raised := RemoveRows(Filtering.Liquidity, 0.0);
    }

    /** `calc_rank`: convert, filter, and unless nothing is left, add the
        rank columns and sort by the final rank. The sort's order among
        equal final ranks is not promised. */
    method CalcRank(parse: string -> Option<real>) returns (ranked: Frame, raised: Option<Exception>)
      requires Valid()
      modifies this
      ensures Valid() && ranked == df
      ensures var p := Prepared(old(df), Method(), parse);
              && raised == p.raised
              && (raised.Some? ==> df == p.df)
              && (raised.None? && IsEmpty(p.df) ==> df == p.df)
              && (raised.None? && !IsEmpty(p.df) ==>
                    && AllNum(p.df.rows, earningsYield) && AllNum(p.df.rows, returnOnCapital)
                    && IsRankingOf(df, p.df, Method()))
    {
      raised := ApplyConverters(parse);
      if raised.Some? {
        ranked := df;
        return;
      }
      ghost var converted := df;
      raised := FilterData();
      if raised.Some? || IsEmpty(df) {
        ranked := df;
        return;
      }
      Filtering.FilterDataExact(converted, earningsYield, returnOnCapital);
      PassingNumeric(df, earningsYield, returnOnCapital);
      AddRanksWellFormed(df, earningsYield, returnOnCapital);
      var withRanks := AddRanks(df, earningsYield, returnOnCapital);
      SortedWellFormed(withRanks);
      df := Frame(withRanks.columns, SortBy(withRanks.rows, RankFinal));
      ranked := df;
    }
  }
}
