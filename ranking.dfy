/** The rank stage of the Magic Formula: two competition ("min") ranks, their
    sum, and the sort on that sum. */
module Ranking {
  import opened Frames

  const RankEarningsYield := "Rank_earnings_yield"
  const RankReturnOnCapital := "Rank_return_on_capital"
  const RankFinal := "Rank_Final"

  /** a ranks before b: lower is better when ascending, higher otherwise. */
  predicate Better(a: real, b: real, ascending: bool) {
    if ascending then a < b else a > b
  }

  /** Number of rows whose value in col ranks strictly before x. */
  function CountBetter(rows: seq<Row>, col: string, x: real, ascending: bool): (n: nat)
    requires AllNum(rows, col)
    ensures n <= |rows|
  {
    if rows == [] then 0
    else
      CountBetter(rows[..|rows| - 1], col, x, ascending)
      + (if Better(Value(rows[|rows| - 1], col), x, ascending) then 1 else 0)
  }

  /** Number of rows whose value in col equals x. */
  function CountEqual(rows: seq<Row>, col: string, x: real): nat
    requires AllNum(rows, col)
  {
    if rows == [] then 0
    else CountEqual(rows[..|rows| - 1], col, x) + (if Value(rows[|rows| - 1], col) == x then 1 else 0)
  }

  /** `Series.rank(method="min")` of the value x: one more than the number
      of values that rank strictly before it, so tied values share the
      lowest position of their group and leave a gap after it. */
  function MinRank(rows: seq<Row>, col: string, x: real, ascending: bool): nat
    requires AllNum(rows, col)
  {
    1 + CountBetter(rows, col, x, ascending)
  }

  lemma {:induction false} CountEqualPresent(rows: seq<Row>, col: string, k: nat)
    requires AllNum(rows, col) && k < |rows|
    ensures CountEqual(rows, col, Value(rows[k], col)) >= 1
  {
    if k < |rows| - 1 {
      CountEqualPresent(rows[..|rows| - 1], col, k);
    }
  }

  /** A row never ranks before its own value, so a value present in the
      column has fewer than |rows| rows ranking before it. */
  lemma {:induction false} CountBetterMissesSelf(rows: seq<Row>, col: string, k: nat, ascending: bool)
    requires AllNum(rows, col) && k < |rows|
    ensures CountBetter(rows, col, Value(rows[k], col), ascending) < |rows|
  {
    if k < |rows| - 1 {
      CountBetterMissesSelf(rows[..|rows| - 1], col, k, ascending);
    }
  }

  /** Every rank of a value in the column lies in 1..|rows|. */
  lemma RankInRange(rows: seq<Row>, col: string, k: nat, ascending: bool)
    requires AllNum(rows, col) && k < |rows|
    ensures 1 <= MinRank(rows, col, Value(rows[k], col), ascending) <= |rows|
  {
    CountBetterMissesSelf(rows, col, k, ascending);
  }

  /** Competition ranking: when x ranks before y, every row tied with x sits
      between them, so y's rank is at least x's rank plus the size of x's
      tie group (ranks 1, 1, 3 rather than 1, 1, 2). */
  lemma {:induction false} RanksLeaveGaps(rows: seq<Row>, col: string, x: real, y: real, ascending: bool)
    requires AllNum(rows, col)
    requires Better(x, y, ascending)
    ensures MinRank(rows, col, y, ascending) >= MinRank(rows, col, x, ascending) + CountEqual(rows, col, x)
  {
    if rows != [] {
      RanksLeaveGaps(rows[..|rows| - 1], col, x, y, ascending);
    }
  }

  /** Ranks follow the values: a strictly better value gets a strictly
      smaller rank, and equal values get equal ranks. */
  lemma RankOrder(rows: seq<Row>, col: string, i: nat, j: nat, ascending: bool)
    requires AllNum(rows, col) && i < |rows| && j < |rows|
    ensures Better(Value(rows[i], col), Value(rows[j], col), ascending) ==>
              MinRank(rows, col, Value(rows[i], col), ascending) < MinRank(rows, col, Value(rows[j], col), ascending)
    ensures Value(rows[i], col) == Value(rows[j], col) ==>
              MinRank(rows, col, Value(rows[i], col), ascending) == MinRank(rows, col, Value(rows[j], col), ascending)
  {
    if Better(Value(rows[i], col), Value(rows[j], col), ascending) {
      RanksLeaveGaps(rows, col, Value(rows[i], col), Value(rows[j], col), ascending);
      CountEqualPresent(rows, col, i);
    }
  }

  /** The row with its three rank cells set, the ranks taken over all rows. */
  function RankRow(r: Row, rows: seq<Row>, ey: string, roc: string): Row
    requires AllNum(rows, ey) && AllNum(rows, roc) && HasNum(r, ey) && HasNum(r, roc)
  {
    var a := MinRank(rows, ey, Value(r, ey), true);
    var b := MinRank(rows, roc, Value(r, roc), false);
    Row(r.ticker, r.cells[RankEarningsYield := Num(a as real)]
                         [RankReturnOnCapital := Num(b as real)]
                         [RankFinal := Num((a + b) as real)])
  }

  function RankColumns(columns: seq<string>): seq<string> {
    AddColumn(AddColumn(AddColumn(columns, RankEarningsYield), RankReturnOnCapital), RankFinal)
  }

  /** The three column assignments of `calc_rank`, before the sort. */
  function AddRanks(df: Frame, ey: string, roc: string): Frame
    requires AllNum(df.rows, ey) && AllNum(df.rows, roc)
  {
    Frame(RankColumns(df.columns),
          seq(|df.rows|, k requires 0 <= k < |df.rows| => RankRow(df.rows[k], df.rows, ey, roc)))
  }

  predicate IsRankCell(r: Row, col: string, n: nat) {
    HasNum(r, col) && 1.0 <= Value(r, col) <= n as real && Value(r, col).Floor as real == Value(r, col)
  }

  /** What the rank columns hold: in each row, an earnings-yield rank that
      is one more than the number of rows with a smaller earnings yield, a
      return-on-capital rank that is one more than the number of rows with a
      larger return on capital, both in 1..n, and their sum as the final
      rank; the ticker and the other cells are those of the input row. */
  lemma AddRanksFacts(df: Frame, ey: string, roc: string, k: nat)
    requires AllNum(df.rows, ey) && AllNum(df.rows, roc) && k < |df.rows|
    requires ey !in [RankEarningsYield, RankReturnOnCapital, RankFinal]
    requires roc !in [RankEarningsYield, RankReturnOnCapital, RankFinal]
    ensures |AddRanks(df, ey, roc).rows| == |df.rows|
    ensures var r, n := AddRanks(df, ey, roc).rows[k], |df.rows|;
            && r.ticker == df.rows[k].ticker
            && r.cells - {RankEarningsYield, RankReturnOnCapital, RankFinal}
               == df.rows[k].cells - {RankEarningsYield, RankReturnOnCapital, RankFinal}
            && IsRankCell(r, RankEarningsYield, n) && IsRankCell(r, RankReturnOnCapital, n)
            && HasNum(r, RankFinal)
            && Value(r, RankFinal) == Value(r, RankEarningsYield) + Value(r, RankReturnOnCapital)
            && Value(r, RankEarningsYield) == (1 + CountBetter(df.rows, ey, Value(df.rows[k], ey), true)) as real
            && Value(r, RankReturnOnCapital) == (1 + CountBetter(df.rows, roc, Value(df.rows[k], roc), false)) as real
            && Value(r, ey) == Value(df.rows[k], ey) && Value(r, roc) == Value(df.rows[k], roc)
  {
    RankInRange(df.rows, ey, k, true);
    RankInRange(df.rows, roc, k, false);
  }

  /** A ranked table: every row carries a number in the final-rank column. */
  predicate SortedBy(rows: seq<Row>, col: string)
    requires AllNum(rows, col)
  {
    forall i, j :: 0 <= i < j < |rows| ==> Value(rows[i], col) <= Value(rows[j], col)
  }

  lemma SortedCons(h: Row, t: seq<Row>, col: string)
    requires HasNum(h, col) && AllNum(t, col) && SortedBy(t, col)
    requires forall k :: 0 <= k < |t| ==> Value(h, col) <= Value(t[k], col)
    ensures AllNum([h] + t, col) && SortedBy([h] + t, col)
  {
    var r := [h] + t;
    assert forall k :: 0 < k < |r| ==> r[k] == t[k - 1];
  }

  /** The step of Insert that keeps the first row in front. */
  lemma InsertBehind(x: Row, s: seq<Row>, rest: seq<Row>, col: string)
    requires HasNum(x, col) && AllNum(s, col) && s != []
    requires Value(s[0], col) < Value(x, col)
    requires AllNum(rest, col)
    requires multiset(rest) == multiset(s[1..]) + multiset{x}
    requires forall k :: 0 <= k < |rest| ==> rest[k] == x || rest[k] in s[1..]
    requires SortedBy(s[1..], col) ==> SortedBy(rest, col)
    ensures multiset([s[0]] + rest) == multiset(s) + multiset{x}
    ensures AllNum([s[0]] + rest, col)
    ensures forall k :: 0 <= k < |rest| + 1 ==> ([s[0]] + rest)[k] == x || ([s[0]] + rest)[k] in s
    ensures SortedBy(s, col) ==> SortedBy([s[0]] + rest, col)
  {
    assert s == [s[0]] + s[1..];
    SortedConsAllNum(s[0], rest, col);
    MembersBehind(x, s, rest);
    if SortedBy(s, col) {
      SortedBehind(x, s, rest, col);
    }
  }

  lemma MembersBehind(x: Row, s: seq<Row>, rest: seq<Row>)
    requires s != []
    requires forall k :: 0 <= k < |rest| ==> rest[k] == x || rest[k] in s[1..]
    ensures forall k :: 0 <= k < |rest| + 1 ==> ([s[0]] + rest)[k] == x || ([s[0]] + rest)[k] in s
  {
    var r := [s[0]] + rest;
    forall k | 0 < k < |r| ensures r[k] == x || r[k] in s {
      assert r[k] == rest[k - 1];
      assert rest[k - 1] in s[1..] ==> rest[k - 1] in s;
    }
  }

  lemma SortedBehind(x: Row, s: seq<Row>, rest: seq<Row>, col: string)
    requires HasNum(x, col) && AllNum(s, col) && s != [] && SortedBy(s, col)
    requires Value(s[0], col) < Value(x, col)
    requires AllNum(rest, col)
    requires forall k :: 0 <= k < |rest| ==> rest[k] == x || rest[k] in s[1..]
    requires SortedBy(s[1..], col) ==> SortedBy(rest, col)
    ensures AllNum([s[0]] + rest, col) && SortedBy([s[0]] + rest, col)
  {
    var t := s[1..];
    forall k | 0 <= k < |rest| ensures Value(s[0], col) <= Value(rest[k], col) {
      if rest[k] != x {
        var m :| 0 <= m < |t| && t[m] == rest[k];
        assert s[m + 1] == rest[k];
      }
    }
    assert SortedBy(t, col) by {
      forall i, j | 0 <= i < j < |t| ensures Value(t[i], col) <= Value(t[j], col) {
        assert t[i] == s[i + 1] && t[j] == s[j + 1];
      }
    }
    SortedCons(s[0], rest, col);
  }

  lemma SortedConsAllNum(h: Row, t: seq<Row>, col: string)
    requires HasNum(h, col) && AllNum(t, col)
    ensures AllNum([h] + t, col)
  {
    var r := [h] + t;
    assert forall k :: 0 < k < |r| ==> r[k] == t[k - 1];
  }

  /** Inserts x before the first row whose key is not smaller than its own. */
  function Insert(x: Row, s: seq<Row>, col: string): (r: seq<Row>)
    requires HasNum(x, col) && AllNum(s, col)
    ensures multiset(r) == multiset(s) + multiset{x}
    ensures |r| == |s| + 1
    ensures AllNum(r, col)
    ensures forall k :: 0 <= k < |r| ==> r[k] == x || r[k] in s
    ensures SortedBy(s, col) ==> SortedBy(r, col)
  {
    if s == [] then [x]
    else if Value(x, col) <= Value(s[0], col) then
      SortedConsAllNum(x, s, col);
      assert SortedBy(s, col) ==> SortedBy([x] + s, col) by {
        if SortedBy(s, col) {
          SortedCons(x, s, col);
        }
      }
      [x] + s
    else
      assert AllNum(s[1..], col) by {
        assert forall k :: 0 <= k < |s| - 1 ==> s[1..][k] == s[k + 1];
      }
      var rest := Insert(x, s[1..], col);
      InsertBehind(x, s, rest, col);
      [s[0]] + rest
  }

  /** The sort on one numeric column: an insertion sort. */
  function SortBy(s: seq<Row>, col: string): (r: seq<Row>)
    requires AllNum(s, col)
    ensures multiset(r) == multiset(s)
    ensures |r| == |s|
    ensures AllNum(r, col)
    ensures SortedBy(r, col)
  {
    if s == [] then []
    else
      assert s == [s[0]] + s[1..];
      Insert(s[0], SortBy(s[1..], col), col)
  }

  lemma InsertStep(x: Row, s: seq<Row>, col: string)
    requires HasNum(x, col) && AllNum(s, col) && s != []
    ensures AllNum(s[1..], col)
    ensures Value(x, col) <= Value(s[0], col) ==> Insert(x, s, col) == [x] + s
    ensures Value(s[0], col) < Value(x, col) ==> Insert(x, s, col) == [s[0]] + Insert(x, s[1..], col)
  {
    assert forall k :: 0 <= k < |s| - 1 ==> s[1..][k] == s[k + 1];
  }

  lemma SortByStep(s: seq<Row>, col: string)
    requires AllNum(s, col) && s != []
    ensures AllNum(s[1..], col)
    ensures SortBy(s, col) == Insert(s[0], SortBy(s[1..], col), col)
  {
    assert forall k :: 0 <= k < |s| - 1 ==> s[1..][k] == s[k + 1];
  }
}
