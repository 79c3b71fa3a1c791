/**
 * The monthly report: income and expense totals of one user's transactions
 * whose date falls in a given month and year, and the savings between them.
 * The month is matched as the two-character text `f"{month:02d}"`, the year
 * as the text the caller typed.
 */
module Report {
  import opened Dates
  import opened Ledger

  /** The decimal digits of n, without leading zeros. */
  function Decimal(n: nat): (r: string)
    ensures AllDigits(r) && Num(r) == n
    ensures n < 10 ==> |r| == 1
    ensures 10 <= n < 100 ==> |r| == 2
    decreases n
  {
    var last := ['0' + (n % 10) as char];
    if n < 10 then
      assert Num(last) == n by { assert last[..0] == []; }
      last
    else
      var r := Decimal(n / 10) + last;
      assert r[..|r| - 1] == Decimal(n / 10);
      r
  }

  /** Python's `f"{month:02d}"`: at least two characters, zero-padded after the sign. */
  function FormatMonth(m: int): (r: string)
    ensures m >= 0 ==> AllDigits(r) && Num(r) == m
    ensures 0 <= m < 100 ==> |r| == 2
    ensures m < 0 ==> |r| >= 2 && r[0] == '-'
  {
    if m < 0 then "-" + Decimal(-m)
    else if m < 10 then
      var r := "0" + Decimal(m);
      assert r[..1] == "0" && Num("0") == 0 by { assert "0"[..0] == []; }
      NumTwo(r);
      r
    else Decimal(m)
  }

  /** `strftime('%m', date) = f"{month:02d}" AND strftime('%Y', date) = year`. */
  predicate InPeriod(date: string, month: int, year: string) {
    |date| >= 7 && date[..4] == year && date[5..7] == FormatMonth(month)
  }

  /** A valid date is in the period exactly when its year text and its month number match. */
  lemma PeriodMatchesMonth(d: string, month: int, year: string)
    requires ValidDate(d)
    ensures InPeriod(d, month, year) <==> d[..4] == year && Month(d) == month
  {
    var f := FormatMonth(month);
    if month < 0 {
      assert d[5..7][0] == d[5];
    } else if month < 100 {
      DigitsOrder(d[5..7], f);
    } else {
      NumTwo(d[5..7]);
    }
  }

  predicate Counted(t: Transaction, u: int, kind: Kind, month: int, year: string) {
    t.userId == u && t.kind == kind && InPeriod(t.date, month, year)
  }

  /** `SUM(CASE WHEN type = kind THEN amount ELSE 0 END)` over the user's period rows, or 0. */
  function KindTotal(txs: seq<Transaction>, u: int, kind: Kind, month: int, year: string): int
    decreases |txs|
  {
    if txs == [] then 0
    else
      var t := txs[|txs| - 1];
      KindTotal(txs[..|txs| - 1], u, kind, month, year) + (if Counted(t, u, kind, month, year) then t.amount else 0)
  }

  datatype ReportTotals = ReportTotals(totalIncome: int, totalExpense: int, savings: int)

  /** `generate_monthly_report`: both totals and their difference. */
  function MonthlyReport(txs: seq<Transaction>, u: int, month: int, year: string): (r: ReportTotals)
    ensures r.savings == r.totalIncome - r.totalExpense
  {
    var income := KindTotal(txs, u, Income, month, year);
    var expense := KindTotal(txs, u, Expense, month, year);
    ReportTotals(income, expense, income - expense)
  }

  /** A total over no counted rows is 0. */
  lemma {:induction false} KindTotalNoMatch(txs: seq<Transaction>, u: int, kind: Kind, month: int, year: string)
    requires forall i :: 0 <= i < |txs| ==> !Counted(txs[i], u, kind, month, year)
    ensures KindTotal(txs, u, kind, month, year) == 0
    decreases |txs|
  {
    if txs != [] {
      var p := txs[..|txs| - 1];
      forall i | 0 <= i < |p| ensures !Counted(p[i], u, kind, month, year) {
        assert p[i] == txs[i];
      }
      KindTotalNoMatch(p, u, kind, month, year);
    }
  }

  /**
   * Recording one more transaction changes the report only if it belongs to
   * the user and the period: an income row adds to the income total, an
   * expense row to the expense total, never both.
   */
  lemma ReportAppend(txs: seq<Transaction>, t: Transaction, u: int, month: int, year: string)
    ensures var before, after := MonthlyReport(txs, u, month, year), MonthlyReport(txs + [t], u, month, year);
            var counted := t.userId == u && InPeriod(t.date, month, year);
            after.totalIncome == before.totalIncome + (if counted && t.kind == Income then t.amount else 0) &&
            after.totalExpense == before.totalExpense + (if counted && t.kind == Expense then t.amount else 0)
  {
    assert (txs + [t])[..|txs|] == txs;
  }

  /**
   * Income of 200.00 and 300.00 and an expense of 150.00 in March 2024 give
   * totals 500.00 and 150.00 and savings 350.00; a row of another month and a
   * row of another user are not counted.
   */
  lemma ReportExample(u: int, other: int)
    requires other != u
    ensures var txs := [Transaction(u, "salary", 20000, Income, "2024-03-01"),
                        Transaction(u, "gifts", 30000, Income, "2024-03-20"),
                        Transaction(u, "food", 15000, Expense, "2024-03-05"),
                        Transaction(u, "food", 9900, Expense, "2024-04-01"),
                        Transaction(other, "food", 7700, Expense, "2024-03-05")];
            MonthlyReport(txs, u, 3, "2024") == ReportTotals(50000, 15000, 35000)
  {
    var t1 := Transaction(u, "salary", 20000, Income, "2024-03-01");
    var t2 := Transaction(u, "gifts", 30000, Income, "2024-03-20");
    var t3 := Transaction(u, "food", 15000, Expense, "2024-03-05");
    var t4 := Transaction(u, "food", 9900, Expense, "2024-04-01");
    var t5 := Transaction(other, "food", 7700, Expense, "2024-03-05");
    assert FormatMonth(3) == "03";
    assert "2024-03-01"[5..7] == "03" && "2024-03-20"[5..7] == "03" && "2024-03-05"[5..7] == "03";
    assert "2024-04-01"[5..7] == "04";
    assert "2024-03-01"[..4] == "2024" && "2024-03-20"[..4] == "2024" && "2024-03-05"[..4] == "2024";
    assert MonthlyReport([], u, 3, "2024") == ReportTotals(0, 0, 0);
    ReportAppend([], t1, u, 3, "2024");
    assert [] + [t1] == [t1];
    ReportAppend([t1], t2, u, 3, "2024");
    assert [t1] + [t2] == [t1, t2];
    ReportAppend([t1, t2], t3, u, 3, "2024");
    assert [t1, t2] + [t3] == [t1, t2, t3];
    ReportAppend([t1, t2, t3], t4, u, 3, "2024");
    assert [t1, t2, t3] + [t4] == [t1, t2, t3, t4];
    ReportAppend([t1, t2, t3, t4], t5, u, 3, "2024");
    assert [t1, t2, t3, t4] + [t5] == [t1, t2, t3, t4, t5];
  }

  /** Savings may be negative: an expense-only month reports minus its expenses. */
  lemma NegativeSavings(txs: seq<Transaction>, u: int, month: int, year: string, t: Transaction)
    requires forall i :: 0 <= i < |txs| ==> !Counted(txs[i], u, Income, month, year) && !Counted(txs[i], u, Expense, month, year)
    requires t.userId == u && t.kind == Expense && InPeriod(t.date, month, year) && t.amount > 0
    ensures MonthlyReport(txs + [t], u, month, year).savings == -t.amount < 0
  {
    KindTotalNoMatch(txs, u, Income, month, year);
    KindTotalNoMatch(txs, u, Expense, month, year);
    ReportAppend(txs, t, u, month, year);
  }
}
