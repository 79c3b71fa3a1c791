/**
 * The transactions table and the budget check made after an expense is
 * recorded: the expense total of (user, category) over the text window
 * [month start, date], classified against the budget found for
 * (user, category).
 */
module Ledger {
  import opened Optional
  import opened Dates
  import opened Budgets

  /** The table's CHECK(type IN ('income', 'expense')). */
  datatype Kind = Income | Expense

  /** The accepted spellings of a kind, after lower-casing. */
  function ParseKind(s: string): (r: Option<Kind>)
    ensures r == Some(Income) <==> s == "income"
    ensures r == Some(Expense) <==> s == "expense"
    ensures r.None? <==> s != "income" && s != "expense"
  {
    if s == "income" then Some(Income)
    else if s == "expense" then Some(Expense)
    else None
  }

  /** A transaction row; the amount is in cents, the date is text. */
  datatype Transaction = Transaction(userId: int, category: string, amount: int, kind: Kind, date: string)

  /** The WHERE clause of the spend query. */
  predicate InSpendWindow(t: Transaction, u: int, c: string, from: string, to: string) {
    t.userId == u && t.category == c && t.kind == Expense && TextLe(from, t.date) && TextLe(t.date, to)
  }

  /** `SUM(amount)` over the rows in the spend window, 0 when none match. */
  function Spend(txs: seq<Transaction>, u: int, c: string, from: string, to: string): int
    decreases |txs|
  {
    if txs == [] then 0
    else
      var t := txs[|txs| - 1];
      Spend(txs[..|txs| - 1], u, c, from, to) + (if InSpendWindow(t, u, c, from, to) then t.amount else 0)
  }

  lemma SpendAppend(txs: seq<Transaction>, t: Transaction, u: int, c: string, from: string, to: string)
    ensures Spend(txs + [t], u, c, from, to) ==
            Spend(txs, u, c, from, to) + (if InSpendWindow(t, u, c, from, to) then t.amount else 0)
  {
    assert (txs + [t])[..|txs|] == txs;
  }

  /** With no row in the window the spend is 0, never absent. */
  lemma {:induction false} SpendNoMatch(txs: seq<Transaction>, u: int, c: string, from: string, to: string)
    requires forall i :: 0 <= i < |txs| ==> !InSpendWindow(txs[i], u, c, from, to)
    ensures Spend(txs, u, c, from, to) == 0
    decreases |txs|
  {
    if txs != [] {
      var p := txs[..|txs| - 1];
      forall i | 0 <= i < |p| ensures !InSpendWindow(p[i], u, c, from, to) {
        assert p[i] == txs[i];
      }
      SpendNoMatch(p, u, c, from, to);
    }
  }

  /**
   * The expense just recorded on a valid date lies in its own window, so the
   * spend computed right after recording it includes its amount exactly once.
   */
  lemma NewExpenseCounted(txs: seq<Transaction>, u: int, c: string, amount: int, d: string)
    requires ValidDate(d)
    ensures Spend(txs + [Transaction(u, c, amount, Expense, d)], u, c, MonthStart(d), d) ==
            Spend(txs, u, c, MonthStart(d), d) + amount
  {
    MonthStartLe(d);
    TextLeRefl(d);
    SpendAppend(txs, Transaction(u, c, amount, Expense, d), u, c, MonthStart(d), d);
  }

  /**
   * With the unpadded date "2024-3-5" the just-recorded expense falls outside
   * its own window and the spend is the same as before recording it.
   */
  lemma UnpaddedExpenseNotCounted(txs: seq<Transaction>, u: int, c: string, amount: int)
    ensures Spend(txs + [Transaction(u, c, amount, Expense, "2024-3-5")], u, c,
                  MonthStart("2024-3-5"), "2024-3-5") ==
            Spend(txs, u, c, MonthStart("2024-3-5"), "2024-3-5")
  {
    UnpaddedDateLeavesWindow();
    SpendAppend(txs, Transaction(u, c, amount, Expense, "2024-3-5"), u, c, MonthStart("2024-3-5"), "2024-3-5");
  }

  /** Calendar month-to-date membership, on date fields rather than text order. */
  predicate InMonthToDate(t: Transaction, u: int, c: string, d: string)
    requires ValidDate(d)
  {
    t.userId == u && t.category == c && t.kind == Expense && ValidDate(t.date) &&
    Year(t.date) == Year(d) && Month(t.date) == Month(d) && Day(t.date) <= Day(d)
  }

  /** Reference definition: expense total of the calendar month of d up to d. */
  function MonthToDateSpend(txs: seq<Transaction>, u: int, c: string, d: string): int
    requires ValidDate(d)
    decreases |txs|
  {
    if txs == [] then 0
    else
      var t := txs[|txs| - 1];
      MonthToDateSpend(txs[..|txs| - 1], u, c, d) + (if InMonthToDate(t, u, c, d) then t.amount else 0)
  }

  predicate DatesValid(txs: seq<Transaction>) {
    forall i :: 0 <= i < |txs| ==> ValidDate(txs[i].date)
  }

  /**
   * On a table of valid dates the text window [month start, d] selects
   * exactly the calendar month-to-date of d.
   */
  lemma {:induction false} SpendIsMonthToDate(txs: seq<Transaction>, u: int, c: string, d: string)
    requires ValidDate(d) && DatesValid(txs)
    ensures Spend(txs, u, c, MonthStart(d), d) == MonthToDateSpend(txs, u, c, d)
    decreases |txs|
  {
    if txs != [] {
      var p, t := txs[..|txs| - 1], txs[|txs| - 1];
      assert DatesValid(p) by {
        forall i | 0 <= i < |p| ensures ValidDate(p[i].date) { assert p[i] == txs[i]; }
      }
      SpendIsMonthToDate(p, u, c, d);
      WindowIsMonthToDate(t.date, d);
    }
  }

  /** The outcome of the budget check. */
  datatype BudgetCheck = NoBudget | Exceeded(spent: int, limit: int) | Within(spent: int, limit: int)

  /** No budget row: NoBudget; spend strictly above the limit: Exceeded; otherwise Within. */
  function Classify(spent: int, limit: Option<int>): (r: BudgetCheck)
    ensures r.NoBudget? <==> limit.None?
    ensures r.Exceeded? <==> limit.Some? && spent > limit.value
    ensures r.Within? <==> limit.Some? && spent <= limit.value
    ensures !r.NoBudget? ==> r.spent == spent && r.limit == limit.value
  {
    match limit
    case None => NoBudget
    case Some(l) => if spent > l then Exceeded(spent, l) else Within(spent, l)
  }

  /** The check made after recording an expense of (u, c) dated d. */
  function Evaluate(txs: seq<Transaction>, budgets: seq<Budget>, u: int, c: string, d: string): BudgetCheck {
    Classify(Spend(txs, u, c, MonthStart(d), d), BudgetFor(budgets, u, c))
  }

  /**
   * Recording an expense under a budget: the check sees the earlier
   * month-to-date spend plus the new amount, and reports Exceeded exactly
   * when that total is strictly above the limit.
   */
  lemma EvaluateAfterExpense(txs: seq<Transaction>, budgets: seq<Budget>, u: int, c: string,
                             amount: int, d: string, limit: int)
    requires ValidDate(d) && BudgetFor(budgets, u, c) == Some(limit)
    ensures var check := Evaluate(txs + [Transaction(u, c, amount, Expense, d)], budgets, u, c, d);
            check.spent == Spend(txs, u, c, MonthStart(d), d) + amount && check.limit == limit &&
            (check.Exceeded? <==> Spend(txs, u, c, MonthStart(d), d) + amount > limit)
  {
    NewExpenseCounted(txs, u, c, amount, d);
  }

  /** An expense of 50.00 on 1 March 2024 alone: the check on the 1st sees 50.00. */
  lemma WindowExampleFirst(u: int, c: string)
    ensures Spend([Transaction(u, c, 5000, Expense, "2024-03-01")], u, c,
                  MonthStart("2024-03-01"), "2024-03-01") == 5000
  {
    var first := Transaction(u, c, 5000, Expense, "2024-03-01");
    DateFacts();
    NewExpenseCounted([], u, c, 5000, "2024-03-01");
    assert [] + [first] == [first];
    assert Spend([], u, c, MonthStart("2024-03-01"), "2024-03-01") == 0;
  }

  /**
   * Expenses of 50.00 on the 1st and 60.00 on the 15th of March 2024: the
   * check on the 15th sees 110.00.
   */
  lemma WindowExampleFifteenth(u: int, c: string)
    ensures Spend([Transaction(u, c, 5000, Expense, "2024-03-01"),
                   Transaction(u, c, 6000, Expense, "2024-03-15")], u, c,
                  MonthStart("2024-03-15"), "2024-03-15") == 11000
  {
    var first := Transaction(u, c, 5000, Expense, "2024-03-01");
    var second := Transaction(u, c, 6000, Expense, "2024-03-15");
    var from := MonthStart("2024-03-15");
    DateFacts();
    WindowIsMonthToDate("2024-03-01", "2024-03-15");
    assert InSpendWindow(first, u, c, from, "2024-03-15");
    SpendAppend([], first, u, c, from, "2024-03-15");
    assert [] + [first] == [first];
    var before := Spend([first], u, c, from, "2024-03-15");
    assert before == 5000;
    NewExpenseCounted([first], u, c, 6000, "2024-03-15");
    assert [first] + [second] == [first, second];
  }

  lemma DateFacts()
    ensures ValidDate("2024-03-01") && Day("2024-03-01") == 1
    ensures ValidDate("2024-03-15") && Day("2024-03-15") == 15
    ensures Year("2024-03-01") == Year("2024-03-15") && Month("2024-03-01") == Month("2024-03-15")
  {
    assert "2024-03-01"[..4] == "2024" && "2024-03-15"[..4] == "2024";
    assert "2024-03-01"[5..7] == "03" && "2024-03-15"[5..7] == "03";
    assert "2024-03-01"[8..] == "01" && "2024-03-15"[8..] == "15";
    assert Num("2024") == 2024 by {
      assert "2024"[..3] == "202" && "202"[..2] == "20" && "20"[..1] == "2" && "2"[..0] == [];
    }
    NumTwo("03");
    NumTwo("01");
    NumTwo("15");
  }
}
