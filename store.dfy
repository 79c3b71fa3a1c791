/**
 * The store the program writes to: the transactions table and the budgets
 * table as sequences in table order. Recording a transaction appends one row
 * and then, for an expense, runs the budget check; setting a budget runs the
 * upsert inside a loop of at most three attempts that retries only when the
 * store reports that the database is locked.
 */
module Store {
  import opened Optional
  import opened Dates
  import opened Budgets
  import opened Ledger

  /** The number of attempts `set_budget` makes. */
  const MaxAttempts: nat := 3

  /** What the store answers to one attempt of the upsert. */
  datatype StoreOutcome = Success | Locked | OtherError

  /** Committed, gave up after every attempt was locked, or stopped at another error. */
  datatype SetBudgetResult = Stored | Busy | Failed

  /** Rejected kind, rejected date, or the stored row with the budget check (none for income). */
  datatype AddResult = InvalidKind | InvalidDate | Recorded(row: Transaction, check: Option<BudgetCheck>)

  class FinanceStore {
    var transactions: seq<Transaction>
    var budgets: seq<Budget>

    /** The UNIQUE budget key holds, and every recorded date is a valid date. */
    ghost predicate Valid()
      reads this
    {
      KeysUnique(budgets) && DatesValid(transactions)
    }

    constructor ()
      ensures Valid() && transactions == [] && budgets == []
    {
      transactions := [];
      budgets := [];
    }

    /**
     * `add_transaction`: validate the kind, then the date (empty means
     * today), append the row, and for an expense classify the month-to-date
     * spend of (user, category) against the budget found for them. The
     * spend is the text-window sum, which on the store's valid dates is the
     * calendar month-to-date total.
     */
    method AddTransaction(userId: int, category: string, amount: int, kind: string,
                          date: string, today: string) returns (r: AddResult)
      requires Valid() && ValidDate(today)
      modifies this
      ensures Valid() && budgets == old(budgets)
      ensures r == InvalidKind <==> ParseKind(kind).None?
      ensures r == InvalidDate <==> ParseKind(kind).Some? && date != "" && !ValidDate(date)
      ensures !r.Recorded? ==> transactions == old(transactions)
      ensures r.Recorded? ==>
                r.row == Transaction(userId, category, amount, ParseKind(kind).value,
                                     if date == "" then today else date) &&
                transactions == old(transactions) + [r.row] &&
                r.check == if r.row.kind == Expense
                           then Some(Evaluate(transactions, budgets, userId, category, r.row.date))
                           else None
      ensures r.Recorded? ==> ValidDate(r.row.date)
      ensures r.Recorded? && r.row.kind == Expense ==>
                r.check == Some(Classify(MonthToDateSpend(transactions, userId, category, r.row.date),
                                         BudgetFor(budgets, userId, category)))
    {
      var parsed := ParseKind(kind);
      if parsed.None? {
        return InvalidKind;
      }
      var day := date;
      if day == "" {
        day := today;
      } else if !ValidDate(day) {
        return InvalidDate;
      }
      var row := Transaction(userId, category, amount, parsed.value, day);
      transactions := transactions + [row];
      var check := None;
      if row.kind == Expense {
        SpendIsMonthToDate(transactions, userId, category, day);
        var spent := Spend(transactions, userId, category, MonthStart(day), day);
        var limit := BudgetFor(budgets, userId, category);
        check := Some(Classify(spent, limit));
      }
      r := Recorded(row, check);
    }

    /**
     * `set_budget`: attempt the upsert until the store commits it, reports
     * an error other than a lock, or has been locked on all three attempts.
     * `answer(i)` is the store's outcome on attempt i.
     */
    method SetBudget(userId: int, category: string, monthlyLimit: int, month: int, year: int,
                     answer: nat -> StoreOutcome) returns (result: SetBudgetResult, tries: nat)
      requires Valid()
      modifies this
      ensures Valid() && transactions == old(transactions)
      ensures 1 <= tries <= MaxAttempts
      ensures forall i :: 0 <= i < tries - 1 ==> answer(i) == Locked
      ensures result == Stored <==> answer(tries - 1) == Success
      ensures result == Failed <==> answer(tries - 1) == OtherError
      ensures result == Busy <==> answer(tries - 1) == Locked
      ensures result == Busy ==> tries == MaxAttempts
      ensures budgets == if result == Stored
                         then Upsert(old(budgets), Budget(userId, category, monthlyLimit, month, year))
                         else old(budgets)
      ensures result == Stored ==>
                WithKey(budgets, BudgetKey(userId, category, month, year)) ==
                  [Budget(userId, category, monthlyLimit, month, year)] &&
                OtherKeys(budgets, BudgetKey(userId, category, month, year)) ==
                  OtherKeys(old(budgets), BudgetKey(userId, category, month, year))
    {
      var row := Budget(userId, category, monthlyLimit, month, year);
      var attempt: nat := 0;
      result, tries := Busy, 0;
      while attempt < MaxAttempts
        invariant attempt == tries <= MaxAttempts
        invariant forall i :: 0 <= i < attempt ==> answer(i) == Locked
        invariant budgets == old(budgets) && transactions == old(transactions)
        invariant result == Busy
      {
        tries := tries + 1;
        match answer(attempt)
        case Success =>
          UpsertStoresRow(budgets, row);
          budgets := Upsert(budgets, row);
          result := Stored;
          break;
        case Locked =>
          attempt := attempt + 1;
        case OtherError =>
          result := Failed;
          break;
      }
    }
  }
}
