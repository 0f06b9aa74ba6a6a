/**
 * The ledger state app.js keeps: the three numbers shown on the page
 * (budget, expense total, balance), `App.expenseList`, and whether the
 * budget input has been locked. The methods follow `Balances`,
 * `ExpenseItem` and the handlers of `App`.
 */
module Budget {
  import opened Strings
  import opened Expenses
  import opened View
  import opened Csv

  class Ledger {
    /** The texts of `#budget-amount`, `#expenses-amount` and `#balance-amount`, as numbers. */
    var budget: int
    var expenses: int
    var balance: int
    /** `App.expenseList`, which every `ExpenseItem` shares. */
    var expenseList: seq<Expense>
    /** The budget input and its button are disabled once a budget is set. */
    var budgetLocked: bool

    /**
     * The consistency the page relies on: the shown total is the sum of the
     * listed amounts, the balance is budget minus that total and never
     * negative, and every listed record passed the checks of `addExpense`.
     */
    ghost predicate Valid()
      reads this
    {
      expenses == Sum(expenseList)
      && balance == budget - expenses
      && balance >= 0
      && (forall k :: 0 <= k < |expenseList| ==> WellFormed(expenseList[k]))
      && (budgetLocked ==> budget > 0)
      && (!budgetLocked ==> budget == 0 && expenseList == [])
    }

    /** The page as loaded: all three numbers read 0 and the list is empty. */
    constructor ()
      ensures Valid()
      ensures budget == 0 && expenses == 0 && balance == 0 && expenseList == [] && !budgetLocked
    {
      budget, expenses, balance := 0, 0, 0;
      expenseList := [];
      budgetLocked := false;
    }

    /** `Balances.updateBudgetAmount`: writes all three numbers. */
    method UpdateBudgetAmount(newBudget: int, expense: int)
      modifies this
      ensures budget == newBudget && expenses == expense && balance == newBudget - expense
      ensures expenseList == old(expenseList) && budgetLocked == old(budgetLocked)
    {
      budget := newBudget;
      expenses := expense;
      balance := newBudget - expense;
    }

    /** `Balances.updateExpenseBalance`: a new total, and the balance read off the shown budget. */
    method UpdateExpenseBalance(expense: int)
      modifies this
      ensures expenses == expense && balance == budget - expense
      ensures budget == old(budget) && expenseList == old(expenseList) && budgetLocked == old(budgetLocked)
    {
      expenses := expense;
      balance := budget - expense;
    }

    /** `Balances.deleteExpense`: takes one amount off the shown total instead of recounting. */
    method DeleteExpense(amountToRemove: int)
      modifies this
      ensures expenses == old(expenses) - amountToRemove && balance == budget - expenses
      ensures budget == old(budget) && expenseList == old(expenseList) && budgetLocked == old(budgetLocked)
    {
      UpdateExpenseBalance(expenses - amountToRemove);
    }

    /** `ExpenseItem.updateBalances`: recounts the total from the list. */
    method UpdateBalances()
      modifies this
      ensures expenses == Sum(expenseList) && balance == budget - expenses
      ensures budget == old(budget) && expenseList == old(expenseList) && budgetLocked == old(budgetLocked)
    {
      var total := Sum(expenseList);
      UpdateExpenseBalance(total);
    }

    /**
     * `App.setBudget`. Refused while the budget input is locked, or when
     * the budget or currency fails `CheckBudget`; otherwise the budget is
     * shown, the total reads 0, the balance equals the budget, and the
     * input locks.
     */
    method SetBudget(field: NumField, currency: string) returns (o: Outcome<int>)
      requires Valid()
      modifies this
      ensures Valid()
      ensures o == if old(budgetLocked) then Refused(BudgetLocked) else CheckBudget(field, currency)
      ensures o.Refused? ==> unchanged(this)
      ensures o.Accepted? ==> budget == o.value && expenses == 0 && balance == o.value
                              && budgetLocked && expenseList == old(expenseList) == []
    {
      if budgetLocked {
        return Refused(BudgetLocked);
      }
      o := CheckBudget(field, currency);
      if o.Accepted? {
        UpdateBudgetAmount(o.value, 0);
        budgetLocked := true;
      }
    }

    /**
     * `App.addExpense`. The form values and the shown balance go through
     * `CheckExpense`; a refusal changes nothing. An accepted expense is
     * appended as the last record with the trimmed title, and the total is
     * recounted, so the balance drops by exactly its amount.
     */
    method AddExpense(title: string, amount: NumField, date: string, category: string, id: string)
      returns (o: Outcome<Fields>)
      requires Valid()
      modifies this
      ensures Valid()
      ensures o == CheckExpense(Trim(title), amount, date, category, old(balance))
      ensures o.Refused? ==> unchanged(this)
      ensures o.Accepted? ==>
                expenseList == old(expenseList) + [Expense(id, Trim(title), o.value.amount, date, category)]
                && expenses == old(expenses) + o.value.amount
                && balance == old(balance) - o.value.amount
                && budget == old(budget) && budgetLocked == old(budgetLocked)
    {
      var trimmed := Trim(title);
      var shown := balance;
      o := CheckExpense(trimmed, amount, date, category, shown);
      if o.Accepted? {
        var f := o.value;
        var e := Expense(id, f.title, f.amount, f.date, f.category);
        SumAppend(expenseList, e);
        expenseList := expenseList + [e];
        UpdateBalances();
      }
    }

    /**
     * `ExpenseItem.deleteExpenseItem`. Only the first record with the id
     * goes; its amount returns to the balance and the other records keep
     * their order. An unknown id changes nothing.
     */
    method DeleteExpenseItem(id: string)
      requires Valid()
      modifies this
      ensures Valid()
      ensures var i := FindIndex(old(expenseList), id);
              if i < 0 then unchanged(this)
              else expenseList == RemoveAt(old(expenseList), i)
                   && expenses == old(expenses) - old(expenseList)[i].amount
                   && balance == old(balance) + old(expenseList)[i].amount
                   && budget == old(budget) && budgetLocked == old(budgetLocked)
    {
      var index := FindIndex(expenseList, id);
      if index > -1 {
        var list := expenseList;
        SumRemoveAt(list, index);
        DeleteExpense(list[index].amount);
        expenseList := RemoveAt(list, index);
      }
    }

    /**
     * `ExpenseItem.editExpenseItem`. Hands the first matching record's
     * fields back to the form and deletes it; the fields then pass the
     * checks of `addExpense` again against the new balance.
     */
    method EditExpenseItem(id: string) returns (form: Option<Fields>)
      requires Valid()
      modifies this
      ensures Valid()
      ensures var i := FindIndex(old(expenseList), id);
              form == (if i < 0 then None else Some(FieldsOf(old(expenseList)[i])))
      ensures var i := FindIndex(old(expenseList), id);
              if i < 0 then unchanged(this)
              else expenseList == RemoveAt(old(expenseList), i)
                   && expenses == old(expenses) - old(expenseList)[i].amount
                   && balance == old(balance) + old(expenseList)[i].amount
                   && budget == old(budget) && budgetLocked == old(budgetLocked)
      ensures form.Some? ==>
                CheckExpense(Trim(form.value.title), Number(form.value.amount), form.value.date, form.value.category, balance)
                == Accepted(form.value)
    {
      var index := FindIndex(expenseList, id);
      if index < 0 {
        return None;
      }
      var fields := FieldsOf(expenseList[index]);
      DeleteExpenseItem(id);
      TrimKeeps(fields.title);
      AffordableAccepted(fields, balance);
      form := Some(fields);
    }

    /**
     * Rebuilding the expense view, as the search box does on every input:
     * recounting leaves every number as it was, and the rows are the
     * current view.
     */
    method Refresh(filter: string, currency: string) returns (rows: seq<Row>)
      requires Valid()
      modifies this
      ensures budget == old(budget) && expenses == old(expenses) && balance == old(balance)
      ensures expenseList == old(expenseList) && budgetLocked == old(budgetLocked)
      ensures rows == Render(expenseList, filter, currency)
    {
      UpdateBalances();
      rows := Render(expenseList, filter, currency);
    }

    /**
     * `App.exportToCSV`. Refused for an empty list; otherwise the header
     * row and one row per record in list order, joined as CSV text.
     */
    method ExportToCsv() returns (text: Option<string>)
      ensures expenseList == [] <==> text.None?
      ensures text.Some? ==> text.value == CsvText(expenseList)
    {
      if |expenseList| == 0 {
        return None;
      }
      var csvRows := [Header];
      var i := 0;
      while i < |expenseList|
        invariant 0 <= i <= |expenseList|
        invariant csvRows == [Header] + CellRows(expenseList[..i])
      {
        assert expenseList[..i + 1][..i] == expenseList[..i];
        csvRows := csvRows + [CellsOf(expenseList[i])];
        i := i + 1;
      }
      assert expenseList[..i] == expenseList;
      text := Some(Join(JoinRows(csvRows), '\n'));
    }
  }

  /**
   * Budget 100; lunch for 20 is accepted and leaves 80; deleting the lunch
   * restores 100, and deleting it once more changes nothing.
   */
  method ScenarioAddDelete() {
    var ledger := new Ledger();
    var budgetSet := ledger.SetBudget(Number(100), "USD");
    assert budgetSet == Accepted(100);
    var lunchFields := Fields("Lunch", 20, "2024-01-01", "Food");
    AffordableAccepted(lunchFields, 100);
    TrimKeeps("Lunch");
    var lunch := ledger.AddExpense("Lunch", Number(20), "2024-01-01", "Food", "1");
    var record := Expense("1", "Lunch", 20, "2024-01-01", "Food");
    assert lunch == Accepted(lunchFields);
    assert ledger.expenseList == [record] && ledger.balance == 80;
    assert FindIndex([record], "1") == 0;
    ledger.DeleteExpenseItem("1");
    assert ledger.balance == 100 && ledger.expenseList == [];
    ledger.DeleteExpenseItem("1");
    assert ledger.balance == 100;
  }

  /** Budget 50; a trip for 90 is refused for the balance, which stays 50. */
  method ScenarioOverBalance() {
    var ledger := new Ledger();
    var budgetSet := ledger.SetBudget(Number(50), "EUR");
    assert budgetSet == Accepted(50);
    TrimKeeps("Trip");
    OverBalanceRefused("Trip", 90, "2024-01-02", "Travel", 50);
    var trip := ledger.AddExpense("Trip", Number(90), "2024-01-02", "Travel", "2");
    assert trip == Refused(InsufficientBalance);
    assert ledger.expenseList == [] && ledger.balance == 50;
  }
}
