/**
 * The expense records of app.js, the form values they are built from, and
 * the pure rules the ledger applies to them: validation of the budget and of
 * a new expense, the sum of the amounts, and the first-match lookup by id.
 */
module Expenses {
  import opened Strings

  datatype Option<T> = None | Some(value: T)

  /**
   * The value of a number input as JavaScript's unary `+` reads it:
   * the empty field reads as 0, text that is not a number reads as NaN.
   * Numbers are whole (an amount in the smallest currency unit).
   */
  datatype NumField = Blank | NotANumber | Number(n: int)

  /** The number unary plus reads from a field; None stands for NaN. */
  function ToNumber(f: NumField): (r: Option<int>)
    ensures r.None? <==> f.NotANumber?
    ensures f.Blank? ==> r == Some(0)
    ensures f.Number? ==> r == Some(f.n)
  {
    match f
    case Blank => Some(0)
    case NotANumber => None
    case Number(n) => Some(n)
  }

  /** One entry of `App.expenseList`. */
  datatype Expense = Expense(id: string, title: string, amount: int, date: string, category: string)

  /** The four values the expense form holds. */
  datatype Fields = Fields(title: string, amount: int, date: string, category: string)

  function FieldsOf(e: Expense): Fields {
    Fields(e.title, e.amount, e.date, e.category)
  }

  /** What `addExpense` lets into the list: trimmed non-empty title, positive amount, date and category present. */
  predicate WellFormedFields(f: Fields) {
    f.title != [] && Trimmed(f.title) && f.amount > 0 && f.date != [] && f.category != []
  }

  predicate WellFormed(e: Expense) {
    WellFormedFields(FieldsOf(e))
  }

  /** Why an input is turned away; the source shows each as an alert. */
  datatype Refusal = InvalidBudget | BudgetLocked | InvalidExpense | InsufficientBalance

  datatype Outcome<T> = Accepted(value: T) | Refused(reason: Refusal)

  /** The `setBudget` guard exactly as written: true when the budget is let through. */
  function BudgetPassesAsWritten(field: NumField, currency: string): (ok: bool)
    ensures ok ==> !field.Blank? && currency != []
    ensures field.Number? ==> (ok <==> field.n > 0 && currency != [])
    ensures field.NotANumber? ==> (ok <==> currency != [])
  {
    // A NaN budget is neither blank nor at most 0, so nothing here refuses it.
    !(field.Blank? || (field.Number? && field.n <= 0) || currency == [])
  }

  /** The guard lets a budget that reads as NaN through. */
  lemma NotANumberBudgetPasses()
    ensures BudgetPassesAsWritten(NotANumber, "USD")
    ensures ToNumber(NotANumber).None?
  {
  }

  /** The budget check as intended: a positive number and a chosen currency. */
  function CheckBudget(field: NumField, currency: string): (r: Outcome<int>)
    ensures r.Accepted? <==> ToNumber(field).Some? && ToNumber(field).value > 0 && currency != []
    ensures r.Accepted? ==> Some(r.value) == ToNumber(field) && r.value > 0
    ensures r.Refused? ==> r.reason == InvalidBudget
  {
    match ToNumber(field)
    case Some(b) => if b <= 0 || currency == [] then Refused(InvalidBudget) else Accepted(b)
    case None => Refused(InvalidBudget)
  }

  /** The corrected check agrees with the written guard on every input that is a number. */
  lemma CheckBudgetAgreesOnNumbers(field: NumField, currency: string)
    requires !field.NotANumber?
    ensures CheckBudget(field, currency).Accepted? <==> BudgetPassesAsWritten(field, currency)
  {
  }

  /**
   * The checks of `addExpense`, in order: the form fields, then the
   * amount against the balance currently shown. The title arrives
   * trimmed, as the handler trims it when it reads the form.
   */
  function CheckExpense(title: string, amount: NumField, date: string, category: string, balance: int): (r: Outcome<Fields>)
    requires Trimmed(title)
    ensures r.Accepted? ==> WellFormedFields(r.value) && r.value.amount <= balance
    ensures r.Accepted? ==> ToNumber(amount) == Some(r.value.amount)
    ensures r.Accepted? ==> r.value == Fields(title, r.value.amount, date, category)
    ensures r == Refused(InvalidExpense) <==>
              title == [] || ToNumber(amount).None? || ToNumber(amount).value <= 0 || date == [] || category == []
    ensures r == Refused(InsufficientBalance) <==>
              r != Refused(InvalidExpense) && ToNumber(amount).value > balance
    ensures r.Accepted? || r == Refused(InvalidExpense) || r == Refused(InsufficientBalance)
  {
    match ToNumber(amount)
    case None => Refused(InvalidExpense)
    case Some(a) =>
      if title == [] || a <= 0 || date == [] || category == [] then Refused(InvalidExpense)
      else if a > balance then Refused(InsufficientBalance)
      else Accepted(Fields(title, a, date, category))
  }

  /** Filled-in fields with an amount up to the balance, the whole balance included, are accepted as they are. */
  lemma AffordableAccepted(f: Fields, balance: int)
    requires WellFormedFields(f) && f.amount <= balance
    ensures CheckExpense(f.title, Number(f.amount), f.date, f.category, balance) == Accepted(f)
    ensures balance - f.amount >= 0
  {
  }

  /** Filled-in fields with an amount above the balance are refused for the balance. */
  lemma OverBalanceRefused(title: string, amount: int, date: string, category: string, balance: int)
    requires Trimmed(title) && title != [] && amount > 0 && date != [] && category != []
    requires amount > balance
    ensures CheckExpense(title, Number(amount), date, category, balance) == Refused(InsufficientBalance)
  {
  }

  /**
   * The fields `editExpenseItem` copies back into the form pass the checks
   * again, title trimmed once more, once the record's amount has been
   * returned to the balance.
   */
  lemma EditedFieldsReaccepted(f: Fields, balance: int)
    requires WellFormedFields(f) && balance >= 0
    ensures CheckExpense(Trim(f.title), Number(f.amount), f.date, f.category, balance + f.amount) == Accepted(f)
  {
    TrimKeeps(f.title);
    AffordableAccepted(f, balance + f.amount);
  }

  predicate NoNegativeAmount(list: seq<Expense>) {
    forall k :: 0 <= k < |list| ==> list[k].amount >= 0
  }

  /** The total of the amounts, added from 0 left to right. */
  function Sum(list: seq<Expense>): (total: int)
    ensures NoNegativeAmount(list) ==> total >= 0
  {
    if list == [] then 0 else Sum(list[..|list| - 1]) + list[|list| - 1].amount
  }

  lemma {:induction false} SumConcat(a: seq<Expense>, b: seq<Expense>)
    ensures Sum(a + b) == Sum(a) + Sum(b)
    decreases |b|
  {
    if b == [] {
      assert a + b == a;
    } else {
      var c := a + b;
      assert c[..|c| - 1] == a + b[..|b| - 1];
      SumConcat(a, b[..|b| - 1]);
    }
  }

  /** Appending a record adds its amount. */
  lemma SumAppend(list: seq<Expense>, e: Expense)
    ensures Sum(list + [e]) == Sum(list) + e.amount
  {
    assert (list + [e])[..|list|] == list;
  }

  /** The list with the record at index i cut out and the later records moved down one place. */
  function RemoveAt(list: seq<Expense>, i: int): (r: seq<Expense>)
    requires 0 <= i < |list|
    ensures |r| == |list| - 1
    ensures forall k :: 0 <= k < i ==> r[k] == list[k]
    ensures forall k :: i <= k < |r| ==> r[k] == list[k + 1]
  {
    list[..i] + list[i + 1..]
  }

  /** Cutting before the last record commutes with dropping the last record. */
  lemma RemoveAtBeforeLast(list: seq<Expense>, i: int)
    requires 0 <= i < |list| - 1
    ensures RemoveAt(list, i)[..|list| - 2] == RemoveAt(list[..|list| - 1], i)
    ensures RemoveAt(list, i)[|list| - 2] == list[|list| - 1]
  {
    assert list[..|list| - 1][..i] == list[..i];
    assert list[..|list| - 1][i + 1..] == list[i + 1..|list| - 1];
    assert (list[..i] + list[i + 1..])[..|list| - 2] == list[..i] + list[i + 1..|list| - 1];
  }

  /** Cutting a record out subtracts its amount: the incremental update agrees with a recount. */
  lemma {:induction false} SumRemoveAt(list: seq<Expense>, i: int)
    requires 0 <= i < |list|
    ensures Sum(RemoveAt(list, i)) == Sum(list) - list[i].amount
    decreases |list|
  {
    var init := list[..|list| - 1];
    if i == |list| - 1 {
      assert RemoveAt(list, i) == init;
    } else {
      RemoveAtBeforeLast(list, i);
      SumRemoveAt(init, i);
    }
  }

  /** Positive amounts make a non-negative total. */
  lemma {:induction false} SumNonNegative(list: seq<Expense>)
    requires forall k :: 0 <= k < |list| ==> list[k].amount > 0
    ensures Sum(list) >= 0
    ensures list != [] ==> Sum(list) > 0
  {
    if list != [] {
      SumNonNegative(list[..|list| - 1]);
    }
  }

  /** The index of the first record with the given id, or -1 when no record has it. */
  function FindIndex(list: seq<Expense>, id: string): (r: int)
    ensures -1 <= r < |list|
    ensures r >= 0 ==> list[r].id == id
    ensures forall k :: 0 <= k < |list| && (r < 0 || k < r) ==> list[k].id != id
  {
    if list == [] then -1
    else if list[0].id == id then 0
    else
      var k := FindIndex(list[1..], id);
      if k < 0 then -1 else k + 1
  }

  /** After removing the match of an id that occurs once, the id is gone. */
  lemma RemovedIdGone(list: seq<Expense>, id: string)
    requires forall j, k :: 0 <= j < k < |list| && list[j].id == id ==> list[k].id != id
    requires FindIndex(list, id) >= 0
    ensures FindIndex(RemoveAt(list, FindIndex(list, id)), id) == -1
  {
  }
}
