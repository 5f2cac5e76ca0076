/** The in-memory expense array a handler gets from readData, and the two
    commands that change it in place: `push` in add, the field assignments
    on the found record in update. */
module Store {
  import opened Expenses
  import AddCommand
  import UpdateCommand

  class ExpenseStore {
    var expenses: seq<Expense>

    constructor (loaded: seq<Expense>)
      ensures expenses == loaded
    {
      expenses := loaded;
    }

    /** Builds the new record and pushes it; returns its id. */
    method Add(date: string, description: string, amount: int, category: Option<string>) returns (id: int)
      modifies this
      ensures id == |old(expenses)| + 1
      ensures expenses == old(expenses) + [Expense(id, date, description, amount, AddCommand.CategoryOrDefault(category))]
      ensures expenses == AddCommand.Add(old(expenses), date, description, amount, category)
    {
      var newExpense := Expense(|expenses| + 1, date, description, amount, AddCommand.CategoryOrDefault(category));
      expenses := expenses + [newExpense];
      id := newExpense.id;
    }

    /** Finds the first record with the id and overwrites its truthy fields;
        returns whether a record was found, which is when the handler saves. */
    method Update(id: int, description: Option<string>, amount: Option<int>, category: Option<string>)
      returns (found: bool)
      modifies this
      ensures found <==> HasId(old(expenses), id)
      ensures !found ==> expenses == old(expenses)
      ensures |expenses| == |old(expenses)|
      ensures forall k :: 0 <= k < |expenses| && !UpdateCommand.IsFirstMatch(old(expenses), id, k) ==>
        expenses[k] == old(expenses)[k]
      ensures expenses == UpdateCommand.Update(old(expenses), id, description, amount, category).expenses
    {
      var index := UpdateCommand.FindIndex(expenses, id);
      if index.None? {
        return false;
      }
      var i := index.value;
      var expense := expenses[i];
      if Truthy(description) {
        expense := expense.(description := description.value);
      }
      if NonZero(amount) {
        expense := expense.(amount := amount.value);
      }
      if Truthy(category) {
        expense := expense.(category := category.value);
      }
      expenses := expenses[i := expense];
      found := true;
    }
  }
}
