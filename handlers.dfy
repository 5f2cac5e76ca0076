/** The command handlers: each reads the collection and transforms it. It is
    written back after every add, after a delete that removed a record, and
    after an update that found its id, even when no field changed. The two files
    (expenses.json and expenses.csv) are modelled by their parsed contents. */
module Handlers {
  import opened Expenses
  import AddCommand
  import DeleteCommand
  import UpdateCommand
  import SummaryCommand
  import ExportCommand
  import opened Store

  class Files {
    /** The collection stored in expenses.json; None while the file does not exist. */
    var data: Option<seq<Expense>>
    /** The text of expenses.csv; None while the file does not exist. */
    var csv: Option<string>
    /** How many times writeData has replaced expenses.json. */
    var dataWrites: nat

    constructor (data: Option<seq<Expense>>, csv: Option<string>)
      ensures this.data == data && this.csv == csv && dataWrites == 0
    {
      this.data := data;
      this.csv := csv;
      dataWrites := 0;
    }

    /** What readData returns: the stored collection, or [] when there is no file. */
    function Loaded(): seq<Expense>
      reads this
    {
      if data.Some? then data.value else []
    }

    method ReadData() returns (xs: seq<Expense>)
      ensures xs == Loaded()
    {
      xs := Loaded();
    }

    method WriteData(xs: seq<Expense>)
      modifies this
      ensures data == Some(xs) && csv == old(csv) && dataWrites == old(dataWrites) + 1
    {
      data := Some(xs);
      dataWrites := dataWrites + 1;
    }

    method WriteCsv(text: string)
      modifies this
      ensures csv == Some(text) && data == old(data) && dataWrites == old(dataWrites)
    {
      csv := Some(text);
    }
  }

  /** `add`: appends the new record and always saves. */
  method AddHandler(files: Files, today: string, description: string, amount: int, category: Option<string>)
    returns (id: int)
    modifies files
    ensures id == |old(files.Loaded())| + 1
    ensures files.data == Some(AddCommand.Add(old(files.Loaded()), today, description, amount, category))
    ensures files.dataWrites == old(files.dataWrites) + 1 && files.csv == old(files.csv)
  {
    var xs := files.ReadData();
    var store := new ExpenseStore(xs);
    id := store.Add(today, description, amount, category);
    files.WriteData(store.expenses);
  }

  /** `delete`: saves the survivors only when some record had the id;
      otherwise expenses.json is left exactly as it was. */
  method DeleteHandler(files: Files, id: int) returns (deleted: bool)
    modifies files
    ensures deleted <==> HasId(old(files.Loaded()), id)
    ensures deleted ==> files.data == Some(DeleteCommand.Delete(old(files.Loaded()), id).expenses)
                        && files.dataWrites == old(files.dataWrites) + 1
    ensures !deleted ==> files.data == old(files.data) && files.dataWrites == old(files.dataWrites)
    ensures files.csv == old(files.csv)
  {
    var xs := files.ReadData();
    var outcome := DeleteCommand.Delete(xs, id);
    deleted := outcome.write;
    if deleted {
      files.WriteData(outcome.expenses);
    }
  }

  /** `update`: patches the first record with the id and saves; does nothing
      and writes nothing when there is no such record. */
  method UpdateHandler(files: Files, id: int, description: Option<string>, amount: Option<int>, category: Option<string>)
    returns (updated: bool)
    modifies files
    ensures updated <==> HasId(old(files.Loaded()), id)
    ensures updated ==>
      files.data == Some(UpdateCommand.Update(old(files.Loaded()), id, description, amount, category).expenses)
      && files.dataWrites == old(files.dataWrites) + 1
    ensures !updated ==> files.data == old(files.data) && files.dataWrites == old(files.dataWrites)
    ensures files.csv == old(files.csv)
  {
    var xs := files.ReadData();
    var store := new ExpenseStore(xs);
    updated := store.Update(id, description, amount, category);
    if !updated {
      return;
    }
    files.WriteData(store.expenses);
  }

  /** `summary`: reads only; the total is over the month's records when a
      truthy month is given, over all records otherwise. */
  method SummaryHandler(files: Files, month: Option<int>) returns (total: int)
    ensures total == SummaryCommand.Summary(files.Loaded(), month)
  {
    var xs := files.ReadData();
    total := SummaryCommand.Summary(xs, month);
  }

  /** `export`: replaces expenses.csv and leaves expenses.json alone. */
  method ExportHandler(files: Files)
    modifies files
    ensures files.csv == Some(ExportCommand.Export(old(files.Loaded())))
    ensures files.data == old(files.data) && files.dataWrites == old(files.dataWrites)
  {
    var xs := files.ReadData();
    files.WriteCsv(ExportCommand.Export(xs));
  }
}
