/** The transformation inside the `add` command: build a record whose id is
    the current count plus one and append it. */
module AddCommand {
  import opened Expenses

  const UNCATEGORIZED: string := "Uncategorized"

  /** `argv.category || 'Uncategorized'`. */
  function CategoryOrDefault(category: Option<string>): (c: string)
    ensures c != ""
    ensures Truthy(category) ==> c == category.value
    ensures !Truthy(category) ==> c == UNCATEGORIZED
  {
    if Truthy(category) then category.value else UNCATEGORIZED
  }

  /** The collection after `expenses.push(newExpense)`. */
  function Add(xs: seq<Expense>, date: string, description: string, amount: int, category: Option<string>): (r: seq<Expense>)
    ensures |r| == |xs| + 1 && r[..|xs|] == xs
    ensures r[|xs|].id == |xs| + 1
    ensures r[|xs|].date == date && r[|xs|].description == description && r[|xs|].amount == amount
    ensures r[|xs|].category == CategoryOrDefault(category)
  {
    xs + [Expense(|xs| + 1, date, description, amount, CategoryOrDefault(category))]
  }

  /** The arguments of one `add` invocation, with the date the clock gave. */
  datatype AddArgs = AddArgs(date: string, description: string, amount: int, category: Option<string>)

  /** Successive `add` invocations, first to last, with nothing in between. */
  function AddAll(xs: seq<Expense>, args: seq<AddArgs>): seq<Expense>
    decreases |args|
  {
    if |args| == 0 then xs
    else AddAll(Add(xs, args[0].date, args[0].description, args[0].amount, args[0].category), args[1..])
  }

  /** Ids are exactly 1, 2, ..., |xs| in order. */
  predicate SequentialIds(xs: seq<Expense>) {
    forall k :: 0 <= k < |xs| ==> xs[k].id == k + 1
  }

  /** Successive adds keep every earlier record and append one record per
      invocation, the k-th of them with id |xs| + k + 1. */
  lemma {:induction false} AddAllAppends(xs: seq<Expense>, args: seq<AddArgs>)
    ensures |AddAll(xs, args)| == |xs| + |args|
    ensures AddAll(xs, args)[..|xs|] == xs
    ensures forall k :: 0 <= k < |args| ==>
      AddAll(xs, args)[|xs| + k] ==
        Expense(|xs| + k + 1, args[k].date, args[k].description, args[k].amount, CategoryOrDefault(args[k].category))
    decreases |args|
  {
    if |args| > 0 {
      var a := args[0];
      var ys := Add(xs, a.date, a.description, a.amount, a.category);
      AddAllAppends(ys, args[1..]);
      var r := AddAll(xs, args);
      assert r == AddAll(ys, args[1..]);
      assert r[..|xs|] == r[..|ys|][..|xs|];
      forall k | 0 <= k < |args|
        ensures r[|xs| + k] ==
          Expense(|xs| + k + 1, args[k].date, args[k].description, args[k].amount, CategoryOrDefault(args[k].category))
      {
        if k == 0 {
          assert r[|xs|] == r[..|ys|][|xs|];
        } else {
          assert args[1..][k - 1] == args[k];
          assert r[|xs| + k] == r[|ys| + (k - 1)];
        }
      }
    }
  }

  /** N adds on an empty collection give the ids 1..N in order. */
  lemma AddAllFromEmpty(args: seq<AddArgs>)
    ensures |AddAll([], args)| == |args|
    ensures SequentialIds(AddAll([], args))
  {
    var empty: seq<Expense> := [];
    AddAllAppends(empty, args);
    var r := AddAll(empty, args);
    forall k | 0 <= k < |args| ensures r[k].id == k + 1 {
      var a := args[k];
      assert r[|empty| + k] == Expense(|empty| + k + 1, a.date, a.description, a.amount, CategoryOrDefault(a.category));
    }
  }

  /** On an append-only history the count+1 rule keeps ids sequential. */
  lemma AddKeepsSequentialIds(xs: seq<Expense>, date: string, description: string, amount: int, category: Option<string>)
    requires SequentialIds(xs)
    ensures SequentialIds(Add(xs, date, description, amount, category))
  {
  }

  lemma SequentialIdsAreUnique(xs: seq<Expense>)
    requires SequentialIds(xs)
    ensures UniqueIds(xs)
  {
  }
}
