/** The transformation inside the `update` command: find the first record with
    the id and overwrite each field whose new value is truthy. */
module UpdateCommand {
  import opened Expenses

  /** `expenses.find(e => e.id === argv.id)`, as the index of the first match. */
  function FindIndex(xs: seq<Expense>, id: int): (r: Option<nat>)
    ensures r.Some? ==> r.value < |xs| && xs[r.value].id == id
    ensures r.Some? ==> forall k :: 0 <= k < r.value ==> xs[k].id != id
    ensures r.None? <==> !HasId(xs, id)
  {
    if |xs| == 0 then None
    else if xs[0].id == id then Some(0)
    else
      match FindIndex(xs[1..], id)
      case None =>
        assert forall k :: 1 <= k < |xs| ==> xs[k] == xs[1..][k - 1];
        None
      case Some(i) => Some(i + 1)
  }

  /** The record after the three guarded assignments of the handler. */
  function Patch(e: Expense, description: Option<string>, amount: Option<int>, category: Option<string>): (p: Expense)
    ensures p.id == e.id && p.date == e.date
    ensures p.description == if Truthy(description) then description.value else e.description
    ensures p.amount == if NonZero(amount) then amount.value else e.amount
    ensures p.category == if Truthy(category) then category.value else e.category
  {
    var e1 := if Truthy(description) then e.(description := description.value) else e;
    var e2 := if NonZero(amount) then e1.(amount := amount.value) else e1;
    if Truthy(category) then e2.(category := category.value) else e2
  }

  /** The position of the first record with the given id. */
  predicate IsFirstMatch(xs: seq<Expense>, id: int, k: int)
    requires 0 <= k < |xs|
  {
    xs[k].id == id && forall j :: 0 <= j < k ==> xs[j].id != id
  }

  /** The update handler's result: the first matching record patched, every
      other record as it was, and a write exactly when a record matched. */
  function Update(xs: seq<Expense>, id: int, description: Option<string>, amount: Option<int>, category: Option<string>): (r: Outcome)
    ensures r.write <==> HasId(xs, id)
    ensures |r.expenses| == |xs|
    ensures forall k :: 0 <= k < |xs| ==>
      r.expenses[k] == if IsFirstMatch(xs, id, k) then Patch(xs[k], description, amount, category) else xs[k]
  {
    match FindIndex(xs, id)
    case None => Outcome(xs, false)
    case Some(i) => Outcome(xs[i := Patch(xs[i], description, amount, category)], true)
  }

  /** No match: nothing changes and nothing is written. */
  lemma UpdateMissIsNoOp(xs: seq<Expense>, id: int, description: Option<string>, amount: Option<int>, category: Option<string>)
    requires !HasId(xs, id)
    ensures Update(xs, id, description, amount, category) == Outcome(xs, false)
  {
  }

  /** Ids and dates survive every update, so id uniqueness does too. */
  lemma UpdateKeepsIdsAndDates(xs: seq<Expense>, id: int, description: Option<string>, amount: Option<int>, category: Option<string>)
    ensures var ys := Update(xs, id, description, amount, category).expenses;
      forall k :: 0 <= k < |xs| ==> ys[k].id == xs[k].id && ys[k].date == xs[k].date
    ensures UniqueIds(xs) ==> UniqueIds(Update(xs, id, description, amount, category).expenses)
  {
  }

  /** With no truthy field the collection is unchanged, yet the handler still
      writes when the id exists. */
  lemma UpdateWithoutFieldsIsIdentity(xs: seq<Expense>, id: int, description: Option<string>, amount: Option<int>, category: Option<string>)
    requires !Truthy(description) && !NonZero(amount) && !Truthy(category)
    ensures Update(xs, id, description, amount, category) == Outcome(xs, HasId(xs, id))
  {
  }

  /** A later record that shares the id is never touched. */
  lemma UpdateSkipsLaterDuplicates(xs: seq<Expense>, id: int, description: Option<string>, amount: Option<int>, category: Option<string>, i: int, k: int)
    requires 0 <= i < k < |xs| && xs[i].id == id && xs[k].id == id
    ensures Update(xs, id, description, amount, category).expenses[k] == xs[k]
  {
  }
}
