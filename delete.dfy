/** The transformation inside the `delete` command:
    `expenses.filter(e => e.id !== argv.id)`, written back only when the
    length changed. */
module DeleteCommand {
  import opened Expenses
  import AddCommand

  /** The records whose id is not `id`, in their original order. */
  function Without(xs: seq<Expense>, id: int): (r: seq<Expense>)
    ensures |r| <= |xs|
    ensures forall e :: e in r <==> e in xs && e.id != id
    ensures !HasId(xs, id) ==> r == xs
    ensures HasId(xs, id) ==> |r| < |xs|
  {
    if |xs| == 0 then []
    else if xs[0].id == id then Without(xs[1..], id)
    else
      var rest := Without(xs[1..], id);
      assert HasId(xs[1..], id) ==> HasId(xs, id);
      assert HasId(xs, id) ==> HasId(xs[1..], id) by {
        if HasId(xs, id) {
          var k :| 0 <= k < |xs| && xs[k].id == id;
          assert xs[1..][k - 1].id == id;
        }
      }
      [xs[0]] + rest
  }

  /** The delete handler's result: the survivors, and whether the length
      changed, which is when writeData runs. */
  function Delete(xs: seq<Expense>, id: int): (r: Outcome)
    ensures r.write <==> HasId(xs, id)
    ensures !r.write ==> r.expenses == xs
    ensures !HasId(r.expenses, id)
    ensures forall e :: e in r.expenses <==> e in xs && e.id != id
  {
    var rest := Without(xs, id);
    Outcome(rest, |rest| != |xs|)
  }

  /** Filtering keeps relative order: it distributes over concatenation. */
  lemma {:induction false} WithoutAppend(a: seq<Expense>, b: seq<Expense>, id: int)
    ensures Without(a + b, id) == Without(a, id) + Without(b, id)
  {
    if |a| > 0 {
      assert (a + b)[1..] == a[1..] + b;
      WithoutAppend(a[1..], b, id);
    } else {
      assert a + b == b;
    }
  }

  /** A single record survives exactly when its id differs. */
  lemma WithoutSingle(e: Expense, id: int)
    ensures Without([e], id) == if e.id == id then [] else [e]
  {
  }

  /** Deleting the same id twice is deleting it once, and the second delete
      does not write. */
  lemma DeleteIdempotent(xs: seq<Expense>, id: int)
    ensures Delete(Delete(xs, id).expenses, id) == Outcome(Delete(xs, id).expenses, false)
  {
  }

  /** Deletes of two ids may be done in either order. */
  lemma {:induction false} DeleteCommutes(xs: seq<Expense>, a: int, b: int)
    ensures Without(Without(xs, a), b) == Without(Without(xs, b), a)
  {
    if |xs| > 0 {
      var e := xs[0];
      assert xs == [e] + xs[1..];
      WithoutAppend([e], xs[1..], a);
      WithoutAppend([e], xs[1..], b);
      WithoutAppend(Without([e], a), Without(xs[1..], a), b);
      WithoutAppend(Without([e], b), Without(xs[1..], b), a);
      DeleteCommutes(xs[1..], a, b);
    }
  }

  /** With unique ids at most one record carries the deleted id. */
  lemma {:induction false} WithoutRemovesAtMostOne(xs: seq<Expense>, id: int)
    requires UniqueIds(xs)
    ensures |Without(xs, id)| >= |xs| - 1
  {
    if |xs| > 0 {
      var tail := xs[1..];
      assert UniqueIds(tail) by {
        forall i, j | 0 <= i < j < |tail| ensures tail[i].id != tail[j].id {
          assert tail[i] == xs[i + 1] && tail[j] == xs[j + 1];
        }
      }
      if xs[0].id == id {
        assert !HasId(tail, id) by {
          forall k | 0 <= k < |tail| ensures tail[k].id != id {
            assert tail[k] == xs[k + 1];
          }
        }
      } else {
        WithoutRemovesAtMostOne(tail, id);
      }
    }
  }

  /** The count+1 id rule is not durable: on ids 1..n, deleting any id but
      the last makes the next add hand out n, which is still in use. */
  lemma DeleteThenAddReusesId(xs: seq<Expense>, d: int, date: string, description: string, amount: int, category: Option<string>)
    requires AddCommand.SequentialIds(xs) && 1 <= d < |xs|
    ensures UniqueIds(xs)
    ensures !UniqueIds(AddCommand.Add(Delete(xs, d).expenses, date, description, amount, category))
  {
    AddCommand.SequentialIdsAreUnique(xs);
    WithoutRemovesAtMostOne(xs, d);
    assert xs[d - 1].id == d;
    var rest := Delete(xs, d).expenses;
    var last := xs[|xs| - 1];
    assert last in rest;
    var k :| 0 <= k < |rest| && rest[k] == last;
    var ys := AddCommand.Add(rest, date, description, amount, category);
    assert ys[k].id == ys[|rest|].id;
  }
}
