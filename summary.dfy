/** The transformation inside the `summary` command: keep the records of the
    requested month when a truthy month is given, then add up the amounts. */
module SummaryCommand {
  import opened Expenses

  /** `expenses.reduce((sum, e) => sum + e.amount, 0)`, folded from the left. */
  function Total(xs: seq<Expense>): int {
    if |xs| == 0 then 0 else Total(xs[..|xs| - 1]) + xs[|xs| - 1].amount
  }

  /** `expenses.filter(e => month(e.date) === m)`, in the original order. */
  function InMonth(xs: seq<Expense>, m: int): (r: seq<Expense>)
    ensures forall e :: e in r <==> e in xs && Month(e.date) == Some(m)
  {
    if |xs| == 0 then []
    else
      var last := xs[|xs| - 1];
      assert xs == xs[..|xs| - 1] + [last];
      InMonth(xs[..|xs| - 1], m) + (if Month(last.date) == Some(m) then [last] else [])
  }

  /** The total the summary command reports; month 0 counts as no month. */
  function Summary(xs: seq<Expense>, month: Option<int>): (total: int)
    ensures !NonZero(month) ==> total == Total(xs)
    ensures NonZero(month) && !(1 <= month.value <= 12) ==> total == 0
  {
    if NonZero(month) then
      Total(InMonth(xs, month.value))
    else Total(xs)
  }

  lemma {:induction false} TotalAppend(a: seq<Expense>, b: seq<Expense>)
    ensures Total(a + b) == Total(a) + Total(b)
    decreases |b|
  {
    if |b| > 0 {
      var last := b[|b| - 1];
      assert (a + b)[..|a + b| - 1] == a + b[..|b| - 1];
      TotalAppend(a, b[..|b| - 1]);
    } else {
      assert a + b == a;
    }
  }

  /** Summary(xs, Some(1)) + ... + Summary(xs, Some(n)). */
  function MonthsTotal(xs: seq<Expense>, n: nat): int {
    if n == 0 then 0 else MonthsTotal(xs, n - 1) + Summary(xs, Some(n))
  }

  lemma {:induction false} MonthsTotalEmpty(n: nat)
    ensures MonthsTotal([], n) == 0
  {
    if n > 0 {
      MonthsTotalEmpty(n - 1);
    }
  }

  lemma {:induction false} MonthsTotalSnoc(xs: seq<Expense>, e: Expense, n: nat)
    ensures MonthsTotal(xs + [e], n) ==
      MonthsTotal(xs, n) + (if Month(e.date).Some? && Month(e.date).value <= n then e.amount else 0)
  {
    if n > 0 {
      MonthsTotalSnoc(xs, e, n - 1);
      var ys := xs + [e];
      assert ys[..|ys| - 1] == xs;
      assert InMonth(ys, n) == InMonth(xs, n) + (if Month(e.date) == Some(n) then [e] else []);
      TotalAppend(InMonth(xs, n), if Month(e.date) == Some(n) then [e] else []);
    }
  }

  /** When every date has a month, the twelve monthly totals add up to the
      unfiltered total. */
  lemma {:induction false} MonthlyTotalsAddUp(xs: seq<Expense>)
    requires forall k :: 0 <= k < |xs| ==> Month(xs[k].date).Some?
    ensures MonthsTotal(xs, 12) == Summary(xs, None)
  {
    if |xs| == 0 {
      MonthsTotalEmpty(12);
    } else {
      var init, last := xs[..|xs| - 1], xs[|xs| - 1];
      assert xs == init + [last];
      MonthlyTotalsAddUp(init);
      MonthsTotalSnoc(init, last, 12);
    }
  }

  /** A record's amount counts towards exactly the month of its date. */
  lemma {:induction false} SummaryOfSingle(e: Expense, m: int)
    requires m != 0
    ensures Summary([e], Some(m)) == if Month(e.date) == Some(m) then e.amount else 0
  {
    var r := InMonth([e], m);
    assert [e][..0] == [];
    assert InMonth([], m) == [];
    assert r == InMonth([], m) + (if Month(e.date) == Some(m) then [e] else []);
    assert r == (if Month(e.date) == Some(m) then [e] else []);
    assert Total(r) == (if Month(e.date) == Some(m) then e.amount else 0);
  }

  /** The monthly summary of two collections laid end to end adds up. */
  lemma {:induction false} SummaryAppend(a: seq<Expense>, b: seq<Expense>, month: Option<int>)
    ensures Summary(a + b, month) == Summary(a, month) + Summary(b, month)
  {
    if NonZero(month) {
      InMonthAppend(a, b, month.value);
      TotalAppend(InMonth(a, month.value), InMonth(b, month.value));
    } else {
      TotalAppend(a, b);
    }
  }

  lemma {:induction false} InMonthAppend(a: seq<Expense>, b: seq<Expense>, m: int)
    ensures InMonth(a + b, m) == InMonth(a, m) + InMonth(b, m)
    decreases |b|
  {
    if |b| > 0 {
      var last := b[|b| - 1];
      assert (a + b)[..|a + b| - 1] == a + b[..|b| - 1];
      InMonthAppend(a, b[..|b| - 1], m);
    } else {
      assert a + b == a;
    }
  }
}
