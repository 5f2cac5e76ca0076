/** The data model of the expense tracker: one expense record, the optional
    command-line arguments, the result of a mutating command, and the month
    of a stored date. */
module Expenses {
  import opened Text

  datatype Option<T> = None | Some(value: T)

  /** One record of expenses.json. Amounts are whole numbers here. */
  datatype Expense = Expense(id: int, date: string, description: string, amount: int, category: string)

  /** What a mutating command leaves in memory, and whether it calls writeData. */
  datatype Outcome = Outcome(expenses: seq<Expense>, write: bool)

  /** JavaScript truthiness of an optional string argument: given and not empty. */
  predicate Truthy(s: Option<string>) {
    s.Some? && s.value != ""
  }

  /** JavaScript truthiness of an optional number argument: given and not zero. */
  predicate NonZero(n: Option<int>) {
    n.Some? && n.value != 0
  }

  predicate HasId(xs: seq<Expense>, id: int) {
    exists k :: 0 <= k < |xs| && xs[k].id == id
  }

  predicate UniqueIds(xs: seq<Expense>) {
    forall i, j :: 0 <= i < j < |xs| ==> xs[i].id != xs[j].id
  }

  /** A date of the form YYYY-MM-DD, as the add command stores it. */
  predicate IsIsoDate(date: string) {
    && |date| == 10
    && IsDigit(date[0]) && IsDigit(date[1]) && IsDigit(date[2]) && IsDigit(date[3])
    && date[4] == '-'
    && IsDigit(date[5]) && IsDigit(date[6])
    && date[7] == '-'
    && IsDigit(date[8]) && IsDigit(date[9])
  }

  predicate IsLeapYear(year: int) {
    year % 4 == 0 && (year % 100 != 0 || year % 400 == 0)
  }

  /** The number of days of a month (1..12) in the proleptic Gregorian calendar. */
  function DaysInMonth(year: int, month: int): (n: int)
    requires 1 <= month <= 12
    ensures 28 <= n <= 31 && (month == 12 ==> n == 31)
  {
    if month == 2 then (if IsLeapYear(year) then 29 else 28)
    else if month == 4 || month == 6 || month == 9 || month == 11 then 30
    else 31
  }

  /** The parts of a YYYY-MM-DD text as numbers. */
  function DateYear(date: string): nat
    requires IsIsoDate(date)
  {
    1000 * DigitValue(date[0]) + 100 * DigitValue(date[1]) + 10 * DigitValue(date[2]) + DigitValue(date[3])
  }

  function DateMonth(date: string): nat
    requires IsIsoDate(date)
  {
    10 * DigitValue(date[5]) + DigitValue(date[6])
  }

  function DateDay(date: string): nat
    requires IsIsoDate(date)
  {
    10 * DigitValue(date[8]) + DigitValue(date[9])
  }

  /** `new Date(date).getMonth() + 1` as Node's V8 engine computes it in UTC.
      V8 accepts a YYYY-MM-DD text with a month 01..12 and a day 01..31 and
      otherwise gives an invalid Date (getMonth() is NaN, matching no month:
      None here). A day past the end of its month rolls into the next month,
      so 2024-02-31 is the 2nd of March; December has 31 days, so the roll
      never leaves the year. */
  function Month(date: string): (m: Option<int>)
    ensures m.Some? ==> IsIsoDate(date) && 1 <= m.value <= 12
    ensures m.Some? ==> 1 <= DateDay(date) <= 31 && 1 <= DateMonth(date) <= 12
  {
    if IsIsoDate(date) && 1 <= DateMonth(date) <= 12 && 1 <= DateDay(date) <= 31 then
      var month := DateMonth(date);
      if DateDay(date) <= DaysInMonth(DateYear(date), month) then Some(month) else Some(month + 1)
    else None
  }

  /** The date part of Date.prototype.toISOString() for a UTC calendar day. */
  function IsoDate(year: nat, month: nat, day: nat): (date: string)
    requires year < 10000 && 1 <= month <= 12 && 1 <= day <= 31
    ensures IsIsoDate(date)
  {
    var centuries := year % 1000;
    var decades := centuries % 100;
    [DigitChar(year / 1000), DigitChar(centuries / 100), DigitChar(decades / 10), DigitChar(decades % 10)]
    + "-" + [DigitChar(month / 10), DigitChar(month % 10)]
    + "-" + [DigitChar(day / 10), DigitChar(day % 10)]
  }

  lemma IsoDateYear(year: nat, month: nat, day: nat)
    requires year < 10000 && 1 <= month <= 12 && 1 <= day <= 31
    ensures DateYear(IsoDate(year, month, day)) == year
  {
    var date := IsoDate(year, month, day);
    var centuries := year % 1000;
    var decades := centuries % 100;
    assert DigitValue(date[0]) == year / 1000 && DigitValue(date[1]) == centuries / 100;
    assert DigitValue(date[2]) == decades / 10 && DigitValue(date[3]) == decades % 10;
  }

  lemma IsoDateMonthDay(year: nat, month: nat, day: nat)
    requires year < 10000 && 1 <= month <= 12 && 1 <= day <= 31
    ensures DateMonth(IsoDate(year, month, day)) == month
    ensures DateDay(IsoDate(year, month, day)) == day
  {
    var date := IsoDate(year, month, day);
    assert DigitValue(date[5]) == month / 10 && DigitValue(date[6]) == month % 10;
    assert DigitValue(date[8]) == day / 10 && DigitValue(date[9]) == day % 10;
  }

  /** The month the summary command reads back from a real calendar day is
      the month the date was made from. */
  lemma MonthOfIsoDate(year: nat, month: nat, day: nat)
    requires year < 10000 && 1 <= month <= 12 && 1 <= day <= DaysInMonth(year, month)
    ensures Month(IsoDate(year, month, day)) == Some(month)
  {
    IsoDateYear(year, month, day);
    IsoDateMonthDay(year, month, day);
  }

  /** A day past the end of its month counts towards the following month. */
  lemma MonthRollsOver(year: nat, month: nat, day: nat)
    requires year < 10000 && 1 <= month <= 12 && DaysInMonth(year, month) < day <= 31
    ensures month < 12 && Month(IsoDate(year, month, day)) == Some(month + 1)
  {
    IsoDateYear(year, month, day);
    IsoDateMonthDay(year, month, day);
  }

  /** Day 00 and days 32..99 make an invalid Date, which matches no month. */
  lemma NoMonthForImpossibleDay(date: string)
    requires IsIsoDate(date) && (DateDay(date) == 0 || DateDay(date) > 31)
    ensures Month(date) == None
  {
  }
}
