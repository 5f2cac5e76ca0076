# Expense tracker: a Dafny model of the command handlers

This project models the command-line expense tracker in `expense-tracker.js`. Every command
reads the whole collection of expense records from `expenses.json` and transforms it in memory. It
writes it back after every add, after a delete that removed a record, and after an update that
found its id, even when no field changed. The model covers what happens in between for five
commands, and the load-and-save shape around them:

- **add** builds a record whose id is the current number of records plus one. Its category falls
  back to `"Uncategorized"` when the argument is missing or empty. The record goes at the end.
- **delete** filters out every record with the given id and saves only when the length changed.
- **update** finds the first record with the id. It overwrites its description, amount and category
  only where the new value is truthy (a non-empty string, a non-zero number). It saves only when a
  record was found.
- **summary** keeps the records of a month when a truthy month is given, then adds up the amounts.
- **export** writes a header line and one comma-joined line per record, joined with `'\n'` and
  with no trailing newline.

Layout, one module per file:

- `text.dfy` (`Text`): decimal rendering of integers, and joining and splitting on a character.
- `expenses.dfy` (`Expenses`): the `Expense` record, optional arguments (`Option`), JavaScript
  truthiness, the `Outcome` of a mutating command (new collection plus "write?" flag), and the
  month of a stored `YYYY-MM-DD` date.
- `add.dfy`, `delete.dfy`, `update.dfy`, `summary.dfy`, `export.dfy`: one module per command's
  transformation. Each holds pure functions and the lemmas about them.
- `store.dfy` (`Store`): class `ExpenseStore`, the in-memory array that readData returns. `Add`
  pushes onto it and `Update` assigns fields of the found record, as the handlers do in place.
- `handlers.dfy` (`Handlers`): class `Files` holds the contents of `expenses.json` and
  `expenses.csv` and counts the writes to `expenses.json`. There is one method per handler:
  read, transform, optional write.

The code checks fewer things than a user might expect, and the model follows the code:

- The `month` option is described as "Month for the summary (1-12)" (expense-tracker.js:90), but no
  range is checked. Month 0 is falsy and counts as no month, so the total covers every record. A
  non-zero month outside 1..12 matches no record, so the total is 0 (`SummaryCommand.Summary`).
- Ids are not kept unique once a record has been deleted: the count+1 rule can hand out an id that is
  still in use (`DeleteCommand.DeleteThenAddReusesId`).

## Model

| member | source | states |
|---|---|---|
| `Text.IntToString` | expense-tracker.js:161 | an id or amount renders as digits, optionally after one '-', so it never contains ',' or '\n' |
| `Text.ParseIntToString` | expense-tracker.js:161 | the rendering of a number in the CSV can be read back as that same number |
| `Text.IntToStringCanonical` | expense-tracker.js:161 | the rendering is canonical: a '-' exactly for negative numbers, no leading zero, and zero as "0" |
| `Text.SplitJoin` | expense-tracker.js:157-163 | splitting a `join` on its separator gives back the parts when no part contains the separator |
| `Text.Join` | expense-tracker.js:163 | `Array.prototype.join`: the parts with the separator between them, "" for no parts; its meaning is pinned down by `Text.SplitJoin` |
| `Expenses.Truthy` | expense-tracker.js:144-146 | a string argument is truthy when it is given and not empty; `AddCommand.CategoryOrDefault` and `UpdateCommand.Patch` state what it decides |
| `Expenses.NonZero` | expense-tracker.js:97 | a number argument is truthy when it is given and not zero; `SummaryCommand.Summary` and `UpdateCommand.Patch` state what it decides |
| `Expenses.Month` | expense-tracker.js:100 | a month is found only for a YYYY-MM-DD date with month 01..12 and day 01..31, and it lies in 1..12 |
| `Expenses.IsoDate` | expense-tracker.js:42 | the date part of toISOString() is a well-formed YYYY-MM-DD date |
| `Expenses.MonthOfIsoDate` | expense-tracker.js:100 | the month read back from a real calendar day, as add stores it, is the month it was made from |
| `Expenses.MonthRollsOver` | expense-tracker.js:100 | a day past the end of its month (such as 2024-02-31) counts towards the following month |
| `Expenses.NoMonthForImpossibleDay` | expense-tracker.js:100 | day 00 or a day from 32 to 99 makes an invalid Date, which matches no month |
| `AddCommand.CategoryOrDefault` | expense-tracker.js:45 | the category is the argument when it is given and non-empty, else "Uncategorized"; it is never empty |
| `AddCommand.Add` | expense-tracker.js:40-47 | exactly one record is appended; earlier records are unchanged; its id is the old length + 1; its fields are the arguments |
| `AddCommand.AddAllAppends` | expense-tracker.js:39-47 | successive adds keep the earlier records and append one record per call, the k-th with id old length + k + 1 |
| `AddCommand.AddAllFromEmpty` | expense-tracker.js:41 | N adds on an empty collection yield ids 1..N in order |
| `AddCommand.AddKeepsSequentialIds` | expense-tracker.js:41 | with no deletes, add keeps the ids equal to 1..n |
| `AddCommand.SequentialIdsAreUnique` | expense-tracker.js:41 | ids 1..n in order are pairwise distinct |
| `DeleteCommand.Without` | expense-tracker.js:75 | the survivors are exactly the records with another id; it is shorter iff some record had the id, and the same sequence otherwise |
| `DeleteCommand.Delete` | expense-tracker.js:73-81 | the write flag holds iff some record had the id; without a match the collection is unchanged; afterwards no record has the id |
| `DeleteCommand.WithoutAppend` | expense-tracker.js:75 | the filter distributes over concatenation, so the survivors keep their relative order |
| `DeleteCommand.WithoutSingle` | expense-tracker.js:75 | one record survives exactly when its id differs from the target |
| `DeleteCommand.DeleteIdempotent` | expense-tracker.js:75-76 | deleting an id twice equals deleting it once, and the second delete writes nothing |
| `DeleteCommand.DeleteCommutes` | expense-tracker.js:75 | deletes of two ids give the same collection in either order |
| `DeleteCommand.DeleteThenAddReusesId` | expense-tracker.js:41 | on ids 1..n, deleting any id but the last and then adding gives the new record the id n, still in use, so ids stop being unique |
| `DeleteCommand.WithoutRemovesAtMostOne` | expense-tracker.js:75 | with unique ids the filter removes at most one record |
| `UpdateCommand.FindIndex` | expense-tracker.js:139 | `find` yields the first index with the id; no index exactly when no record has it |
| `UpdateCommand.Patch` | expense-tracker.js:144-146 | id and date are kept; each of description, amount and category is replaced only by a truthy value |
| `UpdateCommand.Update` | expense-tracker.js:138-147 | writes iff some record had the id; length preserved; only the first record with the id is patched, every other index is unchanged |
| `UpdateCommand.UpdateMissIsNoOp` | expense-tracker.js:139-143 | an id with no match leaves the collection unchanged and writes nothing |
| `UpdateCommand.UpdateKeepsIdsAndDates` | expense-tracker.js:144-146 | no update changes any id or date, so unique ids stay unique |
| `UpdateCommand.UpdateWithoutFieldsIsIdentity` | expense-tracker.js:144-147 | with no truthy field (amount 0 included) nothing changes, yet a found id is still saved |
| `UpdateCommand.UpdateSkipsLaterDuplicates` | expense-tracker.js:139 | a later record sharing the id is left untouched |
| `SummaryCommand.InMonth` | expense-tracker.js:98-101 | keeps exactly the records whose date's month equals the argument |
| `SummaryCommand.Summary` | expense-tracker.js:97-103 | no month or month 0 sums every amount; a non-zero month outside 1..12 gives 0 |
| `SummaryCommand.Total` | expense-tracker.js:103 | the `reduce` sum of the amounts from 0; `SummaryCommand.TotalAppend` states how it adds up |
| `SummaryCommand.TotalAppend` | expense-tracker.js:103 | the sum over two collections laid end to end is the sum of their sums |
| `SummaryCommand.InMonthAppend` | expense-tracker.js:98-101 | the month filter distributes over concatenation |
| `SummaryCommand.SummaryAppend` | expense-tracker.js:97-103 | the summary of two collections laid end to end is the sum of their summaries, for any month argument |
| `SummaryCommand.SummaryOfSingle` | expense-tracker.js:98-103 | a record's amount counts towards its own month and no other |
| `SummaryCommand.MonthlyTotalsAddUp` | expense-tracker.js:97-103 | when every date has a month, the totals for months 1..12 add up to the unfiltered total |
| `ExportCommand.Lines` | expense-tracker.js:157-162 | there is one line more than there are records: the fixed header first, then line k + 1 is record k's row |
| `ExportCommand.Row` | expense-tracker.js:161 | one record's CSV line; `ExportCommand.RowIsTemplate` shows it is the template literal, `ExportCommand.RowFields` that its fields read back |
| `ExportCommand.Export` | expense-tracker.js:157-163 | the text written to expenses.csv; `ExportCommand.ExportLines` states its lines |
| `ExportCommand.RowIsTemplate` | expense-tracker.js:161 | a row is id, date, description, amount and category joined by ',' in that order |
| `ExportCommand.ExportLines` | expense-tracker.js:157-163 | with no line break in a field, splitting the export on '\n' gives exactly the header and one row per record, with no trailing empty line |
| `ExportCommand.RowFields` | expense-tracker.js:161 | with no comma in a text field, splitting a row on ',' gives back the five fields, and the id and amount read back as numbers |
| `ExportCommand.CommaInDescriptionShiftsColumns` | expense-tracker.js:161 | fields are not quoted: a comma in the description yields six columns and shifts amount and category right |
| `Store.ExpenseStore.constructor` | expense-tracker.js:39 | the in-memory array is the loaded collection |
| `Store.ExpenseStore.Add` | expense-tracker.js:40-47 | pushes the one new record with id old length + 1 and returns that id |
| `Store.ExpenseStore.Update` | expense-tracker.js:139-146 | reports whether a record was found; assigns the truthy fields of the first match only; other records and the length stay |
| `Handlers.Files.ReadData` | expense-tracker.js:7-12 | returns the stored collection, or the empty collection when expenses.json does not exist |
| `Handlers.Files.WriteData` | expense-tracker.js:14-16 | replaces the whole stored collection and counts one write |
| `Handlers.Files.WriteCsv` | expense-tracker.js:165 | replaces expenses.csv and leaves expenses.json alone |
| `Handlers.AddHandler` | expense-tracker.js:38-50 | stores the collection with the new record appended, writes exactly once, and returns the new id |
| `Handlers.DeleteHandler` | expense-tracker.js:72-82 | reports a deletion iff some record had the id; only then stores the survivors; otherwise expenses.json and the write count are untouched |
| `Handlers.UpdateHandler` | expense-tracker.js:137-149 | reports success iff some record had the id; only then stores the patched collection; otherwise nothing is written |
| `Handlers.SummaryHandler` | expense-tracker.js:95-109 | returns the summary of the stored collection and changes nothing |
| `Handlers.ExportHandler` | expense-tracker.js:155-167 | sets expenses.csv to the export of the stored collection and does not write expenses.json |

## Left out

- File I/O (`fs.existsSync`, `readFileSync`, `writeFileSync`, the fixed paths): `Files` holds the parsed contents of the two files instead. A missing expenses.json is `None` and reads as the empty collection.
- JSON parsing and serialisation: library code whose text is not part of this model. The model assumes
  that what writeData stores is what the next readData returns. A file that does not parse is not modelled.
- Command-line parsing by yargs and its required-option checks: required arguments are assumed present and of the right type. Optional ones are `Option` values.
- The `list` command: it only prints the collection with `console.table`.
- Console output: the found / not-found outcome of delete and update is the returned `bool`.
- The clock: `new Date().toISOString()` becomes the `today` argument of the add handler. `Expenses.IsoDate` shows the shape of that string.
- Floating-point amounts and their summation: amounts are integers.
- Text.IntToString: a decimal, integer-only stand-in for JavaScript's number-to-string conversion in the CSV template. It does not model fractional amounts or exponent notation.
- Expenses.Month: follows how Node's V8 engine reads a `YYYY-MM-DD` date in UTC. It does not model the time-zone shift of `new Date(date).getMonth()`. The date parses as UTC midnight, but the month is read in local time, so in zones west of UTC the first day of a month counts towards the previous month. It also does not model the other date formats `Date` accepts.
- Object identity: `find` returns a reference into the array, and the handler assigns through it. The model replaces the element at the found index. Nothing else inside the handler holds a reference to it, so the two cannot be told apart.
