# Work log and shift reports, modelled in Dafny

The application is a one-page work log for a production line. An operator
scans a barcode, or fills in a form. Each registration becomes a work entry
(`trabajo`) with a barcode, date, time, shift (`T1` or `T2`) and the
counters `t1`, `t2` and `total`. The entry is stored. Daily, weekly,
monthly and annual reports later group the stored entries by barcode. Each
row counts the entries of its barcode per shift and in all, and a TOTAL
row adds the rows up. A report can be downloaded as CSV text.

This model covers the core of `app.js`:

- `Records`: the work entry.
- `Shifts`: the rule that presets the shift from the hour of the clock.
- `Registration`: building an entry from a scan or from the manual form,
  with the checks that reject an incomplete entry. This includes the
  white space that `trim()` removes.
- `Store`: the key-value fallback store, as a class whose field holds the
  stored array. `Save` appends a record stamped with a clock-supplied id,
  `List` returns the array and `Delete` filters out an id.
- `Weeks`: the week-number formula.
- `Periods`: the four period selections.
- `Aggregation`: the aggregator `mostrarReporte`. It is a method with the
  source's two passes: grouping into a map keyed by barcode, then emitting
  the rows and summing the TOTAL row. It is proved against a specification
  of the rows (`Describes`), and the report's properties are proved about
  that specification.
- `Reports`: the four report commands.
- `Csv`: the CSV text.
- `Sequences`: an order-preserving `filter` shared by the selections, the
  per-code lists and deletion.

Where the code and its surrounding description disagree, the model follows
the code:

- The comment at `app.js:230-231` puts the shift change at noon. The code
  at `app.js:238-246` changes at 14:00, and so does `Shifts.ShiftForHour`.
- The week number is described as an ISO week. The formula at
  `app.js:284-288` numbers Sunday-to-Saturday weeks and always puts
  1 January in week 1. 31 December can fall in week 53, or in week 54 in a
  leap year that starts on a Saturday (`Weeks.YearBoundaries`). The formula
  itself never assigns an early-January date to the previous year. That
  can only happen through the time-zone shift of date parsing, which is a
  parameter here. These notes count whole days. In the source the day
  difference can have a fraction: east of UTC a parsed date lands some
  hours after local midnight. With a positive fraction the week changes on
  Saturday instead of Sunday, and a 1 January that falls on a Saturday is
  in week 2.
- Report rows are described as coming in first-seen order. The code
  enumerates them with `Object.values`, which lists the keys that are
  canonical array indices first, in ascending order: decimal numbers with no
  leading zero below 2^32 − 1, such as "4711". Other barcodes, including
  12- and 13-digit product codes or "0123", keep first-seen order. The
  contracts therefore leave the row order open, and prove that the totals
  and the set of rows do not depend on it.

## Model

| member | source | states |
|---|---|---|
| Shifts.ShiftForHour | app.js:237-246 | hours 0-13 give T1, hours 14-23 give T2, any other hour gives no shift; each as an if-and-only-if |
| Shifts.ShiftPartitionsDay | app.js:237-246 | every hour of the day has exactly one shift, and the day is split once: no T1 hour comes after a T2 hour |
| Shifts.ShiftBoundaries | app.js:238-246 | 0 and 13 are T1; 14 and 23 are T2 |
| Registration.Trim | app.js:296 | the trimmed barcode is empty exactly when the input is all white space, and otherwise starts and ends with a non-space |
| Registration.TrimCutsEnds | app.js:296 | the trimmed barcode is a slice of the input with only white space before and after it: trimming removes white space at either end and nothing else |
| Registration.Scan | app.js:296-346 | a scan is rejected exactly when the trimmed barcode or the shift is empty; otherwise the entry holds the trimmed barcode, the clock's date and time, a counter of 1 for the selected shift (T1 tested first), 0 for the other, and their sum as total |
| Registration.ScanCountsOnce | app.js:329-346 | an accepted scan under T1 or T2 has total 1, and it counts in T1 exactly when the shift is T1, in T2 exactly when the shift is T2 |
| Registration.ScanAtHour | app.js:238-246 | with the shift preset at hour `hour`, a scan of a non-blank barcode is accepted, has total 1, and counts in T1 when `hour` < 14 and in T2 otherwise |
| Registration.Manual | app.js:375-396 | the form is rejected exactly when the trimmed barcode, date, time or shift is empty; otherwise the entry carries the form's counters unchanged and their sum |
| Store.Without | app.js:97-101 | a delete keeps, in order, every record whose id differs, each as often as before, and nothing else |
| Store.DeleteAbsentIsNoOp | app.js:97-101 | deleting an id that no record has changes nothing |
| Store.SaveThenDelete | app.js:84-101 | deleting the id a save assigned restores the array from before the save |
| Store.SaveKeepsIdsIncreasing | app.js:84-91 | when the clock reading is later than every stored id, a save keeps ids increasing along the array, so ids stay unique |
| Store.DeleteKeepsIdsIncreasing | app.js:97-101 | a delete keeps ids increasing |
| Store.DeleteRemovesAtMostOne | app.js:97-101 | with increasing ids, a delete removes at most one record |
| Store.FallbackStore.constructor | app.js:93-95 | the store starts from the decoded stored array |
| Store.FallbackStore.Save | app.js:84-91 | when storage works, the record, stamped with id `now` and the save time, is appended, everything before it is unchanged, and the id returned is `now`; when reading or writing storage fails, the call fails and the stored array is unchanged |
| Store.FallbackStore.List | app.js:93-95 | returns the stored array as it is |
| Store.FallbackStore.Delete | app.js:97-101 | when storage works, the new array is the old one without the records of that id; when storage fails, the call fails and the array is unchanged |
| Weeks.WeekNumber | app.js:284-288 | the week number is the ceiling of (days since 1 January + weekday of 1 January + 1) / 7, stated by its two bounds |
| Weeks.NewYearIsWeekOne | app.js:284-288 | 1 January is in week 1 whatever its weekday |
| Weeks.WeekNumberMonotone | app.js:284-288 | a later day of the year never has a smaller week number |
| Weeks.NextDay | app.js:284-288 | from one day to the next, the week number goes up by one exactly when the new day is a Sunday, and otherwise stays the same |
| Weeks.WeekNumberRange | app.js:284-288 | within a year, week numbers run from 1 to 54 |
| Weeks.YearBoundaries | app.js:284-288 | 1 January 2024 is week 1, 31 December 2024 is week 53, 1 January 2025 is week 1, 31 December 2028 is week 54 |
| Sequences.Filter | app.js:99 | the selection keeps exactly the accepted elements, each as often as in the input, never more elements than the input |
| Periods.Select | app.js:524-572 | a report's records are the stored records of the period (same date; date prefix for month and year; same calendar year and week number for a week), in stored order and with their multiplicity |
| Periods.DayWithinMonth | app.js:542-572 | every record of a day's report is in the report of its month |
| Reports.GenerateReport | app.js:515-588 | nothing is produced exactly when the period field is empty; otherwise the report describes the period's records, and it is "no data" exactly when no stored record is in the period |
| Aggregation.OfCodeIsFilter | app.js:592-602 | a row's list is the records with its barcode, in stored order |
| Aggregation.GroupForSnoc | app.js:592-609 | one more record changes only the row of its own barcode: the record is appended, its shift's counter (T1 tested first) and the total go up by one |
| Aggregation.RecordsMatchTotal | app.js:602-609 | a row's list is as long as its total |
| Aggregation.ShiftsWithinTotal | app.js:603-609 | the T1 and T2 counts never add up to more than the total, and equal it exactly when every counted record's shift is T1 or T2 |
| Aggregation.SumIsCount | app.js:612-618 | summing a column over distinct, correct rows, in any order, counts the records of those rows' barcodes |
| Aggregation.ReportTotals | app.js:612-651 | the TOTAL row's record count and total equal the number of selected records; its T1 and T2 equal the numbers of T1 and T2 records |
| Aggregation.RowsCountTheirCode | app.js:590-610 | every row lists exactly its barcode's records in stored order; its total is their number, which is positive; its T1 and T2 add up to at most the total, and to exactly the total iff all those records are T1 or T2 |
| Aggregation.RowIsGroupFor | app.js:590-610 | every row of a report is the correct row of a selected barcode |
| Aggregation.GroupForCounts | app.js:590-610 | the row of a barcode that some record carries: its list is that barcode's records, its total is positive, and its shift counts are bounded by the total |
| Aggregation.EveryCodeHasRow | app.js:590-610 | every selected barcode has its correct row in the report |
| Aggregation.OneRowPerCode | app.js:590-646 | a report has exactly as many rows as the selection has distinct barcodes |
| Aggregation.ReportDetermined | app.js:612-646 | two reports of the same records agree on "no data", on the TOTAL row and on the set of rows; only their order may differ |
| Aggregation.CountersIgnored | app.js:603-609 | the report counts records, not the `t1`, `t2` and `total` fields: records that agree on barcode and shift give the same counts |
| Aggregation.RowOfThree | app.js:590-610 | three records of barcode A under T1, T1 and T2 have as their correct row: A with 3 records, T1 2, T2 1, total 3 |
| Aggregation.ThreeScansOfOneCode | app.js:581-651 | the report of those three records is that single row, with TOTAL 3, T1 2, T2 1 |
| Aggregation.GroupingStep | app.js:592-609 | one grouping step keeps the map holding exactly the correct row of every barcode seen so far |
| Aggregation.BuildReport | app.js:581-618 | no data for no records; otherwise one correct row per distinct barcode and a TOTAL row that sums the rows and equals the record and shift counts of the selection |
| Aggregation.GroupByCode | app.js:590-610 | the first pass leaves a map from each barcode of the records to its correct row, and a list of the map's keys without repeats |
| Aggregation.EmitRows | app.js:612-651 | the second pass emits the row of each key in turn and a TOTAL row holding the sums of the rows' columns |
| Aggregation.RowsInKeyOrder | app.js:614-646 | emitting the row of every key once gives exactly one correct row per barcode |
| Aggregation.GroupAsWritten | app.js:591-602 | the grouping as written fails exactly when some barcode is the name of an inherited object member; otherwise it builds the correct rows |
| Aggregation.InheritedNameBreaksReport | app.js:593-602 | a single record with barcode "toString" makes the grouping as written fail, while the intended report has one row for it with total 1 |
| Csv.Decimal | app.js:689 | a count is printed as a non-empty string of digits without a leading zero |
| Csv.DecimalRoundTrip | app.js:689 | reading a printed count back gives the count |
| Csv.FieldsOfJoin | app.js:689 | splitting a comma-joined line gives the fields back when no field holds a comma |
| Csv.CsvLines | app.js:684-690 | the CSV text cut at line breaks is the title, an empty line, the header "Código de Barras,Registros,T1,T2,Total", one line per row in row order, and an empty piece after the final line break, when the title and the barcodes have no line break |
| Csv.RowRoundTrip | app.js:689 | a row line whose barcode holds no comma splits into five fields: the barcode, then the record count, T1, T2 and total, each read back exactly |

## Left out

- The structured on-device database (the primary store) and the choice between it and the fallback store are not modelled. Only the fallback store's array semantics is.
- The storage text itself, JSON encoding and decoding, and the DOM: the store's array is a field, and the form values are parameters. Whether a read or write of storage fails is the `storageOk` argument of `Save` and `Delete`; the model does not say when storage fails.
- Store.FallbackStore.List: a stored text that does not decode makes the source's read throw; the model's `List` always returns the array.
- The clock: `Date.now()` (the id), the ISO save time and the scan's date and time are parameters.
- Date parsing and time zones: the weekly report takes a `calendar` function from a stored date text to its year, day of the year and the weekday of 1 January. An unparseable date gives no match, just as NaN does.
- The parsing of the weekly field "YYYY-Www" into year and week, and the check that it is non-empty: `Periods.Period.Weekly` holds the parsed numbers and is never missing.
- `parseInt(...) || 0` on the form's counters: `Registration.Manual` takes the integers already read.
- The on-screen counters a scan increments, the confirmation messages, focus handling and the remembered shift selection.
- A record's shift is not tied to its scan time, in the source or in the model. The selector is preset from the clock only when the page loads (app.js:129) and on returning to the registration section (app.js:194); a scan reads the selector as it stands (app.js:297) and refreshes only the date and time (app.js:322-323). A page preset at 13:50 and a scan at 14:05 therefore store T1. `Registration.Scan` takes the shift as a parameter, and `Registration.ScanAtHour` speaks of the preset hour, not of the scan's time.
- The listing and "last five" views, report titles, localized date captions and the printing button.
- The download itself (data URL, anchor element, file name): `Csv.CsvText` models only the text.
- Csv.CsvLines: stated only for a title and barcodes without line breaks; the source writes such text unchanged, which adds lines.
- Csv.RowRoundTrip: a barcode containing a comma is not quoted by the source, so the round trip is stated only for barcodes without commas.
- Aggregation.BuildReport: the order of the rows is left open, because `Object.values` lists barcodes that are canonical array indices (decimal, no leading zero, below 2^32 − 1) first in ascending order and the others in first-seen order. The method emits first-seen order, which the contract does not promise.
- Registration.Trim: the white-space set of ECMAScript `trim` is written out as a fixed character set.

## Findings

| source | as written | input that shows it | evidently intended | confidence | as-written member | corrected member |
|---|---|---|---|---|---|---|
| app.js:593-602 | `agrupados` is a plain object, so `!agrupados[code]` is false for a barcode that names an inherited member (`toString`, `constructor`, `__proto__`, ...); no row is created and `.trabajos.push` on the inherited value throws before the report area is written, so the new report never appears and whatever the area showed before stays on screen | one selected record with barcode `toString` | every distinct barcode gets its own row, whatever its text | not executed | Aggregation.GroupAsWritten, Aggregation.InheritedNameBreaksReport | Aggregation.BuildReport |
