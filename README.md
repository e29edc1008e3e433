# Smart Expense Tracker — a verified model of its core

The tracker (`expense_tracker.py`) keeps a single user's expenses in a JSON
file. Each expense is a record with an id, a date, a title, a category, an
amount and a note. A menu offers six operations:

- add an expense;
- list every expense, newest date first, with the total;
- summarise one month by category;
- search by text;
- delete by id;
- export to CSV.

This project models the logic under the prompts and prints. The model is in
Dafny and its properties are proved:

| file | module | what it holds |
|---|---|---|
| `wrappers.dfy` | `Wrappers` | `Option` and `Result` |
| `text.dfy` | `Text` | Python's `str.strip()`, `str.lower()`, the substring test `q in s`, `int()`, the amount parse (`float()` read in hundredths), the two-decimal display, and Python's string ordering |
| `seqs.dfy` | `Seqs` | the list-comprehension filter, subsequences, and the first-seen list of distinct keys |
| `dates.dfy` | `Dates` | see below |
| `records.dfy` | `Records` | the record and the sum of amounts |
| `storage.dfy` | `Storage` | `load_data` / `save_data` as a `Store` class |
| `listing.dfy` | `Listing` | `view_all`: a stable descending sort by date text, and the total |
| `summary.dfy` | `Summary` | `monthly_summary`: the month filter and the insertion-ordered category dictionary |
| `scenarios.dfy` | `Scenarios` | `view_all` and `monthly_summary` worked through on a collection of three expenses |
| `search.dfy` | `Search` | `search` |
| `export.dfy` | `Export` | `export_csv`: the rows handed to the CSV writer |
| `tracker.dfy` | `Tracker` | `add_expense` and `delete`, which change the store |

`Dates` holds the Gregorian calendar that `datetime.date` accepts, `strptime`
and `parse_date`'s first-match search over its three formats, and `str(date)`.
`str(date)` writes the ISO 8601 extended calendar-date form YYYY-MM-DD
(section 4.1.2.2 of ISO 8601:2004). `Dates` also holds the strict reading of
that text that the monthly summary performs.

How the source is represented:

- **Inputs and clock.** Whatever the source reads with `input()` becomes a
  string parameter. `datetime.today()` becomes a `today: Date` parameter, and
  the timestamp-derived id becomes an `id: int` parameter.
- **Amounts.** They are whole hundredths of the currency unit.
- **Store.** It is a `Store` object with two fields. `backing` holds the
  file's state: missing, text that is not valid JSON, or a saved collection. `writes` counts
  saves, so contracts can say that an operation wrote nothing.
- **Errors.** `strptime`, `float()` and `int()` raise `ValueError`, and so
  does `fromisoformat`. In the model each of these is an `Option` or
  `Result` value, or an outcome constructor.

## Model

| member | source | states |
|---|---|---|
| Text.IsSpace | expense_tracker.py:41 | the characters `str.isspace()` holds for, which `strip()` removes; characterised by the `Text.Strip` contract |
| Text.TrimStart | expense_tracker.py:41 | the result is a suffix of the input; everything dropped is whitespace; the result does not start with whitespace |
| Text.TrimEnd | expense_tracker.py:41 | the result is a prefix of the input; everything dropped is whitespace; the result does not end with whitespace |
| Text.Strip | expense_tracker.py:41-46 | `strip()` never lengthens; the result has no whitespace at either end; it is empty exactly when the input is all whitespace |
| Text.Lower | expense_tracker.py:103 | same length; each character lowered on its own; no upper-case letter remains |
| Text.LowerIdempotent | expense_tracker.py:103 | lowering twice is lowering once |
| Text.StripLower | expense_tracker.py:103 | `s.strip().lower() == s.lower().strip()` |
| Text.ContainsIffOccurs | expense_tracker.py:105 | `q in s` holds exactly when `q` occurs in `s` at some position |
| Text.ParseInt | expense_tracker.py:81-82 | `int(text)` succeeds exactly on an optional sign followed by one or more decimal digits |
| Text.IntTextRoundTrip | expense_tracker.py:115 | `int(str(i)) == i` for every integer |
| Text.NatText | expense_tracker.py:115 | the decimal text of `n` is non-empty, all digits, denotes `n` and has no leading zero |
| Text.DotIndex | expense_tracker.py:45 | the index of the first decimal point, or the length when there is none |
| Text.ParseUnsignedAmount | expense_tracker.py:45 | an unsigned amount is read exactly when the text is digits, or digits around one point with at most two digits after it and at least one digit in all |
| Text.WholeUnsignedAmount | expense_tracker.py:45 | digits alone are read as that many whole units |
| Text.PointedUnsignedAmount | expense_tracker.py:45 | digits with a point are read as the units before the point plus the hundredths after it |
| Text.ParseAmount | expense_tracker.py:45 | `float()` succeeds exactly on an optional sign followed by an unsigned amount form, `[+-]?(d+(.d{0,2})?|.d{1,2})` |
| Text.WholeAmount | expense_tracker.py:45 | the decimal text of a whole number `n` reads as `n` units, `100 * n` hundredths |
| Text.WholeAmountExample | expense_tracker.py:45 | "12" reads as 12.00 |
| Text.PointedAmountExamples | expense_tracker.py:45 | "1.5" reads as 1.50 and "1." as 1.00 |
| Text.FractionOnlyExample | expense_tracker.py:45 | ".5" reads as 0.50 |
| Text.SignedAmountExample | expense_tracker.py:45 | "-3.25" reads as -3.25 |
| Text.RejectedAmountExamples | expense_tracker.py:45 | "abc", "-" and "." are rejected, as `float()` rejects them |
| Text.ThreeDecimalsRejected | expense_tracker.py:45 | the model rejects "1.234", which `float()` accepts, because whole hundredths cannot hold three decimals |
| Text.AmountText | expense_tracker.py:72 | characterised by `Text.AmountTextRoundTrip`: reading back the display gives the amount |
| Text.IntText | expense_tracker.py:115 | characterised by `Text.IntTextRoundTrip`: `int(str(i)) == i` |
| Text.StripUnspaced | expense_tracker.py:81-82 | a text with no whitespace at either end is its own `strip()` |
| Text.Contains | expense_tracker.py:105 | characterised by `Text.ContainsIffOccurs`: `q in s` exactly when `q` occurs in `s` at some position |
| Text.LexLess | expense_tracker.py:71 | characterised by the `Text.Lex*` lemmas below: a strict total order on strings |
| Text.LexCommonPrefix | expense_tracker.py:71 | a common prefix does not change the order of two strings |
| Text.AmountTextRoundTrip | expense_tracker.py:72 | reading back the `:.2f` display of an amount gives the amount |
| Text.PlainAmountRoundTrip | expense_tracker.py:45 | a non-negative amount's two-decimal text parses back to it |
| Text.NegatedAmountRoundTrip | expense_tracker.py:45 | a minus sign before that text parses back to the negated amount |
| Text.LexIrreflexive | expense_tracker.py:71 | no string sorts before itself |
| Text.LexAsymmetric | expense_tracker.py:71 | two strings never sort before each other |
| Text.LexTransitive | expense_tracker.py:71 | string order is transitive |
| Text.LexTotal | expense_tracker.py:71 | any two different strings are ordered one way or the other |
| Text.NotLessTransitive | expense_tracker.py:71 | "not less than" is transitive |
| Text.NotLessAntisymmetric | expense_tracker.py:71 | strings neither of which is less than the other are equal |
| Seqs.Filter | expense_tracker.py:120 | the comprehension `[r for r in s if p(r)]` never lengthens and keeps only elements that pass; `Seqs.FilterCount` and `Seqs.FilterIsSubsequence` fix it completely |
| Seqs.FilterCount | expense_tracker.py:120 | an element that passes is kept as many times as it occurs, and no other element is kept |
| Seqs.FilterMembership | expense_tracker.py:120 | an element is kept exactly when it is present and passes the test |
| Seqs.FilterLength | expense_tracker.py:121 | filtering never lengthens, and keeps the length exactly when every element passes |
| Seqs.FilterAppend | expense_tracker.py:85 | filtering distributes over concatenation |
| Seqs.FilterIsSubsequence | expense_tracker.py:105 | the kept elements keep their original relative order |
| Seqs.FilterKeepsAll | expense_tracker.py:105 | when every element passes, the filter returns the input |
| Seqs.SubsequenceOfTail | expense_tracker.py:120 | a subsequence stays one when an element is put in front |
| Seqs.SubsequenceDropFirst | expense_tracker.py:120 | dropping the first element of a subsequence leaves a subsequence |
| Seqs.FirstSeen | expense_tracker.py:92-94 | the distinct keys: no repeats, every input key present, nothing else; `Seqs.FirstSeenOrder` gives their order |
| Seqs.FirstSeenSnoc | expense_tracker.py:94 | a further key is appended to the first-seen list unless it is already there |
| Seqs.SeenBeforeExtend | expense_tracker.py:92-94 | a key that appears before any occurrence of another still does so after a further key is appended |
| Seqs.FirstSeenOrder | expense_tracker.py:92-94 | of any two keys in the first-seen list, the earlier one occurs in the input before the first occurrence of the later one |
| Dates.IsLeapYear | expense_tracker.py:32 | the Gregorian leap-year rule; characterised by `Dates.DaysInMonth` and `Dates.LeapYearExamples` |
| Dates.LeapYearExamples | expense_tracker.py:32 | 2024 and 2000 are leap years; 2023 and 1900 are not |
| Dates.ValidDate | expense_tracker.py:32 | the dates `datetime.date` accepts: years 1 to 9999, months 1 to 12, a day that exists in that month; illustrated by `Dates.ValidDateExamples` |
| Dates.ValidDateExamples | expense_tracker.py:32 | 29 February exists in 2024 but not 2023; 31 April, day 0, day 32, month 13, year 0 and year 10000 are rejected |
| Dates.DaysInMonth | expense_tracker.py:32 | between 28 and 31 days; 29 exactly in February of a leap year |
| Dates.Candidates | expense_tracker.py:32 | every alternative of `%Y`, `%m` and `%d` consumes between one character and the whole remaining text |
| Dates.MatchPrefix | expense_tracker.py:32 | the regular-expression match of a format consumes no more than the text |
| Dates.TryCandidates | expense_tracker.py:32 | trying a directive's alternatives in order consumes no more than the text |
| Dates.StrpTime | expense_tracker.py:32 | whatever `strptime(...).date()` returns is a valid Gregorian date |
| Dates.FirstFormatMatch | expense_tracker.py:29-35 | whatever the format search returns is a valid date |
| Dates.FirstFormatMatchIsFirst | expense_tracker.py:30-35 | the search fails exactly when every format fails; otherwise it returns what the first successful format reads, and every earlier format failed |
| Dates.ParseDate | expense_tracker.py:29-35 | the loop returns the first format's date or fails when none reads it; a returned date is valid |
| Dates.YearFirstText | expense_tracker.py:30 | a date spelled year first with a given separator is ten characters with the separator at positions 4 and 7 |
| Dates.IsoText | expense_tracker.py:53 | `str(date)` is ten characters with dashes at positions 4 and 7 |
| Dates.IsoTextFields | expense_tracker.py:53 | the digit groups of `str(date)` spell the year, month and day |
| Dates.StoredDateOfIsoText | expense_tracker.py:85 | the strict reading of `str(d)` gives `d` |
| Dates.IsoTextOfStoredDate | expense_tracker.py:85 | a text that reads strictly is exactly `str` of what it reads |
| Dates.StoredDateIff | expense_tracker.py:85 | the strict reading gives `d` exactly when `d` is valid and the text is `str(d)` |
| Dates.IsoFormatReadsIsoText | expense_tracker.py:30 | `strptime(str(d), "%Y-%m-%d")` gives back `d` |
| Dates.ParseDateReadsIsoText | expense_tracker.py:29-35 | `parse_date(str(d)) == d` |
| Dates.DayFirstText | expense_tracker.py:30 | the DD-MM-YYYY spelling of a date is ten characters |
| Dates.DayFirstFormatReadsDayFirstText | expense_tracker.py:30 | `strptime(text, "%d-%m-%Y")` reads a DD-MM-YYYY text back as its date |
| Dates.ParseDateReadsDayFirstText | expense_tracker.py:29-35 | a DD-MM-YYYY text fails the first format and is read by the second |
| Dates.SlashText | expense_tracker.py:30 | the YYYY/MM/DD spelling of a date is ten characters with slashes at positions 4 and 7 |
| Dates.SlashFormatReadsSlashText | expense_tracker.py:30 | `strptime(text, "%Y/%m/%d")` reads a YYYY/MM/DD text back as its date |
| Dates.DayCandidatesShort | expense_tracker.py:30 | each alternative of `%d` consumes at most two characters |
| Dates.DayFirstTryFails | expense_tracker.py:30 | when the second and third characters are digits, no day alternative of one or two characters is followed by the dash `%d-%m-%Y` needs |
| Dates.DayFirstNeedsDash | expense_tracker.py:30 | `%d-%m-%Y` fails on a text whose second and third characters are digits |
| Dates.ParseDateReadsSlashText | expense_tracker.py:29-35 | a YYYY/MM/DD text fails the first two formats and is read by the third |
| Dates.StoredDate | expense_tracker.py:85 | a text that reads strictly names a valid date and has ten characters with dashes at positions 4 and 7; `Dates.StoredDateIff` characterises it fully |
| Dates.IsoExample | expense_tracker.py:29-35 | "2024-01-05" reads as 5 January 2024 |
| Dates.DayFirstExample | expense_tracker.py:29-35 | "05-01-2024" reads as 5 January 2024 |
| Dates.YearFirstNeedsFourDigits | expense_tracker.py:30 | neither year-first format reads a text whose third character is not a digit |
| Dates.UnreadableDayFirst | expense_tracker.py:30 | "%d-%m-%Y" does not read "13/45/9999", whichever day alternative it tries |
| Dates.UnreadableExample | expense_tracker.py:35 | "13/45/9999" is read by no format |
| Dates.UnpaddedMonthDay | expense_tracker.py:30 | `%m-%d` reads "1-5" as month 1, day 5 |
| Dates.UnpaddedExample | expense_tracker.py:30 | "%Y-%m-%d" reads "2024-1-5" as 5 January 2024 |
| Dates.SpacePaddedMonthDay | expense_tracker.py:30 | `%m-%d` reads "01- 5" as month 1, day 5 |
| Dates.SpacePaddedDayExample | expense_tracker.py:30 | "%Y-%m-%d" reads "2024-01- 5", with a space-padded day, as 5 January 2024 |
| Records.Total | expense_tracker.py:91 | characterised by `Records.TotalAppend`, `Listing.TotalSortByDate` and `Listing.RunningTotal` |
| Records.TotalAppend | expense_tracker.py:91 | the sum over two collections side by side is the sum of their sums |
| Storage.Store.Load | expense_tracker.py:16-23 | a saved collection loads as itself; a missing file, or one whose text is not valid JSON, loads as the empty collection |
| Storage.Store.Save | expense_tracker.py:25-27 | the file is replaced wholesale, so the next load returns exactly what was saved; one write is counted |
| Listing.InsertByDate | expense_tracker.py:71 | inserting one record adds exactly that record to the multiset |
| Listing.SortByDate | expense_tracker.py:71 | sorting permutes the records |
| Listing.InsertKeepsSorted | expense_tracker.py:71 | inserting into a descending-by-date list keeps it descending |
| Listing.InsertBelowHead | expense_tracker.py:71 | a record that passes the head leaves everything after the head no later than the head |
| Listing.InsertFilterByDate | expense_tracker.py:71 | among the records with the inserted record's date, the inserted record comes first, ahead of those already in the list; records with other dates are unaffected |
| Listing.SortByDateCorrect | expense_tracker.py:71 | the sort is descending by date and keeps the stored order among equal dates |
| Listing.FilterHasDateHead | expense_tracker.py:71 | the records sharing the first record's date start with that record |
| Listing.SameHead | expense_tracker.py:71 | two descending lists that agree on the order within each date start with the same record |
| Listing.SameOrderTails | expense_tracker.py:71 | dropping a common first record keeps the agreement within each date |
| Listing.StableSortUnique | expense_tracker.py:71 | two lists that are descending by date and agree on the order within each date are equal, so the stable sort is determined |
| Listing.TotalInsert | expense_tracker.py:73 | insertion adds the inserted amount to the sum |
| Listing.TotalSortByDate | expense_tracker.py:70-74 | the sum in sorted order equals the sum in stored order |
| Listing.RunningTotal | expense_tracker.py:70-73 | the loop's running total ends as the sum of all amounts |
| Listing.ViewAll | expense_tracker.py:64-74 | "No expenses yet." exactly for an empty collection; otherwise the rows are the records sorted by `SortByDate`, a permutation that is descending by date and stable, and the running total is the sum of all amounts |
| Summary.InMonth | expense_tracker.py:85 | characterised by `Summary.MonthFilterMembership` |
| Summary.AllDatesReadable | expense_tracker.py:85 | every stored date reads strictly; when one does not, `fromisoformat` raises and `Summary.MonthlySummary` gives `BadStoredDate` |
| Summary.MonthFilterCount | expense_tracker.py:85 | a record of the month is kept as many times as it is stored, and no other record is kept |
| Summary.MonthFilterMembership | expense_tracker.py:85 | a record is in the month filter exactly when it is stored and its date reads as that year and month; the filter keeps stored order |
| Summary.Get | expense_tracker.py:94 | `by_cat.get(k, 0)` is 0 when no entry has key `k`, and otherwise the value of the first entry with key `k` |
| Summary.Bump | expense_tracker.py:94 | `by_cat[k] = by_cat.get(k, 0) + a` keeps the key order and appends a new key; only `k` changes, by `a`; the values grow by `a` |
| Summary.CategorySumSnoc | expense_tracker.py:93-94 | a record added at the end changes only its own category's sum |
| Summary.CategoriesSnoc | expense_tracker.py:93 | a record added at the end adds its category at the end of the category list |
| Summary.KeysStep | expense_tracker.py:94 | after a record is added, the keys are still the categories in first-seen order |
| Summary.GetStep | expense_tracker.py:94 | after a record is added, each key's value is still its category's sum |
| Summary.GroupStep | expense_tracker.py:93-94 | one turn of the loop keeps the dictionary in step with the records seen so far |
| Summary.GroupFold | expense_tracker.py:93-94 | `by_cat` after the loop; characterised by `Summary.GroupFoldTallies` |
| Summary.GroupFoldTallies | expense_tracker.py:92-94 | after the loop has seen the records, the keys are the categories in first-seen order, each maps to its category's sum, and the values add up to the total |
| Summary.GroupByCategory | expense_tracker.py:92-94 | the loop builds the dictionary that folding over the records defines; it has one key per category in first-seen order; each key maps to that category's sum; the values add up to the total |
| Summary.NumberOrDefault | expense_tracker.py:81-82 | an all-whitespace text gives the default; any other text gives `int()` of the stripped text, whose success `Text.ParseInt` states |
| Summary.NumberOrDefaultReadsNumber | expense_tracker.py:81-82 | a year or month typed as `str(n)` is read as `n` |
| Summary.MonthlySummary | expense_tracker.py:76-99 | an unreadable year or month fails, and so does an unreadable stored date; "No records." exactly when the month filter is empty; otherwise the report gives the month's records in stored order, their total, the category subtotals and their sum |
| Search.SearchRecords | expense_tracker.py:105 | never more results than records, and every result matches the query; `Search.SearchCount` and `Search.SearchKeepsOrder` fix it completely |
| Search.MatchesQuery | expense_tracker.py:105 | the test of the comprehension: the lowered title, the lowered category or the date text contains the query; characterised by `Text.ContainsIffOccurs` |
| Search.NormalQuery | expense_tracker.py:103 | `query.strip().lower()`: never longer, empty exactly for an all-whitespace query, no whitespace at either end, no upper-case letter |
| Search.SearchCount | expense_tracker.py:105 | a matching record is listed as many times as it is stored, and no other record is listed |
| Search.SearchMembership | expense_tracker.py:103-105 | a record is found exactly when it is stored and the stripped, lowered query occurs in its lowered title, its lowered category or its date |
| Search.SearchKeepsOrder | expense_tracker.py:105 | results keep the stored order |
| Search.SearchBlankQuery | expense_tracker.py:103-105 | a blank query finds every record |
| Search.SearchIgnoresCase | expense_tracker.py:103 | a query and its lower-cased form find the same records |
| Export.HeaderRow | expense_tracker.py:136 | the header is `id,date,title,category,amount,note` |
| Export.RecordRow | expense_tracker.py:138 | characterised by `Export.RecordRowFollowsHeader` |
| Export.RecordRowFollowsHeader | expense_tracker.py:136-138 | each field of a record's row sits under the header naming it |
| Export.ExportCsv | expense_tracker.py:127-139 | nothing is written for an empty collection; otherwise the header is followed by one row per record, in stored order |
| Tracker.NewRecord | expense_tracker.py:40-58 | an unreadable date fails first, then an unreadable amount; otherwise it builds the record with the given id and the stored ISO date; a blank date text gives today; the category defaults to "Other"; title and note are stripped |
| Tracker.ChosenDate | expense_tracker.py:41-42 | a blank date text gives today; any other text gives `parse_date` of the stripped text, whose result `Dates.FirstFormatMatchIsFirst` states; any date chosen is a valid date |
| Tracker.AddExpense | expense_tracker.py:38-62 | on an input error the store is untouched; otherwise the file is written once and holds the loaded records followed by the new record |
| Tracker.ChosenDateReadsBack | expense_tracker.py:53 | the stored text of the date `add_expense` chose reads back as that date, both strictly and through `parse_date` |
| Tracker.AddedRecordJoinsItsMonth | expense_tracker.py:85 | an added record joins the end of its own month's filter and no other |
| Tracker.RemoveId | expense_tracker.py:120 | never lengthens, and no record left carries the id; `Tracker.RemoveIdCount` and the stored-order clause of `Tracker.RemoveIdKeeps` fix it completely |
| Tracker.RemoveIdCount | expense_tracker.py:120 | a record with another id is kept as many times as it is stored, and none carrying the id is kept |
| Tracker.RemoveIdKeeps | expense_tracker.py:120 | deletion keeps exactly the records with a different id, in stored order |
| Tracker.RemoveIdLength | expense_tracker.py:120-121 | the length drops by the number of records with the id, and stays equal exactly when none has it |
| Tracker.Delete | expense_tracker.py:112-125 | non-integer id text changes nothing; when no record has the id nothing is written; otherwise the file is written once and holds the filtered collection, even when that is empty |
| Scenarios.ViewAllExample | expense_tracker.py:71 | records of 5 January, 20 January and 1 February 2024, stored in that order, are listed 1 February first, then 20 January, then 5 January |
| Scenarios.SortRising | expense_tracker.py:71 | three records stored with rising dates are listed in reverse |
| Scenarios.ViewAllTotalExample | expense_tracker.py:73 | those three amounts, 10.00, 20.00 and 5.00, total 35.00 |
| Scenarios.JanuaryRecords | expense_tracker.py:85 | the January 2024 filter keeps the two January records, in stored order |
| Scenarios.MonthlySummaryExample | expense_tracker.py:76-99 | for year "2024" and month "1" the numbers read, every date reads, and the month holds the two Food records, 30.00 in all, making one Food entry of 30.00 |
| Scenarios.OneCategory | expense_tracker.py:91-94 | two records of one category make a single dictionary entry holding both amounts |

## Left out

- The menu loop, the prompts and all printed text (expense_tracker.py:142-173 and the `print` calls) are user interface. The model takes inputs as parameters and returns results.
- File I/O and the serialisers are not modelled: `open`, `os.path.exists`, `json.load` and `json.dump`. The store is abstract.
- A file whose bytes are not valid text in the locale's encoding makes `json.load` raise `UnicodeDecodeError`, which `load_data` does not catch; the model has no such file state.
- A JSON file that decodes to something other than a list of records is not modelled. Neither is a record with a missing key, which makes the source raise `KeyError`.
- Text.ThreeDecimalsRejected: states the model's own bound. A text with three or more decimals, which `float()` accepts, is rejected here (see the next line).
- Text.ParseAmount: accepts only an optional sign and digits with at most two decimals, counted in hundredths. `float()` also accepts more decimals, exponents, `inf`, `nan`, `_` separators and other Unicode decimal digits. Floating-point amounts and their rounding are not modelled.
- Amounts are displayed with `:.2f`, and the source prints a `₹` sign and padded columns. Only the two-decimal text is modelled, as `AmountText`.
- The percentages in `monthly_summary` are floating-point and are left out (expense_tracker.py:98). So is their division by zero: a month whose amounts sum to zero, such as a single expense of 0, makes the source raise `ZeroDivisionError`.
- Text.ParseInt: ASCII digits only. Python's `int()` also accepts other Unicode decimal digits and `_` separators.
- Dates.Candidates: `\d` in the `strptime` pattern is ASCII only here. Python's pattern also matches other Unicode decimal digits.
- Text.Lower: lowers ASCII letters only. Python's `str.lower()` also lowers other scripts and can change a string's length.
- Dates.StoredDate: reads only the strict YYYY-MM-DD form that `str(date)` writes. `datetime.fromisoformat` also accepts a trailing time, such as "2024-01-05T10:00" or "2024-01-05 10:00" (Python 3.7 and later), and from Python 3.11 on also compact forms such as `20240105`.
- Summary.MonthlySummary: the source does not catch `int()` failing on the year or month text, nor `fromisoformat` failing on a stored date. The model returns them as `InvalidNumber` and `BadStoredDate`.
- The id comes from `int(datetime.now().timestamp()*1000)` and is a parameter. Ids are not claimed to be unique, and `Delete` removes every record carrying the id.
- `datetime.today()` is a parameter as well.
- CSV quoting and escaping by `csv.writer`, and the `str()` rendering of each cell, are not modelled. A row is a sequence of typed cells.
- Concurrent runs are not modelled, and neither is a crash while the file is being written.
