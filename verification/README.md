# USCIS case-status checker: the string and date core

`case_status.py` is a Selenium script that looks up the status of a run of
USCIS receipt numbers and the posted processing times for two forms, then
reports how many days remain until a case inquiry is allowed. Around the
browser calls sits a small deterministic core, modelled here in Dafny:

- **format_date**: `"January 1, 2018"` becomes the triple `(2018, 1, 1)`. The
  text is split on whitespace and the month name is looked up in a fixed
  twelve-entry table. Commas are removed from the day word, and the day and
  year words go through `int()`. (`DateFormat`)
- **Receipt derivation** in `Get_app_status`: the first three characters are
  kept, the rest is read with `int()`, and receipt `i` is
  `letters + str(n + i)`. The loop that submits each number and collects the
  status panel is modelled as a method, with the browser round trip as a
  function parameter. (`Receipts`)
- **Get_times**: the choice of table row from the form name, the day count
  `(date(*RD) - date(*format_date(asof))).days`, and the estimate cleanup
  `' '.join(est.split())`. (`ProcessingTimes`, `Calendar`)

The Python built-ins these steps rely on are modelled in `PyText`:
`str.isspace` (all 29 whitespace code points), `str.split()`, `' '.join`,
`str.replace(',', '')`, base-10 `int(str)` and `str(int)`. The `int(str)`
model covers the sign, the whitespace `int()` itself skips around the number,
and single underscores between digits. That whitespace is narrower than
`str.isspace`: the ASCII separators U+001C to U+001F are not skipped.
`Calendar` models the `datetime.date` behaviour the script uses:
- Construction takes C ints, so a component beyond that range is an
  OverflowError.
- Construction rejects impossible dates, such as February 30, with a
  ValueError.
- Subtraction gives the difference of proleptic-Gregorian day numbers
  (`toordinal`).

Failures are values of `Failures.Result`, and each `Failures.Error` names the
Python exception it stands for.

Two consequences of the code are easy to miss:
- The docstring of `Get_app_status` (case_status.py:42) gives receipt numbers
  in the format `XXX0123456789`. The number part goes through
  `str(int(...))`, which drops a leading zero, so the first derived receipt
  is then not the given one. `Receipts.LeadingZerosDropped` states this.
- `format_date` fails with a KeyError on an unknown month name. It also fails
  with a ValueError when the day or year word is not an integer, and with an
  IndexError when there are fewer than three words.

## Model

| member | source | states |
|---|---|---|
| `PyText.Split` | case_status.py:32 | `str.split()`: the maximal whitespace-free runs, in order. The contracts are in `SplitWords`, `SplitWord`, `SplitAroundSpace` and `SplitKeepsNonSpace` |
| `PyText.SplitWords` | case_status.py:32 | every word `str.split()` returns is non-empty and holds no whitespace |
| `PyText.SplitKeepsNonSpace` | case_status.py:32 | gluing the words of `s.split()` back together gives exactly the non-whitespace characters of `s`, in order |
| `PyText.SplitAroundSpace` | case_status.py:32-35 | for any whitespace character `c`, splitting `a + c + b` gives the words of `a` followed by the words of `b`; with `SplitWord` this makes the words the maximal whitespace-free runs |
| `PyText.SplitWord` | case_status.py:32 | a whitespace-free non-empty string splits into itself |
| `PyText.Join` | case_status.py:93 | `sep.join(words)`. Its contracts are in `SplitJoin` and `JoinNormalized` |
| `PyText.SplitJoin` | case_status.py:93 | splitting words joined by single spaces gives back the same words |
| `PyText.JoinNormalized` | case_status.py:93 | words joined by single spaces have no whitespace at either end, only plain spaces and no two adjacent whitespace characters |
| `PyText.RemoveAll` | case_status.py:34 | `s.replace(c, '')` contains no `c` and is no longer than `s` |
| `PyText.RemoveAllKeepsOthers` | case_status.py:34 | every character other than `c` is kept, as often as it occurs |
| `PyText.RemoveAllAppend` | case_status.py:34 | removing a character distributes over concatenation |
| `PyText.ParseInt` | case_status.py:33-34 | `int(str)` in base 10, with `None` for the ValueError. Its contracts are in `ParseIntAlphabet`, `DigitsParse`, `NumberSpaceExamples` and `IntRoundTrip` |
| `PyText.DigitsParse` | case_status.py:49 | `int()` accepts every non-empty run of ASCII digits, leading zeros included, and reads its decimal value |
| `PyText.ParseIntAlphabet` | case_status.py:33-34 | `int()` succeeds only on text made of the whitespace it skips, digits, signs and underscores |
| `PyText.NumberSpaceExamples` | case_status.py:49 | `int()` skips a tab and a no-break space around the number, but rejects a U+001C separator even though `str.split()` counts it as whitespace |
| `PyText.IntToString` | case_status.py:57 | `str(i)`. Its contracts are in `IntToStringWord`, `NatToDigits`, `IntRoundTrip` and `IntToStringInjective` |
| `PyText.IntToStringWord` | case_status.py:57 | `str(i)` is a single word without commas |
| `PyText.StripKeeps` | case_status.py:33-34 | the whitespace skipping that `int()` does around a number keeps every character it does not skip |
| `PyText.NatToDigits` | case_status.py:57 | `str(n)` for `n >= 0` is a non-empty digit string with no leading zero unless `n == 0` |
| `PyText.IntRoundTrip` | case_status.py:49-57 | `int(str(i)) == i` for every integer `i` |
| `PyText.IntToStringInjective` | case_status.py:57 | different integers give different decimal strings |
| `Calendar.IsValid` | case_status.py:92 | the dates `datetime.date` accepts: year 1 to 9999, month 1 to 12, and a day within the month. `Construct` and `OrdinalInjective` use it |
| `Calendar.Construct` | case_status.py:92 | `datetime.date(y, m, d)` succeeds exactly on valid dates and returns that date. A component outside the C int range is the OverflowError; any other rejection is the ValueError |
| `Calendar.Ordinal` | case_status.py:92 | `toordinal()`. `OrdinalFirstDay`, `OrdinalMonotone`, `OrdinalInjective` and `OrdinalNextDay` make it the running day count from 0001-01-01 |
| `Calendar.OrdinalFirstDay` | case_status.py:92 | January 1 of year 1 is day number 1 |
| `Calendar.Difference` | case_status.py:92-95 | `(a - b).days`. Its contracts are in the `Difference*` lemmas |
| `Calendar.DaysInMonth` | case_status.py:92 | month lengths are 28 to 31 days, and only February is shorter than 30 |
| `Calendar.DaysBeforeMonth` | case_status.py:92 | the months before month `m` hold between 28(m-1) and 31(m-1) days |
| `Calendar.NextDay` | case_status.py:92 | the day after a valid date is a valid, later date |
| `Calendar.DaysBeforeNextYear` | case_status.py:92 | each year adds 366 days if it is a Gregorian leap year and 365 otherwise |
| `Calendar.YearLength` | case_status.py:92 | the twelve months of a year add up to the year's length |
| `Calendar.OrdinalMonotone` | case_status.py:92 | day numbers follow calendar order |
| `Calendar.OrdinalInjective` | case_status.py:92 | two valid dates with the same day number are equal |
| `Calendar.OrdinalNextDay` | case_status.py:92 | the next day has the next day number |
| `Calendar.DifferenceZero` | case_status.py:92 | the day difference is zero exactly when the dates are equal |
| `Calendar.DifferenceAntisymmetric` | case_status.py:92 | swapping the two dates negates the day difference |
| `Calendar.DifferenceNegative` | case_status.py:92 | the day difference is negative exactly when the first date is earlier |
| `Calendar.DifferenceNextDay` | case_status.py:92 | moving the first date one day later adds one to the difference |
| `Calendar.DifferenceExample` | case_status.py:92 | 2020-01-01 minus 2019-12-01 is 31 days |
| `DateFormat.LookupMonth` | case_status.py:28-35 | the table knows exactly the twelve English month names, and maps each to its position 1..12 in the year; any other name is the KeyError |
| `DateFormat.LookupMonthName` | case_status.py:28-30 | the table gives back month `m` for the `m`-th month name |
| `DateFormat.FormatDate` | case_status.py:22-36 | succeeds exactly when there are at least three words, the year and comma-stripped day words are integers and the first word is a month name. The result is (year, month 1..12 named by the first word, day). Errors come in Python's evaluation order: a missing word, then a bad year or day, then an unknown month |
| `DateFormat.RenderWords` | case_status.py:32 | a date written as "Month D, YYYY" splits into the month name, the day with its comma, and the year |
| `DateFormat.FormatDateRender` | case_status.py:22-36 | round trip: a date written as "Month D, YYYY" is read back as the same date |
| `DateFormat.SplitThree` | case_status.py:32 | three words joined by spaces split back into those three words |
| `DateFormat.ExtraWordsIgnored` | case_status.py:32-35 | words after the third never change the result |
| `DateFormat.DayCommaIgnored` | case_status.py:34 | "Month D, Y" and "Month D Y" parse to the same result |
| `DateFormat.YearCommaRejected` | case_status.py:33 | a comma in the year word makes the parse fail with the ValueError, since only the day word is comma-stripped |
| `DateFormat.FormatDateExamples` | case_status.py:25-26 | "January 1, 2018" gives (2018, 1, 1) and "December 31, 2020" gives (2020, 12, 31) |
| `Receipts.Letters` | case_status.py:48 | the slice `[0:3]` is clamped: three characters long, or the whole receipt when it is shorter |
| `Receipts.NumberPart` | case_status.py:49 | the kept prefix followed by the number part is the receipt |
| `Receipts.Sequence` | case_status.py:51-57 | one receipt per iteration of `range(count)`: exactly `count` of them, none when `count <= 0` |
| `Receipts.ReceiptNumbers` | case_status.py:47-57 | fails with the ValueError exactly when the number part is not an integer, and otherwise gives `max(count, 0)` receipts |
| `Receipts.NumberReadsBack` | case_status.py:49-57 | the text after the prefix of `letters + str(k)` reads back through `int()` as `k` |
| `Receipts.ReceiptsKeepLetters` | case_status.py:48-57 | every derived receipt starts with the first receipt's prefix |
| `Receipts.ReceiptNumberValue` | case_status.py:49-57 | the number part of receipt `i` reads back as the first number plus `i` |
| `Receipts.ReceiptsAscending` | case_status.py:51-57 | receipt numbers strictly increase, consecutive ones are one apart, and all receipts are distinct |
| `Receipts.FirstReceiptKept` | case_status.py:48-57 | when the number part is written as `str()` writes it, the first derived receipt is the given receipt |
| `Receipts.LeadingZerosDropped` | case_status.py:49-57 | when the number part has a leading zero and more than one character, the first derived receipt differs from the given one |
| `Receipts.ZeroPaddedReceipt` | case_status.py:42-49 | a receipt in the documented format, three letters then digits with a leading zero, is accepted by `int()`, and the first derived receipt differs from it |
| `Receipts.LookupReceipts` | case_status.py:51-62 | the loop runs `max(count, 0)` times and its `k`-th answer is the lookup of `letters + str(first + k)`, in order |
| `Receipts.GetAppStatus` | case_status.py:38-64 | the loop fails exactly when the derivation fails; otherwise it returns one status panel per derived receipt, in the same order. The receipt count defaults to 4 |
| `Receipts.StatusOfFiledForms` | case_status.py:103 | the script's call with the default count fails exactly when the number part is not an integer, and otherwise gives the four statuses the report prints: status `i` is the lookup of the prefix followed by `str(n + i)`, for `i` from 0 to 3 |
| `ProcessingTimes.RowIndex` | case_status.py:86 | the row is 0 or 1. It is 1 exactly when the form name's character at index 2 is '4'. A form name shorter than three characters is the IndexError |
| `ProcessingTimes.RowIndexOfReportedForms` | case_status.py:104-107 | the I-485 lookup reads row 1 and the I-765 lookup reads row 0 |
| `ProcessingTimes.CleanEstimate` | case_status.py:93 | the cleaned estimate is normalized (no leading or trailing whitespace, no runs, only plain spaces) and has the same words as the raw estimate |
| `ProcessingTimes.CleanEstimateIdempotent` | case_status.py:93 | cleaning twice equals cleaning once |
| `ProcessingTimes.CleanEstimateKeepsText` | case_status.py:93 | cleaning removes whitespace and nothing else |
| `ProcessingTimes.CleanEstimateFixesNormalized` | case_status.py:93 | normalized text is left unchanged, so the cleaned texts are exactly the normalized ones |
| `ProcessingTimes.NormalizedSuffix` | case_status.py:93 | a suffix of normalized text that starts on a word is normalized |
| `ProcessingTimes.DaysForInquiry` | case_status.py:92 | succeeds exactly when the received date is valid and the posted date parses to a valid date. The result is their day difference. Errors come in Python's order: the received date's construction error first (OverflowError or ValueError), then the parse error, then the posted date's construction error |
| `ProcessingTimes.HugeYearOverflows` | case_status.py:92 | a posted year of 3000000000 parses, and then date construction fails with the OverflowError |
| `ProcessingTimes.DaysForInquiryRendered` | case_status.py:90-92 | for a posted date written the site's way, the day count is the day difference |
| `ProcessingTimes.DaysForInquiryProperties` | case_status.py:92-95 | on posted dates the count is zero exactly on the posted date and negative exactly before it. It is minus the day difference of the swapped dates, and grows by one for each later received day |
| `ProcessingTimes.DaysForInquirySwap` | case_status.py:92 | for any texts that parse to the two dates, swapping the received and the posted date negates the day count |
| `ProcessingTimes.DaysForInquiryExample` | case_status.py:92-95 | received 2020-01-01 against posted "December 1, 2019" gives 31 |
| `ProcessingTimes.ImpossibleDateRejected` | case_status.py:92 | "February 30, 2020" passes format_date but the date construction rejects it |
| `ProcessingTimes.GetTimes` | case_status.py:66-95 | succeeds exactly when the row exists in both columns and the day count succeeds. The estimate is the normalized text of that row's estimate cell, with the same words. The day count is that row's day count. Errors are in source order |

## Left out

- Browser automation (`driver.get`, `find_element_*`, `send_keys`, `click`, `Select`, `driver.close`, case_status.py:53-62, 75-90, 102-108): live web I/O. `Receipts.GetAppStatus` takes the per-receipt round trip as a parameter. `ProcessingTimes.GetTimes` takes the texts of the results table's `est` and `date` cells as parameters.
- `Get_text` and the `find('h1')` of the report (case_status.py:14-20, 114): HTML parsing by BeautifulSoup/html5lib, which is not part of this model. The table cells reach `GetTimes` as already extracted text.
- `time.sleep` (case_status.py:76, 79, 84): timing waits with no logical content.
- Reading `FF` and `RD` from the environment and the global `driver` (case_status.py:99-102): process I/O and global state. The parse of `RD` is `DateFormat.FormatDate`, and the parsed triple is the `received` argument of `ProcessingTimes.DaysForInquiry`.
- The printed report (case_status.py:110-118): output formatting.
- Receipts.GetAppStatus: the lookup is a pure function of the receipt number. The browser session's state between lookups, and lookups that fail, are not modelled.
- PyText.ParseInt: accepts only the ASCII digits 0-9. Python's `int()` also accepts the other Unicode decimal digits.
- PyText.ParseInt: has no limit on the number of digits. Python (3.11 and later) raises a ValueError when converting more than 4300 digits.
- PyText.IntRoundTrip: holds for every integer. In Python, `str()` of an integer with more than 4300 digits raises a ValueError instead.
- ProcessingTimes.DaysForInquiry: gives the integer `.days` directly. The `timedelta` object is not modelled.
