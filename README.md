# Log aggregation and digit-array arithmetic in Dafny

This project models two small programs and proves properties of both.

**The access-log aggregator** is `LogProcessor` in `exercise_1/process_logs.py`.
- It reads a semicolon-separated log (`timestamp;bytes_sent;status;ip_address`).
- It keeps per-client request and byte counters in a `defaultdict`, plus running totals of both.
- It builds a report: one record per client, with percentage shares, sorted by request count with the highest first.

The model has four parts:
- `PyText` covers the Python built-ins the loop relies on: `str.strip`, `str.split(';')`, `str.upper` and `int()`.
- `LogStats` says what one line does to the aggregate state. That state is the mapping, with its keys in insertion order, plus the two totals.
- `LogReport` builds the report from that state.
- `LogProcessing.LogProcessor` is a class whose fields the methods update in place. Each method is proved against `LogStats`.

**The digit-array calculator** is `exercise_2/multiplicator.js`. It stores a natural number as an array of decimal digits, least significant digit first. It provides conversion to and from text, addition with carry, multiplication by one digit through repeated addition, long multiplication and factorial.
- `DigitArrays` gives such an array its value `Val`.
- `Multiplicator` models each JavaScript function. Functions that loop are methods, and each method is proved against `Val`.

Two more modules hold shared pieces:
- `Decimal` holds decimal text.
- `Wrappers` holds `Option`.

## Model

| member | source | states |
|---|---|---|
| LogProcessing.LogProcessor.constructor | exercise_1/process_logs.py:9-13 | A new processor remembers its log path, starts with an empty mapping and zero totals, and satisfies the totals invariant. |
| LogProcessing.LogProcessor.ProcessLine | exercise_1/process_logs.py:19-35 | One pass of the loop changes the state exactly as `Step` says for that line. It warns (with the stripped line) exactly for a wrong field count or an unparsable byte field of an OK line. |
| LogProcessing.LogProcessor.RecordOkLine | exercise_1/process_logs.py:28-35 | On an OK line the request is counted first. If `int()` failed, the stripped line is the warning and nothing else changes. Otherwise the bytes go to the client and both totals grow. |
| LogProcessing.LogProcessor.CountRequest | exercise_1/process_logs.py:28 | The defaultdict increment. An unseen client gets a zero entry appended at the end of the key order. The client then has one more request, and every other entry is unchanged. |
| LogProcessing.LogProcessor.AddBytes | exercise_1/process_logs.py:29-31 | The client's bytes grow by n, the request total by 1 and the byte total by n. Nothing else changes. |
| LogProcessing.LogProcessor.ProcessLogs | exercise_1/process_logs.py:15-35 | Processing a whole log gives the state `Run` prescribes for its lines in order, and the warnings of those lines in order. |
| LogProcessing.LogProcessor.GenerateReportData | exercise_1/process_logs.py:40-54 | There is one record per client, each a copy of its client's counters with its shares. The records run from the most requests down, and clients with equal counts keep the mapping's insertion order. |
| LogStats.Classify | exercise_1/process_logs.py:21-29 | The kind of a line: blank, wrong field count, non-OK status, bad byte field or accepted. BlankLineIgnored, WrongFieldCountIgnored, NonOkLineIgnored, AcceptedLineEffect and BadBytesLineEffect prove what each kind does. |
| LogStats.Step | exercise_1/process_logs.py:21-35 | The effect of one line on the state. StepOfOkLine and the per-kind lemmas give each case, StepKeepsConsistent the invariant it keeps, and BadBytesBreaksConsistent the case that breaks it. |
| LogStats.Run | exercise_1/process_logs.py:19-35 | The state after the lines in order. RunPrefixStep, RunTotals, RunKeepsConsistent and RunWithoutOkLines state its properties. |
| LogStats.Warnings | exercise_1/process_logs.py:33-35 | The warnings of the lines in order, one stripped line per warning. RunPrefixStep gives its one-line extension. |
| LogStats.StepOfOkLine | exercise_1/process_logs.py:24-35 | For a four-field OK line, the byte field's parse decides both the effect and the warning. A bad field counts only the request; a good one counts the request and the bytes and adds to the totals. |
| LogStats.BlankLineIgnored | exercise_1/process_logs.py:21-22 | A whitespace-only line changes nothing and prints no warning. |
| LogStats.WrongFieldCountIgnored | exercise_1/process_logs.py:24-35 | A non-blank line without exactly three ';' changes nothing and prints a warning. |
| LogStats.NonOkLineIgnored | exercise_1/process_logs.py:26-27 | A four-field line whose status is not OK in any letter case changes nothing and prints no warning. |
| LogStats.AcceptedLineEffect | exercise_1/process_logs.py:28-31 | A valid OK line adds one request and its bytes to its client, appending the client if new. Every other client is untouched, and the totals grow by 1 and by the bytes. No warning is printed. |
| LogStats.BadBytesLineEffect | exercise_1/process_logs.py:28-35 | An OK line whose byte field `int()` rejects still creates the client entry and counts its request. The client's bytes and both totals stay, and a warning is printed. |
| LogStats.CreditWellFormed | exercise_1/process_logs.py:28 | Get-or-insert on the mapping keeps its keys distinct and equal to the key order. |
| LogStats.CreditSum | exercise_1/process_logs.py:28-29 | Crediting a client raises the sum of a counter over all clients by exactly the amount credited. |
| LogStats.CreditTotals | exercise_1/process_logs.py:28-31 | The two sums over all clients grow by exactly the requests and bytes credited to one client. |
| LogStats.CreditInTwoSteps | exercise_1/process_logs.py:28-29 | Adding the request and then the bytes is the same as adding both at once. |
| LogStats.StepKeepsConsistent | exercise_1/process_logs.py:28-31 | Every line except an OK line with a bad byte field keeps each total equal to the sum of its counter over the clients. |
| LogStats.BadBytesBreaksConsistent | exercise_1/process_logs.py:28-31 | An OK line with a bad byte field always breaks that invariant. Afterwards the request sum over the clients exceeds `total_requests` by one. |
| LogStats.RunKeepsConsistent | exercise_1/process_logs.py:15-35 | A log without OK lines that have bad byte fields keeps the invariant from start to end. |
| LogStats.RunPrefixStep | exercise_1/process_logs.py:19-35 | Processing one more line extends the state and the warnings by that line's step. |
| LogStats.RunTotals | exercise_1/process_logs.py:30-31 | After a log, `total_requests` has grown by the number of valid OK lines, and `total_bytes` by the sum of their byte fields. |
| LogStats.RunWithoutOkLines | exercise_1/process_logs.py:21-27 | A log with only blank, wrong-field-count and non-OK lines leaves the state as it was. |
| LogStats.TotalAppend | exercise_1/process_logs.py:28 | A sum over clients grows by the counter of a client appended to the key order. |
| LogStats.TotalUpdate | exercise_1/process_logs.py:28-29 | Replacing one client's entry changes a sum over distinct clients by the difference of that entry. |
| LogReport.Share | exercise_1/process_logs.py:48-50 | A zero total gives a zero share. Otherwise the share times the total is 100 times the count, the unrounded percentage. |
| LogReport.RecordOf | exercise_1/process_logs.py:45-51 | The record of one client: its counters and their shares. ReportContents proves every report record is the RecordOf its own client. |
| LogReport.Report | exercise_1/process_logs.py:40-54 | generate_report_data. ReportContents proves one record per client, ReportOrder the descending and stable order, and ReportTotals that the columns add up to the totals. |
| LogReport.SortByRequests | exercise_1/process_logs.py:54 | The sort yields a permutation of the records, ordered by descending requests. It is stable: for each request count, the records with that count keep their order. |
| LogReport.RecordsFor | exercise_1/process_logs.py:43-51 | The records of the listed clients, one for each, in the listed order. |
| LogReport.ReportContents | exercise_1/process_logs.py:42-51 | The report is a permutation of the records built in key order. It holds every client's record, and each record copies its own client's counters and shares. |
| LogReport.ReportOrder | exercise_1/process_logs.py:53-54 | The report is in descending request order, and ties keep the insertion order of the mapping. |
| LogReport.SortKeepsTotals | exercise_1/process_logs.py:54 | Sorting changes neither the sum of requests nor the sum of bytes over the records. |
| LogReport.RecordsForTotals | exercise_1/process_logs.py:43-51 | The records' request and byte sums equal the sums over the mapping. |
| LogReport.ReportTotals | exercise_1/process_logs.py:40-54 | When the totals invariant holds, the report's request and byte columns add up to `total_requests` and `total_bytes`. |
| LogReport.ZeroTotalZeroShare | exercise_1/process_logs.py:48-50 | A zero total gives every record a zero share of that total. |
| LogReport.ShareBetween | exercise_1/process_logs.py:48-50 | A count between 0 and its total has a share between 0 and 100 percent. |
| LogReport.CountAtMostTotal | exercise_1/process_logs.py:48-50 | With non-negative counters, each client's counter lies between 0 and the sum. |
| LogReport.SharesInRange | exercise_1/process_logs.py:48-50 | When the totals invariant holds and no byte count is negative, every percentage in the report lies between 0 and 100. |
| PyText.Strip | exercise_1/process_logs.py:21-24 | `str.strip()`: leading and trailing whitespace removed. StripEnds proves what that means for the result. |
| PyText.StripEnds | exercise_1/process_logs.py:21-24 | The stripped text neither starts nor ends with whitespace, and it is empty exactly when the line is all whitespace, the blank-line test of line 21. |
| PyText.ParseInt | exercise_1/process_logs.py:29-31 | `int()` on the byte field: None is the ValueError case. ParseIntText proves that it reads back `str(n)` for every integer n. |
| PyText.SplitJoin | exercise_1/process_logs.py:24 | Splitting on ';' loses nothing: joining the fields with ';' gives the line back. |
| PyText.UpperIsOk | exercise_1/process_logs.py:26 | A status passes the check exactly when it is OK, Ok, oK or ok. |
| PyText.ParseIntText | exercise_1/process_logs.py:29-31 | `int()` reads back the decimal text of every integer, negative ones included. |
| PyText.DigitRunValueOfDecimal | exercise_1/process_logs.py:29 | A natural number's decimal text is a digit run that `int()` reads as that number. |
| PyText.Split | exercise_1/process_logs.py:24 | The fields number one more than the separators, and no field contains the separator. |
| PyText.Upper | exercise_1/process_logs.py:26 | `upper()` keeps the length and upper-cases each character in place. |
| Decimal.DecimalString | exercise_2/multiplicator.js:3 | `toString` of a natural number is a non-empty string of decimal digits that starts with '0' only for zero. |
| Multiplicator.NumberToArray | exercise_2/multiplicator.js:2-4 | `numberToArray(n)` is a non-empty array of digits whose top entry is 0 exactly when n is 0. NumberToArrayCorrect adds that its value is n, and NumberToArrayOfVal that it is the only normalized array of that value. |
| Multiplicator.NumberToArrayCorrect | exercise_2/multiplicator.js:2-4 | `numberToArray(n)` is a normalized digit array whose value is n, with a non-zero top digit unless n is 0. |
| Multiplicator.NumberToArrayOfVal | exercise_2/multiplicator.js:2-4 | Every normalized digit array is `numberToArray` of its value, so the conversion is a bijection onto normalized arrays. |
| Multiplicator.NumberToArrayUnfold | exercise_2/multiplicator.js:2-4 | The first entry of `numberToArray(n)` is the units digit n % 10, and the rest is `numberToArray(n / 10)`. |
| Multiplicator.NumberToArrayExample | exercise_2/multiplicator.js:2-4 | 123 becomes [3, 2, 1] and 5 becomes [5]. |
| Multiplicator.ArrayToString | exercise_2/multiplicator.js:7-9 | For a digit array, the text has one character per entry, the last entry first. ArrayToStringRoundTrip adds that it inverts numberToArray. |
| Multiplicator.JoinDigitArray | exercise_2/multiplicator.js:8 | `join('')` of single digits writes exactly one character per digit, in order. |
| Multiplicator.ArrayToStringRoundTrip | exercise_2/multiplicator.js:2-9 | `arrayToString(numberToArray(n))` is the decimal text of n. |
| Multiplicator.JoinDigits | exercise_2/multiplicator.js:8 | Joining the numbers of a string of digit characters gives the string back. |
| Multiplicator.ReverseReverse | exercise_2/multiplicator.js:3-8 | Reversing twice gives the original array. |
| Multiplicator.AddArrays | exercise_2/multiplicator.js:12-24 | The sum is a digit array whose value is the sum of the values. It is at most one digit longer than the longer input, and such an extra digit is a carry of 1. |
| Multiplicator.MultiplyArrayBySingleDigit | exercise_2/multiplicator.js:27-38 | The result is a digit array worth `digit` times the array. Digit 0 gives [0] and digit 1 a copy. Any other digit gives at least as many entries as the array, and no zero on top beyond that many entries. |
| Multiplicator.MultiplyArrays | exercise_2/multiplicator.js:41-59 | An empty input or a zero product gives [0]. For normalized inputs, the result is the normalized array of the product. |
| Multiplicator.ShiftStripAllZero | exercise_2/multiplicator.js:53-56 | The strip loop turns an all-zero array into [0]. |
| Multiplicator.StripDropsLowDigit | exercise_2/multiplicator.js:53-56 | The strip removes entries from the front, so the value 2 written as [2, 0] strips to [0]. |
| Multiplicator.Factorial | exercise_2/multiplicator.js:62-72 | `factorial(n)` is the normalized array of n!, and [1] for every n <= 1. |
| DigitArrays.ValBounds | exercise_2/multiplicator.js:12-24 | A digit array of length k is worth between 0 and 10^k - 1. |
| DigitArrays.ValShifted | exercise_2/multiplicator.js:49 | Putting i zeros in front multiplies the value by 10^i. |
| DigitArrays.TightSum | exercise_2/multiplicator.js:50 | If neither addend has a zero on top beyond its first n digits, neither does their sum from addArrays. |

## Left out

- Opening the log file and the `FileNotFoundError` re-raise (lines 17-18 and 37-38 of `process_logs.py`) are left out, because they are file I/O. The log is a sequence of lines given to `ProcessLogs`.
- The printed warnings are returned as a sequence of the stripped lines, not written to standard output.
- `save_report`, `_save_csv`, `_save_json`, the directory creation and the command-line `main` are left out, because they are serialization and I/O outside the aggregation.
- Percentages are exact rationals. Python's floating-point division and `round(..., 2)` are left out.
  - The guarded zero is `0.0` where Python yields the integer `0`.
  - The bounds in `LogReport.SharesInRange` are about the unrounded value.
- `str.strip`, `str.upper` and `int()` are modelled for ASCII only. Unicode whitespace, Unicode case mapping and non-ASCII digits are not modelled.
- PyText.ParseInt: accepts digit runs of any length. Since Python 3.11 (and the 3.7-3.10 security releases), `int()` raises ValueError for text of more than 4300 digits. On those versions, an OK line with such a byte field is a bad-byte line: its request is counted and a warning printed. The model credits the bytes instead.
- `sorted` is Timsort in Python. It is modelled as a stable insertion sort; every stable sort on this key yields the same sequence.
- The tie order follows the code. Clients with equal request counts stay in the order in which their first OK line was seen, not in order of their address. Line 28 creates a client's entry only for a four-field OK line, so a client first seen on a non-OK line takes its place at its first OK line.
- A line whose byte field `int()` rejects still has its request counted (line 28 runs before line 29 raises). This follows the code, although the warning text at line 34 ("wrong formatted line skipped") says such a line is skipped. `LogStats.BadBytesBreaksConsistent` states the consequence.
- The JavaScript `module.exports` and the sample `console.log` calls at the end of `multiplicator.js` are left out.
- `Multiplicator.NumberToArray` takes a natural number. `toString` of negative, fractional or very large JavaScript numbers (a minus sign, a decimal point, an exponent) is not modelled, and neither is floating-point precision.
- The array operations require entries that are decimal digits. JavaScript's `|| 0` fallback for `undefined`, `NaN` and other non-digit entries is not modelled.
- `Multiplicator.Factorial` takes an integer. Non-integer arguments are not modelled.
- JavaScript arrays become immutable sequences. The copies `[...arr]` and `slice()` are therefore values, and aliasing is not modelled.
- Multiplicator.MultiplyArrays: the value ensures holds only for normalized inputs. The strip loop removes the first (least significant) entry while the last is zero. An input with a zero on top can therefore lose low digits; `Multiplicator.StripDropsLowDigit` shows the case.
