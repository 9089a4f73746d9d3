# log_parser.py in Dafny

A model of the core of `log_parser.py`, a script that reads web-server access
log lines in the Common Log Format and extracts six named groups from each
line with one regular expression: `ip`, `timestamp`, `method`, `path`,
`status` and `size`. It then turns the extracted records into a table. Status
and size become integers, and the timestamp becomes an offset-aware date and
time. Finally it counts the status codes in ascending key order and gives
each code a colour class by its first digit.

The model has one module per stage:

| file | module | models |
|---|---|---|
| `chars.dfy` | `Chars` | the ASCII classes `\d`, `\w`, `\s`, `[\d\.]` and `.`, and the maximal run a greedy `+` takes |
| `log_pattern.dfy` | `LogPattern` | `log_pattern.search(line)` and `groupdict()`. A backtracking scanner implements them. It is proved to return the match that Python's `re` returns: the leftmost start and, at that start, the first match in backtracking order. A declarative definition of "a match" and of that order is given alongside. |
| `parse_log_file.dfy` | `LogFile` | the loop of `parse_log_file`: an imperative method over the lines of the file |
| `decimal.dfy` | `Decimal` | `int()` on digit strings, the int64 column `astype(int)` produces, and `str()` on integers |
| `timestamp.dfy` | `Timestamp` | `pd.to_datetime(..., format='%d/%b/%Y:%H:%M:%S %z')` on one cell, and the inverse `strftime` |
| `process_data.dfy` | `Coercion` | `process_data`: the all-or-nothing column conversions of a table held as one sequence per column |
| `status_report.dfy` | `StatusReport` | `value_counts().sort_index()` on the status column, the colour loop, and the empty-table case of `visualize_status_counts` |
| `example_line.dfy` | `ExampleLine` | the sample request line of the Common Log Format and the record extracted from it |
| `wrappers.dfy` | `Wrappers` | the `Option` type used for every failure path |

Python's `method` group is the field `verb` of `FieldMap`, because `method` is
a keyword in Dafny.

Four consequences of the code that the model makes explicit:

- The lazy groups `(?P<timestamp>.*?)` and `(?P<path>.*?)` (log_parser.py:13,
  15) can match the empty string, so `WellShaped` requires only ip, method,
  status and size to be non-empty.
- `astype(int)` (log_parser.py:46-47) drops leading zeros.
  `Decimal.TextOfValue` proves `str(int(s)) == s` for digits without a
  leading zero, and `Decimal.LeadingZerosAreLost` shows that "0532" becomes
  532, which is written "532".
- `astype(int)` yields an int64 column, so one captured digit run above
  2^63 - 1 makes the conversion of the whole column fail
  (`Coercion.CapturedNumberConverts`).
- `pd.to_datetime` with a format (log_parser.py:50) reads the empty string
  and "NaT", "nat", "NAT", "nan", "NaN", "NAN" as missing values (`NaT`)
  instead of parsing them. An empty timestamp group therefore gives a `NaT`
  cell, not a failure (`Timestamp.ToDatetime`).

The cell format `%d/%b/%Y:%H:%M:%S %z` is described declaratively by
`Timestamp.Renders`: the cell is the text of each field joined by the format's
literals, each field's text being one that strptime's regular expression for
its directive accepts. `Timestamp.ParseTimestampExactly` proves that
`ParseTimestamp` accepts a cell and returns an instant exactly when the cell
renders that instant and the instant is a real date and time.

## Model

| member | source | states |
|---|---|---|
| Chars.RunEnd | log_parser.py:11-19 | the run a greedy `[\d\.]+`, `\w+` or `\d+` consumes from a position: every character in it is of the class, and the character after it is not |
| Chars.RunEndIsForced | log_parser.py:11-19 | a run of a class followed by a character outside it is exactly the greedy run, so backtracking into a greedy group followed by `\s` cannot succeed |
| LogPattern.IpEnd | log_parser.py:11-12 | where `(?P<ip>[\d\.]+)\s-\s-\s\[` at a start ends: a non-empty run of ip characters followed by the separator |
| LogPattern.TryTs | log_parser.py:13 | the lazy timestamp `.*?\]`: the result keeps the start and ip and closes the timestamp no earlier than the position tried |
| LogPattern.MethodEnd | log_parser.py:13-15 | `\]\s"(?P<method>\w+)\s` at the closing bracket: the method is a non-empty word run followed by whitespace |
| LogPattern.TryMethod | log_parser.py:15 | the method and then the path, keeping start, ip and timestamp |
| LogPattern.TryPath | log_parser.py:15 | the lazy path `.*?\sHTTP/`: the result keeps everything up to the method and ends the path no earlier than the position tried |
| LogPattern.TryVersion | log_parser.py:15 | the lazy version `.*?"`: the result keeps everything up to the path and closes the version no earlier than the position tried |
| LogPattern.TryTail | log_parser.py:16-19 | `"\s(?P<status>\d+)\s(?P<size>\d+)` after the version, keeping every earlier group |
| LogPattern.MatchAt | log_parser.py:10-20 | the pattern anchored at one start; a result starts there |
| LogPattern.FirstFrom | log_parser.py:28 | the first position in a range where an attempt succeeds: no earlier position succeeds, and none in the range when there is no result |
| LogPattern.Search | log_parser.py:28 | `log_pattern.search`: the result is the anchored match at its own start, and that start lies in the line |
| LogPattern.TryTailSound | log_parser.py:16-19 | what the status/size step reports satisfies that part of the pattern |
| LogPattern.TryVersionSound | log_parser.py:15-19 | what the lazy version reports satisfies the pattern from `\sHTTP/` on |
| LogPattern.TryPathSound | log_parser.py:15-19 | what the lazy path reports satisfies the pattern from the path on |
| LogPattern.TryMethodSound | log_parser.py:13-19 | what the method step reports satisfies the pattern from `\]` on |
| LogPattern.TryTsSound | log_parser.py:13-19 | what the lazy timestamp reports satisfies the pattern from the timestamp on |
| LogPattern.MatchAtSound | log_parser.py:10-20 | every anchored result is a match of the whole pattern |
| LogPattern.Captures | log_parser.py:11-19 | `groupdict()` of a match: ip a non-empty run of digits and dots, method a non-empty word run, status and size non-empty digit runs, timestamp and path without a line feed |
| LogPattern.MatchLine | log_parser.py:10-20 | a record extracted from a line has the shape above |
| LogPattern.ForcedGroups | log_parser.py:11-17 | two matches at one start share the ip group; with the same timestamp they share the method; with the same version they share the status |
| LogPattern.TryTailFirst | log_parser.py:16-19 | the status/size step succeeds for every match that agrees up to the version, with the longest size |
| LogPattern.TryVersionFirst | log_parser.py:15-19 | the lazy version finds every match that agrees up to the path, with no longer version than it |
| LogPattern.TryPathFirst | log_parser.py:15-19 | the lazy path finds every match that agrees up to the method, with no longer path than it |
| LogPattern.MethodEndForced | log_parser.py:15 | a word run followed by whitespace after `]\s"` is where the method group ends |
| LogPattern.TryMethodFirst | log_parser.py:13-19 | the method step finds every match that agrees up to the timestamp, tried no later than it |
| LogPattern.TryTsFirst | log_parser.py:13-19 | the lazy timestamp finds every match that agrees up to the ip, tried no later than it |
| LogPattern.MatchAtFirst | log_parser.py:10-20 | at the start of any match the anchored scan succeeds and returns a match tried no later |
| LogPattern.SearchFirst | log_parser.py:28 | the search finds a match whenever one starts at or after its position; it starts no later and, at the same start, is tried no later |
| LogPattern.FirstMatchShortestPath | log_parser.py:15 | in the reported match the path is followed by whitespace and `HTTP/`, and no match at the same start with the same timestamp has a shorter path |
| LogPattern.FirstMatchUnique | log_parser.py:28 | the backtracking order admits at most one first match |
| LogPattern.MatchLineMeansSearch | log_parser.py:28-30 | a line yields a record exactly when the pattern matches somewhere in it, and the record holds the groups of the match `re.search` reports |
| ExampleLine.SampleMatches | log_parser.py:10-20 | the pattern matches `192.168.1.1 - - [10/Oct/2023:13:55:36 -0700] "GET /index.html HTTP/1.1" 200 532` with its pieces ending at 11, 43, 49, 61, 70, 75 and 79 |
| ExampleLine.SampleSearch | log_parser.py:28 | `log_pattern.search` on that line reports exactly that match |
| ExampleLine.SampleRecord | log_parser.py:28-30 | `groupdict()` of that line is ip "192.168.1.1", timestamp "10/Oct/2023:13:55:36 -0700", method "GET", path "/index.html", status "200", size "532" |
| LogFile.ParseLogFile | log_parser.py:24-30 | the loop appends the groups of each matching line, in order, and skips the others |
| LogFile.Extracted | log_parser.py:27-30 | at most one record per line, each with the shape of the pattern's groups |
| LogFile.ExtractedLength | log_parser.py:24-30 | one record per matching line, never more records than lines |
| LogFile.MatchingLinesAscending | log_parser.py:27-30 | the matching lines are listed in strictly increasing line order, each a line of the input |
| LogFile.ExtractedKeepsMatchingLines | log_parser.py:27-30 | record i holds the groups of the i-th matching line |
| LogFile.MatchingLinesComplete | log_parser.py:27-30 | every line that matches is listed |
| LogFile.ExtractedConcat | log_parser.py:27-30 | a non-matching line does not stop the loop: the records of two stretches of lines are the records of each, concatenated |
| LogFile.NothingMatches | log_parser.py:24-34 | a file where no line matches yields an empty list |
| Decimal.DigitChar | log_parser.py:70 | the digit character of a value 0..9 is a digit with that value |
| Decimal.DecimalValue | log_parser.py:46-47 | the value of a digit string is 0 exactly when every digit is 0 |
| Decimal.DecimalText | log_parser.py:70 | `str()` of an int is non-empty, starts with `-` exactly when the int is negative, and is all digits otherwise |
| Decimal.ValueOfOneDigit | log_parser.py:50 | one digit has its own value |
| Decimal.ValueOfTwoDigits | log_parser.py:50 | two digits have the value ten times the first plus the second |
| Decimal.ValueOfFourDigits | log_parser.py:50 | four digits have the value of their first two times 100 plus that of their last two |
| Decimal.NatText | log_parser.py:70 | `str()` of a non-negative int is a non-empty digit string |
| Decimal.ToInt | log_parser.py:46-47 | a cell converts exactly when it is a non-empty digit string whose value fits the int64 column, and then to that value |
| Decimal.NatTextCanonical | log_parser.py:70 | `str(n)` has no leading zero, starts with the leading digit of n, and is one character long exactly for n < 10 |
| Decimal.ValueOfText | log_parser.py:46-47 | `int(str(n)) == n` |
| Decimal.ToIntOfText | log_parser.py:46-47 | every value of the int64 column is the conversion of its own decimal text |
| Decimal.TextOfValue | log_parser.py:46-47 | `str(int(s)) == s` for digits with no leading zero |
| Decimal.LeadingZerosAreLost | log_parser.py:46-47 | "0532" converts to 532, whose text is "532": the captured digits are not always recovered |
| Decimal.LeadingDigitOfThreeDigits | log_parser.py:71-78 | for a three-digit code the leading digit is the hundreds digit |
| Timestamp.DaysInMonth | log_parser.py:50 | every month has 28 to 31 days |
| Timestamp.Lit | log_parser.py:50 | a literal of the format is accepted exactly when it is the next character, and is consumed |
| Timestamp.Small | log_parser.py:50 | `%H`, `%M`, `%S`: a result lies in the directive's range and consumes input. Two leading digits with a value in range are read as that value; a single digit in range that no digit follows is read alone. |
| Timestamp.SmallSound | log_parser.py:50 | what `%H`, `%M` or `%S` consumes is one or two digits whose value is the result |
| Timestamp.SmallOfText | log_parser.py:50 | one or two digits with a value in range, followed by a non-digit, are consumed and give that value |
| Timestamp.Day | log_parser.py:50 | `%d`: a result is a day from 1 to 31 and consumes input. A space and a non-zero digit are read as that day; text that starts with a digit is read as a one- or two-digit field in 1..31. |
| Timestamp.DaySound | log_parser.py:50 | what `%d` consumes is one or two digits, or a space and a digit, whose value is the day |
| Timestamp.DayOfText | log_parser.py:50 | any text `%d` admits for a day 1..31, followed by a non-digit, is consumed and gives that day |
| Timestamp.FindMonth | log_parser.py:50 | the month found matches the text ignoring case; no month is found only when none matches |
| Timestamp.Month | log_parser.py:50 | `%b`: a result is a month 1..12 whose English abbreviation equals the next three characters ignoring ASCII case, and those three are consumed. Every such abbreviation is accepted with its month. |
| Timestamp.FindMonthOfText | log_parser.py:50 | the month search finds the month of any text that equals an abbreviation ignoring case |
| Timestamp.MonthOfText | log_parser.py:50 | a month abbreviation in any case is consumed and gives its month |
| Timestamp.Year | log_parser.py:50 | `%Y`: accepted exactly when the text starts with four digits, which are consumed |
| Timestamp.YearSound | log_parser.py:50 | what `%Y` consumes is four digits whose value is the year |
| Timestamp.YearComplete | log_parser.py:50 | four leading digits are consumed and give their value |
| Timestamp.YearOfText | log_parser.py:50 | a four-digit year text is consumed and gives its value |
| Timestamp.Spaces | log_parser.py:50 | the space of the format, `\s+`: accepted exactly when the text starts with whitespace, and then the whole whitespace run is consumed |
| Timestamp.SpacesSound | log_parser.py:50 | what the space consumes is non-empty whitespace, and the text after it does not start with whitespace |
| Timestamp.SpacesOfText | log_parser.py:50 | a whitespace run followed by a non-space is consumed |
| Timestamp.Offset | log_parser.py:50 | `%z`: a result is an offset under 24 hours whose text `[+-]HH:?MM` (MM below 60) is the whole rest of the cell, in signed minutes. Every such text is accepted with its value. |
| Timestamp.DayAndMonth | log_parser.py:50 | `%d/%b`: a day 1..31 and a month 1..12 |
| Timestamp.DayAndMonthSound | log_parser.py:50 | what `%d/%b` consumes is a day text and a month text joined by `/` for the fields returned |
| Timestamp.DayAndMonthOfText | log_parser.py:50 | a day text and a month text joined by `/` are consumed and give that day and month |
| Timestamp.DatePart | log_parser.py:50 | `%d/%b/%Y`: a day 1..31, a month 1..12 and a year up to 9999 |
| Timestamp.DatePartSound | log_parser.py:50 | what `%d/%b/%Y` consumes is a day, month and year text joined by `/` for the fields returned |
| Timestamp.DatePartOfText | log_parser.py:50 | day, month and year texts joined by `/` are consumed and give those fields |
| Timestamp.TimeOfDay | log_parser.py:50 | `%H:%M:%S`: hour, minute and second in range |
| Timestamp.TimeOfDaySound | log_parser.py:50 | what `%H:%M:%S` consumes is three number texts joined by `:` for the fields returned |
| Timestamp.Zone | log_parser.py:50 | the space and `%z`: an offset under 24 hours |
| Timestamp.ZoneSound | log_parser.py:50 | what the space and `%z` consume is a whitespace run and an offset text for the offset returned, and it is the whole rest of the cell |
| Timestamp.ClockPart | log_parser.py:50 | `%H:%M:%S %z`: the clock fields in range and an offset under 24 hours |
| Timestamp.ClockPartSound | log_parser.py:50 | the text `%H:%M:%S %z` accepts is the clock fields' texts, `:` between them, whitespace and the offset text, and nothing else |
| Timestamp.ClockPartOfText | log_parser.py:50 | clock field texts, whitespace and an offset text in that order are accepted and give those fields |
| Timestamp.ParseTimestamp | log_parser.py:50 | every accepted cell is a real date and time: year 1..9999, a day within its month, hour, minute and second in range, and an offset under 24 hours |
| Timestamp.ParseTimestampSound | log_parser.py:50 | an accepted cell is the join of field texts that render the result |
| Timestamp.ParseTimestampComplete | log_parser.py:50 | the join of field texts that render a real date and time is accepted and gives it |
| Timestamp.ParseTimestampExactly | log_parser.py:50 | a cell parses to an instant exactly when the instant is a real date and time and the cell is the join of field texts that render it |
| Timestamp.ToDatetime | log_parser.py:50 | `pd.to_datetime` on one cell: the seven missing-value strings give `NaT`; any other cell gives the instant it parses to, and fails exactly when it does not parse |
| Timestamp.NatStringsAreNoDates | log_parser.py:50 | none of the missing-value strings parses as a timestamp, so reading them as `NaT` hides no date |
| Timestamp.SmallOfPad2 | log_parser.py:50 | a two-digit field written with a leading zero parses back to its value |
| Timestamp.DayOfPad2 | log_parser.py:50 | a written day parses back |
| Timestamp.YearOfPad4 | log_parser.py:50 | a written four-digit year parses back |
| Timestamp.LitOf | log_parser.py:50 | a literal character is consumed |
| Timestamp.MonthNamesDiffer | log_parser.py:50 | no two month abbreviations are equal ignoring case |
| Timestamp.MonthOfName | log_parser.py:50 | each month's abbreviation parses back to its number |
| Timestamp.SpacesOfOne | log_parser.py:50 | one space before a non-space is consumed |
| Timestamp.OffsetOfText | log_parser.py:50 | a written offset parses back to the same number of minutes |
| Timestamp.Pad2Text | log_parser.py:50 | a field written with two digits is a text `%d`, `%H`, `%M` and `%S` accept for its value |
| Timestamp.Pad4Text | log_parser.py:50 | a year written with four digits is a text `%Y` accepts for its value |
| Timestamp.OffsetTextZone | log_parser.py:50 | a written offset is a text `%z` accepts for the same number of minutes |
| Timestamp.FormattedDate | log_parser.py:50 | the date of a written instant is read back field by field, leaving the written clock |
| Timestamp.FormattedClock | log_parser.py:50 | the written clock and offset are read back unchanged |
| Timestamp.ParseFormatted | log_parser.py:50 | text in the log format is accepted exactly when it names a real date (year at least 1, day within its month), and then yields every field and the offset unchanged |
| Timestamp.ParseFormatTimestamp | log_parser.py:50 | parsing the text written for any valid instant gives that instant back |
| Timestamp.ExampleTimestamp | log_parser.py:50 | "10/Oct/2023:13:55:36 -0700" is 13:55:36 on 10 October 2023 at UTC-7 (offset -420 minutes) |
| Timestamp.LooseExample | log_parser.py:50 | strptime's looser forms are accepted: " 5/oCT/2023:1:2:3 \t+07:30" is 01:02:03 on 5 October 2023 at UTC+7:30 (offset 450 minutes) |
| Timestamp.NotAMonth | log_parser.py:50 | text that starts with no month name is refused by `%b` |
| Timestamp.UnknownMonthRejected | log_parser.py:50 | a timestamp whose month field is no English month abbreviation is refused, whatever follows |
| Timestamp.FooIsNoMonth | log_parser.py:50 | "Foo" is no month abbreviation in any case |
| Timestamp.LeapDay | log_parser.py:50 | the 29th of February is accepted exactly in leap years |
| Coercion.CapturedNumberConverts | log_parser.py:46-47 | a captured digit run converts exactly when its value fits int64, and then to its non-negative decimal value |
| Coercion.CapturedRowConverts | log_parser.py:46-47 | status and size of every extracted record convert unless their value exceeds int64 |
| Coercion.ConvertColumn | log_parser.py:46-50 | a column converts exactly when every cell does, and then cell by cell, in order |
| Coercion.ProcessData | log_parser.py:39-52 | no records give the empty table. Otherwise the table exists exactly when every row converts. It then has one row per record, in order, with ip, method and path copied, status and size converted to int64 and the timestamp by `ToDatetime`, so a missing-value string becomes `NaT`. |
| StatusReport.CountOfAbsent | log_parser.py:63 | a code that is not a key has count 0 |
| StatusReport.CountOfKey | log_parser.py:63 | in an ascending series the count of a key is the one stored with it |
| StatusReport.CountOfPresent | log_parser.py:63 | a positive count means the code is a key |
| StatusReport.AddOneOrdered | log_parser.py:63 | counting one more record keeps the keys strictly ascending and the counts positive |
| StatusReport.AddOneCountOf | log_parser.py:63 | counting one more record raises the count of its code by one and no other |
| StatusReport.AddOneTotal | log_parser.py:63 | counting one more record raises the total by one |
| StatusReport.AddOne | log_parser.py:63 | counting one more record adds at most one key |
| StatusReport.ValueCounts | log_parser.py:63 | `value_counts().sort_index()`: at most one entry per record, and no entry exactly when the column is empty |
| StatusReport.ValueCountsOrdered | log_parser.py:63 | `sort_index()`: keys strictly ascending, every count at least 1 |
| StatusReport.ValueCountsCountOf | log_parser.py:63 | the count of each code is its number of occurrences in the column |
| StatusReport.ValueCountsTotal | log_parser.py:63 | the counts sum to the number of records |
| StatusReport.ValueCountsCorrect | log_parser.py:63 | all three at once: ascending distinct keys, positive counts equal to the occurrences, and a total equal to the number of records |
| StatusReport.ValueCountsKeys | log_parser.py:63 | every key is a code of the column with its multiplicity, and every code of the column is a key |
| StatusReport.SeriesDeterminedByCounts | log_parser.py:63 | an ascending series with positive counts is determined by its counts |
| StatusReport.ValueCountsIgnoreOrder | log_parser.py:63 | the counted series does not depend on the order of the records |
| StatusReport.ValueCountsOfOneCode | log_parser.py:63 | N records with one code give one entry with count N |
| StatusReport.ClassOfLeadingDigit | log_parser.py:69-80 | the colour class is chosen by the first character of the code's decimal text: its leading digit, or Other for a negative code |
| StatusReport.ClassOf | log_parser.py:69-80 | a negative code, whose text starts with `-`, gets the class Other |
| StatusReport.ClassOfHttpStatus | log_parser.py:67-80 | for three-digit codes: 2xx success, 3xx redirect, 4xx client error, 5xx server error, anything else other |
| StatusReport.StatusColors | log_parser.py:68-80 | the colour loop gives one class per key, in key order |
| StatusReport.VisualizeStatusCounts | log_parser.py:57-82 | no chart for an empty table. Otherwise the bars are the counted series, non-empty and ascending, with one colour class per bar. |

## Left out

- Opening and reading the file, and the `FileNotFoundError` branch that prints and returns `[]` (log_parser.py:25-26, 31-33). The file is a sequence of lines given to `LogFile.ParseLogFile`.
- Matplotlib drawing: the figure, `bar`, labels, title, grid and `savefig` (log_parser.py:65, 82-93). Only the bars' keys, counts and colour classes are modelled.
- The hex colour strings (log_parser.py:72-80). They are the five values of `StatusClass`.
- The output file names built from `datetime.now()`, the CSV export, the `__main__` block and every `print` (log_parser.py:91-93, 98-119). These are wall-clock time and I/O.
- The general regular-expression engine. Only this one pattern is modelled, by a scanner written for it.
- Unicode matching of `\d`, `\w` and `\s` in the log pattern, and Unicode digits in `int()`. Only ASCII is modelled.
- Unicode matching in strptime's regular expressions: the Unicode `\d` of `%d`, `%Y`, `%H`, `%M` and `%S`, the Unicode `\s+` that stands for the space of the format, and the case-insensitive Unicode matching of `%b`, under which for instance 'ſ' (U+017F) matches the `s` of "Sep". The model reads ASCII digits and whitespace and folds ASCII case only.
- pandas' other missing-value inputs (`None`, float NaN) and the column dtype. Every cell captured by the pattern is a string, so only the missing-value strings are modelled.
- The forms `int()` accepts beyond plain digits (sign, surrounding whitespace, underscores). The pattern only captures digit runs, so these never reach the conversion.
- Coercion.ConvertColumn: the model fails when the first cell fails. Python reports which cell and why; the model does not.
- Timestamp.ParseTimestamp: seconds 60 and 61, `Z` and offsets with seconds in `%z`, and month names of non-English locales are not accepted by this model, although strptime accepts some of them.
- Timestamp.ParseTimestamp: pandas' range limit for nanosecond timestamps (years 1677 to 2262) is not modelled. Offsets are kept per cell; how pandas stores a column whose rows have different offsets is not modelled.
- Decimal.ToInt: the 64-bit width of `astype(int)` is assumed, as on 64-bit platforms.
- Pandas internals. A table is one sequence per column, and an empty table is one with no rows.
