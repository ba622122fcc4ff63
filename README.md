# WhatsApp chat viewer: a verified model of its transcript logic

`whatsapp_chat_viewer.py` is a Streamlit page that reads an exported WhatsApp
transcript and shows it as chat bubbles. This project models the page's logic that is not
presentation, and proves properties about it:

- **`parse_chat`, the transcript parser.** Each line is stripped and matched against the
  header pattern `^(\d{1,2}/\d{1,2}/\d{2,4}), (\d{1,2}:\d{2})\s?(am|pm)? - (.*?): (.*)`
  (case-insensitive).
  - When the line matches, the date and time are decoded by trying `"%d/%m/%y %I:%M %p"` and
    then `"%d/%m/%y %H:%M"`. A decoded header opens a new record: timestamp, stripped sender,
    stripped message. A header that neither format accepts is dropped.
  - Any other line is appended, after a newline, to the message of the last record. When
    there is no record yet, it is dropped.
- **The sender list.** `unique()` of the sender column: distinct senders in the order they
  first speak.
- **The filter.** The first mask keeps a selected sender and a date between the start and
  end dates. The second mask, applied only when a query was typed, keeps messages that
  contain the query, ignoring case. The defaults are all senders and the first to last date.
  A single picked date is both start and end.
- **The time label.** `strftime("%I:%M %p").lstrip("0")`.

Modules:

| file | module | contents |
|---|---|---|
| `wrappers.dfy` | `Wrappers` | `Option`, with the failure-propagation members `:-` needs |
| `text.dfy` | `Text` | Python's whitespace set, `str.strip()`, ASCII case mapping, substring search, `%02d`, `lstrip("0")` |
| `header.dfy` | `HeaderPattern` | the header pattern as a staged, deterministic matcher, with the text it covers (`Render`) |
| `timestamp.dfy` | `Timestamps` | the two `strptime` formats, calendar rules and the `%y` pivot |
| `transcript.dfy` | `Transcript` | the pure specification `Parse` and the loop `ParseChat` proved equal to it |
| `scenarios.dfy` | `Scenarios` | rendered header lines through the parser, and worked examples |
| `viewer.dfy` | `Viewer` | sender list, date bounds, the two filter masks, the time label |

The parser is modelled twice. `Transcript.ParseChat` is a method with the source's loop. It
grows a sequence of records and rewrites its last element on a continuation line. Its
postcondition ties the result to `Transcript.Parse`, a fold of `Step` over the classified
lines, and the properties are proved about `Parse`.

Some behaviour of the code is easy to miss:

- A continuation appends the *stripped* line (`line` is reassigned by `line.strip()`
  before the `elif`), not the raw line.
- The sender group `(.*?)` may be empty, so `"01/02/23, 10:30 - : hi"` opens a record with
  sender `""`.
- A four-digit year passes the pattern (`\d{2,4}`), but `%y` takes exactly two digits, and
  the format's space then meets the year's third digit. Such a header is therefore always
  dropped.
- The pattern keeps the time and the meridiem apart. A header with a meridiem is accepted
  by the 12-hour format or by neither: in the 24-hour format the meridiem is unconverted
  data.

## Model

| member | source | states |
|---|---|---|
| `Text.Strip` | whatsapp_chat_viewer.py:18 | `str.strip()`; specified by `StripSpec`, `StripStripped` and `StripIdempotent` |
| `Text.StripSpec` | whatsapp_chat_viewer.py:18 | `Strip(s)` has no whitespace at either end (Python's `str.isspace` set) and is `s` with only whitespace removed at the two ends |
| `Text.StripStripped` | whatsapp_chat_viewer.py:18 | a string with no whitespace at either end is its own strip |
| `Text.StripIdempotent` | whatsapp_chat_viewer.py:18 | stripping twice is stripping once |
| `Text.ContainsIff` | whatsapp_chat_viewer.py:107 | the literal search holds exactly when the needle occurs at some position |
| `Text.Contains` | whatsapp_chat_viewer.py:107 | literal substring search; specified by `ContainsIff` |
| `Text.DigitRun` | whatsapp_chat_viewer.py:14 | the greedy `\d` run: a digit prefix that cannot be extended |
| `Text.Pad2` | whatsapp_chat_viewer.py:45 | `%02d`: two digits whose value is the number |
| `Text.Pad2OfValue` | whatsapp_chat_viewer.py:24 | every two-digit field is the `%02d` text of its own value (so `%y` sees 00-99) |
| `Text.StripLeading` | whatsapp_chat_viewer.py:45 | `lstrip(c)` leaves a suffix of the string that does not start with `c`, and everything removed is `c` |
| `Text.Unpadded` | whatsapp_chat_viewer.py:45 | a number below 100 in one or two digits, no leading zero, with that value |
| `Text.UnpaddedOfDigits` | whatsapp_chat_viewer.py:45 | `lstrip("0")` of a one- or two-digit field with a positive value is that value without padding |
| `HeaderPattern.Digits` | whatsapp_chat_viewer.py:14 | `\d{lo,hi}` followed by what remains: between `lo` and `hi` digits, the input is the digits followed by the rest |
| `HeaderPattern.MatchDate` | whatsapp_chat_viewer.py:14 | the date group `\d{1,2}/\d{1,2}/\d{2,4}` and `", "`: the fields and the rest re-assemble the input |
| `HeaderPattern.MatchTime` | whatsapp_chat_viewer.py:14 | the time group `\d{1,2}:\d{2}`: the fields and the rest re-assemble the input |
| `HeaderPattern.MatchSeparator` | whatsapp_chat_viewer.py:14 | `\s?(am\|pm)? - `: an optional whitespace, an optional case-insensitive meridiem, then `" - "` |
| `HeaderPattern.SplitSender` | whatsapp_chat_viewer.py:14 | `(.*?): `: the sender has no newline and no `": "`, so the split is at the first `": "` |
| `HeaderPattern.Render` | whatsapp_chat_viewer.py:14 | the text a match covers; `MatchHeader` and `MatchHeaderRender` make it the pattern's inverse |
| `HeaderPattern.DigitsOf` | whatsapp_chat_viewer.py:14 | a run of `lo` to `hi` digits before a non-digit is read back as written |
| `HeaderPattern.MatchDateOf` | whatsapp_chat_viewer.py:14 | day, month and year digit groups with their separators are read back as written |
| `HeaderPattern.MatchTimeOf` | whatsapp_chat_viewer.py:14 | an hour of one or two digits and a two-digit minute are read back as written |
| `HeaderPattern.MatchHeader` | whatsapp_chat_viewer.py:14-21 | a match gives well-formed groups, and the line is the text they render followed by nothing or by a newline |
| `HeaderPattern.RenderTail` | whatsapp_chat_viewer.py:14 | the matched text followed by a tail is the rendering followed by that tail |
| `HeaderPattern.MatchSeparatorOf` | whatsapp_chat_viewer.py:14 | each of the four separator forms is read back as written |
| `HeaderPattern.SplitSenderOf` | whatsapp_chat_viewer.py:14 | a sender with no newline and no `": "` is split back off the line |
| `HeaderPattern.LineEndOf` | whatsapp_chat_viewer.py:14 | `(.*)` stops at the first newline |
| `HeaderPattern.NoDigitNoHeader` | whatsapp_chat_viewer.py:14 | the pattern starts with `^\d`: a line that does not start with a digit never matches |
| `HeaderPattern.MatchHeaderRender` | whatsapp_chat_viewer.py:14-21 | round trip: every well-formed group tuple, rendered and followed by nothing or a newline, matches back to itself |
| `Timestamps.CalendarDate` | whatsapp_chat_viewer.py:24-27 | `%d/%m/%y`: a date in 1969-2068 that exists in the calendar |
| `Timestamps.TwelveHourFormat` | whatsapp_chat_viewer.py:24 | the first format produces only valid timestamps |
| `Timestamps.TwentyFourHourFormat` | whatsapp_chat_viewer.py:27 | the second format produces only valid timestamps |
| `Timestamps.Decode` | whatsapp_chat_viewer.py:22-29 | the decoded timestamp is a real date and time |
| `Timestamps.DecodeTwelveHour` | whatsapp_chat_viewer.py:22-24 | with a meridiem: decodes iff the date exists, the hour is 1-12 and the minute 0-59; the hour is the field modulo 12, afternoon exactly for pm |
| `Timestamps.DecodeTwentyFourHour` | whatsapp_chat_viewer.py:22-27 | without a meridiem: decodes iff the date exists, the hour is 0-23 and the minute 0-59; hour and minute are the fields' values |
| `Timestamps.DecodeDate` | whatsapp_chat_viewer.py:24-27 | the decoded date is the day, month and two-digit year of the fields, with the year 20yy for yy up to 68 and 19yy above |
| `Timestamps.DecodeWithTimestamp` | whatsapp_chat_viewer.py:22-29 | round trip: every valid timestamp, written with zero-padded fields, on the 12-hour clock with a lower-case meridiem or on the 24-hour clock, decodes to itself |
| `Timestamps.ClockHour` | whatsapp_chat_viewer.py:24 | `%I` with `%p`: an hour 1-12 becomes an hour 0-23 in the same position on the clock, in the afternoon exactly for pm |
| `Timestamps.ClockHourOf` | whatsapp_chat_viewer.py:24 | `%I` with `%p` (12 am is 0, h pm is h+12) inverts the 12-hour clock |
| `Transcript.Classify` | whatsapp_chat_viewer.py:18-36 | what one pass of the loop body does with a line; specified by `ClassifyValid` and `ClassifyKinds` |
| `Transcript.Step` | whatsapp_chat_viewer.py:30-36 | the table after one line: append, leave alone, or extend the last message; specified by `StepExtended` and `RunContinuations` |
| `Transcript.Parse` | whatsapp_chat_viewer.py:13-38 | the table `parse_chat` returns; specified by `ParseHeads`, `ParseContinuations`, `ParseSkipped`, `ParseStart`, `ParseMessageBody` and `ParseRecordsValid` |
| `Transcript.MapSeqAppend` | whatsapp_chat_viewer.py:17 | classifying the lines of a concatenation is concatenating the classifications |
| `Transcript.ParseSnoc` | whatsapp_chat_viewer.py:17-36 | parsing one more line is one more step of the loop |
| `Transcript.ClassifyValid` | whatsapp_chat_viewer.py:18-36 | a line opens a record with a valid timestamp and stripped sender and message, or continues with its stripped text |
| `Transcript.ClassifyKinds` | whatsapp_chat_viewer.py:19-35 | a line continues iff its stripped text does not match; it is skipped iff it matches and no format decodes it |
| `Transcript.RunRecordsValid` | whatsapp_chat_viewer.py:30-36 | the fold keeps every record's timestamp valid and sender stripped |
| `Transcript.ParseRecordsValid` | whatsapp_chat_viewer.py:13-38 | every record has a valid timestamp and a stripped sender |
| `Transcript.Opened` | whatsapp_chat_viewer.py:30 | at most one opened record per line |
| `Transcript.RunHeads` | whatsapp_chat_viewer.py:30-36 | the fold's timestamps and senders are those of the opening headers, in order |
| `Transcript.ParseHeads` | whatsapp_chat_viewer.py:13-38 | one record per decodable header line, in input order, never more records than lines; continuations change only messages |
| `Transcript.StepExtended` | whatsapp_chat_viewer.py:36 | a continuation after earlier ones extends the same message further |
| `Transcript.RunContinuations` | whatsapp_chat_viewer.py:35-36 | continuation steps add a newline and each text to the last message only, or do nothing before the first record |
| `Transcript.KindsOfContinuations` | whatsapp_chat_viewer.py:18-35 | lines that do not match are classified as their stripped texts |
| `Transcript.ParseContinuations` | whatsapp_chat_viewer.py:17-36 | non-header lines are dropped before the first record; after it they extend only the last message, each by a newline and the stripped line |
| `Transcript.ParseSkipped` | whatsapp_chat_viewer.py:23-29 | a header whose timestamp neither format accepts leaves the table unchanged |
| `Transcript.ParseStart` | whatsapp_chat_viewer.py:30-34 | a header with a valid timestamp appends exactly its record |
| `Transcript.ContinuedJoin` | whatsapp_chat_viewer.py:36 | a message followed by its continuations is those texts joined by newlines |
| `Transcript.ParseMessageBody` | whatsapp_chat_viewer.py:17-36 | a header followed by N non-header lines adds one record whose message is the header's message and the stripped lines joined by newlines |
| `Transcript.ParseChat` | whatsapp_chat_viewer.py:13-38 | the loop returns `Parse(lines)` |
| `Transcript.ParseLine` | whatsapp_chat_viewer.py:18-36 | one pass of the loop body is one `Step`, with the two formats tried in order and `continue` on failure |
| `Scenarios.ClassifyRendered` | whatsapp_chat_viewer.py:18-34 | a stripped rendered header opens the record of its decoded timestamp, or is skipped |
| `Scenarios.ParseRenderedMessage` | whatsapp_chat_viewer.py:17-36 | a rendered, decodable header and non-header lines add one record with sender and joined body |
| `Scenarios.ParseRenderedDropped` | whatsapp_chat_viewer.py:23-29 | a rendered header that does not decode leaves the table as it was |
| `Scenarios.ScenarioSingleMessage` | whatsapp_chat_viewer.py:14-34 | `"01/02/23, 10:30 am - Alice: Hello"` gives one record: Alice, Hello, 1 February 2023 10:30 |
| `Scenarios.ScenarioContinuation` | whatsapp_chat_viewer.py:35-36 | a following plain line is joined to the message with a newline |
| `Scenarios.ScenarioBadDateDropped` | whatsapp_chat_viewer.py:23-29 | a header dated 31/04 after a message adds nothing and leaves that message alone |
| `Scenarios.ParseFirstPlain` | whatsapp_chat_viewer.py:35 | a stripped first line that does not start with a digit gives no record |
| `Scenarios.ScenarioNoHeader` | whatsapp_chat_viewer.py:35 | a first line that is not a header gives no record |
| `Scenarios.ScenarioColonInMessage` | whatsapp_chat_viewer.py:14 | the sender stops at the first `": "`; the second belongs to the message |
| `Scenarios.ScenarioEmptySender` | whatsapp_chat_viewer.py:14-32 | an empty sender group opens a record with an empty sender |
| `Scenarios.RejectsDayForty` | whatsapp_chat_viewer.py:24-27 | day 40 is rejected |
| `Scenarios.RejectsThirtyFirstApril` | whatsapp_chat_viewer.py:24-27 | 31/04 is rejected |
| `Scenarios.RejectsLeapDayOf2023` | whatsapp_chat_viewer.py:24-27 | 29/02/23 is rejected |
| `Scenarios.RejectsFourDigitYear` | whatsapp_chat_viewer.py:14-27 | a four-digit year is rejected |
| `Scenarios.RejectsThirteenPm` | whatsapp_chat_viewer.py:24-27 | 13 pm is rejected by both formats |
| `Scenarios.RejectsHourTwentyFour` | whatsapp_chat_viewer.py:27 | 24:00 is rejected |
| `Scenarios.RejectsMinuteSixty` | whatsapp_chat_viewer.py:24-27 | minute 60 is rejected |
| `Scenarios.AcceptsTwentyFourHour` | whatsapp_chat_viewer.py:27 | 29/02/24 7:05 is accepted on the 24-hour clock |
| `Scenarios.AcceptsPaddedTwentyFourHour` | whatsapp_chat_viewer.py:27 | 29/02/24 07:05, with the hour zero-padded, gives the same timestamp |
| `Scenarios.AcceptsMidnight` | whatsapp_chat_viewer.py:24 | 12 AM is hour 0, and yy 69 is 1969 |
| `Scenarios.AcceptsNoon` | whatsapp_chat_viewer.py:24 | 12 Pm is hour 12, and yy 68 is 2068 |
| `Viewer.FirstIndex` | whatsapp_chat_viewer.py:85 | the position of the first occurrence |
| `Viewer.Unique` | whatsapp_chat_viewer.py:85 | no duplicates, and exactly the elements of the input |
| `Viewer.UniqueFirstOccurrence` | whatsapp_chat_viewer.py:85 | the distinct elements come in the order of their first occurrences |
| `Viewer.Senders` | whatsapp_chat_viewer.py:85 | `unique()` of the sender column; specified by `SendersSpec` |
| `Viewer.SendersSpec` | whatsapp_chat_viewer.py:85 | the sender list has each record's sender once, nothing else, in order of first message |
| `Viewer.DateLeTotalOrder` | whatsapp_chat_viewer.py:103-104 | date comparison is a total order |
| `Viewer.MinDate` | whatsapp_chat_viewer.py:90 | the earliest date: the date of some record, and no record is earlier |
| `Viewer.MaxDate` | whatsapp_chat_viewer.py:90 | the latest date: the date of some record, and no record is later |
| `Viewer.Where` | whatsapp_chat_viewer.py:101-107 | a boolean mask keeps at most as many elements as it is given |
| `Viewer.WhereSpec` | whatsapp_chat_viewer.py:101-107 | a mask keeps an order-preserving subsequence: exactly the accepted elements, each as often as it occurs |
| `Viewer.WhereCount` | whatsapp_chat_viewer.py:101-107 | a mask keeps each accepted element as often as it occurs and drops the others |
| `Viewer.WhereAll` | whatsapp_chat_viewer.py:101-105 | a mask that accepts everything keeps everything |
| `Viewer.WhereWhere` | whatsapp_chat_viewer.py:101-107 | one mask after another is both masks at once |
| `Viewer.WhereSame` | whatsapp_chat_viewer.py:101-107 | masks that agree element-wise select the same elements |
| `Viewer.Mentions` | whatsapp_chat_viewer.py:107 | an empty query is found in every message; the rest is in `ContainsIff` and `MentionsIgnoresCase` |
| `Viewer.Filter` | whatsapp_chat_viewer.py:101-107 | the displayed records, never more than the table; specified by `FilterIsShown` and `FilterSpec` |
| `Viewer.FilterIsShown` | whatsapp_chat_viewer.py:101-107 | the two masks, the second only for a non-empty query, select the records that meet every condition |
| `Viewer.FilterSpec` | whatsapp_chat_viewer.py:101-107 | the result is an ordered subsequence: a record is kept iff its sender is selected, its date is in the window, and the query is empty or found, and each kept record as often as it occurs |
| `Viewer.FilterDefaults` | whatsapp_chat_viewer.py:87-107 | all senders, the first to last date and no query show every record |
| `Viewer.FilterSingleDay` | whatsapp_chat_viewer.py:92-107 | a single picked date shows exactly the selected records of that date, each as often as it occurs |
| `Viewer.MentionsIgnoresCase` | whatsapp_chat_viewer.py:107 | the search result is the same for the query, or the message, in capitals or in lower case (all four cases) |
| `Viewer.MentionsUpToCase` | whatsapp_chat_viewer.py:107 | a message and a query that differ from the given ones only in letter case give the same search result |
| `Viewer.TimeLabel` | whatsapp_chat_viewer.py:45 | the time under a bubble; specified by `TimeLabelShape`, the four hour cases and `TimeLabelInjective` |
| `Viewer.StripPaddedHour` | whatsapp_chat_viewer.py:45 | `lstrip("0")` of `%I` is the hour without padding |
| `Viewer.TimeLabelShape` | whatsapp_chat_viewer.py:45 | the label is the 12-hour clock hour without padding, `:`, two minute digits, a space and AM or PM |
| `Viewer.TimeLabelMidnight` | whatsapp_chat_viewer.py:45 | hour 0 reads `12:MM AM` |
| `Viewer.TimeLabelMorning` | whatsapp_chat_viewer.py:45 | hours 1-11 read `H:MM AM` |
| `Viewer.TimeLabelNoon` | whatsapp_chat_viewer.py:45 | hour 12 reads `12:MM PM` |
| `Viewer.TimeLabelAfternoon` | whatsapp_chat_viewer.py:45 | hours 13-23 read `(H-12):MM PM` |
| `Viewer.TimeLabelInjective` | whatsapp_chat_viewer.py:45 | different times of day get different labels |
| `Viewer.LabelOfTwelveHourHeader` | whatsapp_chat_viewer.py:24-45 | a message written on the 12-hour clock is labelled with its header's hour (leading zero removed), minute and meridiem in capitals |

## Left out

- The Streamlit page: page setup, the uploader, the sidebar widgets, the HTML of a bubble, its
  colours and alignment, and the `is_user` comparison (lines 7-10, 41-44, 47-72, 86, 98,
  109-111). These are presentation and calls into Streamlit. The user's inputs to the
  filter become parameters.
- File reading, the lossy UTF-8 decode and `splitlines` (line 76). The input is a
  sequence of strings.
- The pandas DataFrame (lines 38, 82). The table is a sequence of records, and the `date`
  column is `Viewer.DateOf` applied to each timestamp.
- The empty-table warning (lines 79-80). It is I/O. `Viewer.MinDate` and `Viewer.MaxDate`
  require a non-empty table, as the `else` branch guarantees.
- Viewer.Mentions: `str.contains` uses a regular expression by default. The model searches
  for the query as a literal string, which agrees with the code only for queries with no
  regular-expression metacharacters.
- Unicode: `\d` is restricted to ASCII digits and `case=False` / `IGNORECASE` to ASCII
  case mapping. Other Unicode digits and case folding are not modelled.
- Locale: `%p` is taken as the English `AM`/`PM`, in both parsing and the label.
- A date picker holding only a start date (the user is mid-selection), or a cleared one.
  Streamlit then returns a 1-tuple or an empty tuple, and line 93 would raise an error on
  either. `Viewer.DatePick` models only a pair or a single date.
- `strptime` accepts some whitespace inside and around fields. The decoded string never
  holds any other than single spaces: line 22 rebuilds it from the captured groups with one
  literal space before the meridiem, and the `\s` the pattern allows there is not captured.
  The model therefore decodes from the groups alone.
