# Receipt roll of the Irish Exchequer, 1301–02: money grammar and transcript scanner

A Dafny model of the pure core of the receipt-roll tools. The core has two parts.

**The money grammar.** This is `receipt_roll/money.py` and the older `money.py` at the root.

- A value of pre-decimal money is written in one of eight surface forms:
  - marks;
  - £.s.d.;
  - £.s.;
  - £.d.;
  - s.d.;
  - s.;
  - d.;
  - £.
- Pence may carry a ¼, ½ or ¾ glyph.
- `value_to_pence` reads such a value at the start of a string.
- `extract_value` finds one anywhere in a line of prose.
- `pence_to_psd` writes an amount back as pounds, shillings and pence.

**The scanner.** This is `receipt_roll/create_data_csv.py`. The body of `parse_roll`'s loop classifies each line of the transcript by a first-match-wins cascade:

1. membrane heading;
2. place heading;
3. day heading;
4. "Gross receipt" line;
5. daily sum;
6. ignored total;
7. detail line.

Heading lines set the sticky context: membrane, place, date, weekday and term. Daily-sum lines add a daily-sum row. Detail lines add an entry row carrying the context. `date_values` turns a day heading into a `YYYY-MM-DD` date of the fiscal year 1301–02. The week-of-term loop numbers the entries of one term.

Modelling choices:

- **Amounts are whole farthings** (quarter pence, `nat`). The source uses Python floats only to carry ¼, ½ and ¾. A value of `q` farthings stands for `q / 4` pence. A mark is 160d. A quarter of a mark, which is 40d., is 160 farthings.
- **Each regular expression is a recogniser over `string`.** It returns the groups it captures as a `Reading`:
  - an anchored `Match…` stands for `regex.match`;
  - `Search` stands for `regex.search`, the leftmost position where the anchored recogniser succeeds.
- **The older module's expressions accept a subset of what the newer ones accept.** Its recogniser is the newer one restricted to the readings the older expressions can produce.
- **The loop body is a pure function.** The `Step` of a `Scan` is split in two:
  - `LineAction` reads what the line says;
  - `Apply` changes the state.

  `parse_roll`'s loop is a fold of `Step` over the lines.
- **The lines on which the source raises an exception end the scan with a `ScanError`.** These are:
  - `[m. ]`, a membrane heading without digits;
  - a daily-sum line without a colon;
  - "the same" before any entry.

Files:

- `wrappers.dfy`: `Option` and `Result`.
- `strings.dfy`: Python's `strip`, `lower`, `split(':')[1]`, `in`, and `int` on digits.
- `money.dfy`: the grammar of `receipt_roll/money.py`.
- `money_examples.dfy`: its docstring and unit-test examples.
- `legacy_money.dfy`: the older `money.py`.
- `headings.dfy`: the heading expressions, `date_values` and the term.
- `scanner.dfy`: the cascade and the fold.
- `scanner_examples.dfy`: short transcripts run through the fold.
- `weeks.dfy`: the week numbering.

Behaviour of the code that is easy to misread:

- `value_to_pence` tries d. before s. (receipt_roll/money.py:196-226); `extract_value` tries s. before d. (receipt_roll/money.py:161-189).
- The newer marks expression takes ¼, ½, ¾, One, one and a as a quantity (receipt_roll/money.py:13).
- `pence_to_psd(0)` is the empty string, and `value_to_pence` gives it no amount (receipt_roll/money.py:229-248).
- A "the same" line with no value and no entry above fails, because `data[-1]` raises IndexError (receipt_roll/create_data_csv.py:139-141).
- A daily sum's value is the text between the first and the second colon, `split(':')[1]` (receipt_roll/create_data_csv.py:106-107).
- A "Gross receipt" line that names no term takes its branch and keeps the term (receipt_roll/create_data_csv.py:95-103).
- A line with a month name outside the twelve is no day heading and falls through to the later branches (receipt_roll/create_data_csv.py:29-30, 90).

## Model

| member | source | states |
|---|---|---|
| Money.VulgarFractionToDecimal | receipt_roll/money.py:30-44 | a glyph has a value exactly when it is ¼, ½ or ¾ (is_vulgar_fraction), and that value is one to three farthings |
| Money.DecimalToVulgarFraction | receipt_roll/money.py:47-56 | there is a glyph exactly for one, two or three farthings, and it is a fraction glyph |
| Money.FractionGlyphRoundTrip | receipt_roll/money.py:35-56 | the two fraction helpers are inverse: the value of the glyph of k farthings is k |
| Money.FractionValueRoundTrip | receipt_roll/money.py:35-56 | the two fraction helpers are inverse: the glyph of a glyph's value is that glyph |
| Money.MatchMarks | receipt_roll/money.py:13 | a marks match reads a quantity of digits, ¼, ½, ¾, One, one or a, a whitespace and "mark(s)", and its text begins the input |
| Money.MatchPsd | receipt_roll/money.py:15 | a £.s.d. match reads three digit groups and an optional glyph, and its text begins the input |
| Money.MatchPs | receipt_roll/money.py:17 | a £.s. match reads the pound digits and the whole shilling digit run, and its text begins the input |
| Money.MatchPd | receipt_roll/money.py:19 | a £.d. match reads pound and pence digits and an optional glyph, and its text begins the input |
| Money.MatchSd | receipt_roll/money.py:21 | an s.d. match reads shilling and pence digits and an optional glyph, and its text begins the input |
| Money.MatchS | receipt_roll/money.py:23 | an s. match reads the shilling digits, and its text begins the input |
| Money.MatchD | receipt_roll/money.py:25 | a d. match reads the pence digits and an optional glyph, and its text begins the input |
| Money.MatchP | receipt_roll/money.py:27 | a £ match reads the pound digits and stops only where no digit follows (greedy `\d+`) |
| Money.MatchComplete | receipt_roll/money.py:13-27 | every valid reading is recognised, with the same groups, in its own text followed by anything that does not extend the match |
| Money.MatchAtOf | receipt_roll/money.py:13-27 | a value written inside a longer text is matched at the position where it starts |
| Money.MarksConverts | receipt_roll/money.py:59-68 | a marks value is worth its quantity times 160d. (¼, ½, ¾ by their fraction; one, One and a as 1), and no other expression is tried first |
| Money.PsdConverts | receipt_roll/money.py:71-85 | £P.Ss.Dd. is worth P×240 + S×12 + D pence plus its fraction |
| Money.PsConverts | receipt_roll/money.py:88-95 | £P.Ss. is worth P×240 + S×12 pence, and the marks and £.s.d. expressions reject it |
| Money.PdConverts | receipt_roll/money.py:98-111 | £P.Dd. is worth P×240 + D pence plus its fraction, and every expression tried earlier rejects it |
| Money.SdConverts | receipt_roll/money.py:114-127 | Ss.Dd. is worth S×12 + D pence plus its fraction, and every expression tried earlier rejects it |
| Money.DConverts | receipt_roll/money.py:130-142 | Dd. is worth D pence plus its fraction, and every expression tried earlier rejects it |
| Money.SConverts | receipt_roll/money.py:145-150 | Ss. is worth S×12 pence; the s.d. and d. expressions tried before it reject it |
| Money.PConverts | receipt_roll/money.py:153-158 | £P is worth P×240 pence, and every other expression rejects it |
| Money.ReadingConverts | receipt_roll/money.py:196-226 | value_to_pence reads the text of every valid reading as that reading's amount: it is the first expression, in value_to_pence's order, that matches |
| Money.PoundsDotConverts | receipt_roll/money.py:221-222 | a lone pound count written with a dot, £P., is still worth P×240 pence |
| Money.NothingConverts | receipt_roll/money.py:223-224 | the word NOTHING is worth nothing |
| Money.SearchSpec | receipt_roll/money.py:167-189 | `regex.search` fails exactly when the expression matches nowhere, and otherwise returns the leftmost match with its groups |
| Money.ExtractLeftmost | receipt_roll/money.py:161-189 | extract_value returns the leftmost match of the first form, in the order marks, £.s.d., £.s., £.d., s.d., s., d., £, that occurs anywhere in the text, even when a later form occurs further left |
| Money.ExtractNothing | receipt_roll/money.py:190-193 | extract_value returns NOTHING exactly when no form occurs and the text contains the word, and returns no value exactly when neither holds |
| Money.ExtractConverts | receipt_roll/money.py:161-226 | whatever extract_value returns, value_to_pence gives an amount for |
| Money.PenceGroups | receipt_roll/money.py:236-246 | the pence digits and glyph written for the farthings below a shilling are worth exactly those farthings |
| Money.PartsFarthings | receipt_roll/money.py:233-248 | the reading written for pound and shilling counts and the farthings left is worth pounds×240 + shillings×12 pence plus those farthings |
| Money.PartsText | receipt_roll/money.py:239-248 | pence_to_psd's text is the text of that reading, with a dot after a lone pound count |
| Money.PsdFormatPsd | receipt_roll/money.py:240-248 | pounds, shillings and pence all non-zero are written £P.Ss.Dd. |
| Money.PsdFormatPs | receipt_roll/money.py:240-248 | no pence is written £P.Ss. |
| Money.PsdFormatPd | receipt_roll/money.py:240-248 | no shillings is written £P.Dd. |
| Money.PsdFormatP | receipt_roll/money.py:240-248 | pounds alone are written £P. with a trailing dot |
| Money.PsdFormatSd | receipt_roll/money.py:240-248 | no pounds is written Ss.Dd. |
| Money.PsdFormatS | receipt_roll/money.py:240-248 | shillings alone are written Ss. |
| Money.PsdFormatD | receipt_roll/money.py:240-248 | pence alone are written Dd. with the glyph of the fraction |
| Money.RenderedReading | receipt_roll/money.py:229-248 | every positive amount is written as a valid reading worth exactly that amount |
| Money.RenderedText | receipt_roll/money.py:229-248 | pence_to_psd of a positive amount is the text of that reading, with a dot after a lone pound count |
| Money.ZeroRendersEmpty | receipt_roll/money.py:240-248 | zero is written as the empty string, which value_to_pence gives no amount |
| Money.PenceRoundTrip | receipt_roll/money.py:196-248 | value_to_pence(pence_to_psd(q)) == q for every positive amount in farthings; zero goes to the empty string and has no amount |
| MoneyExamples.ExtractPsdFromProse | receipt_roll/money.py:161-171 | a £.s.d. value in prose with no pound sign before it and no word "mark" is extracted whole |
| MoneyExamples.ExtractSdWhole | receipt_roll/money.py:161-183 | an s.d. value such as 16s.9d. is extracted whole, not as its s. part, when no marks or £ value occurs and no digit comes before it |
| MoneyExamples.NoMarks | receipt_roll/money.py:13 | a text without the word "mark" holds no marks value |
| MoneyExamples.NoDigitForm | receipt_roll/money.py:21-25 | a text without digits holds no s.d., s. or d. value |
| MoneyExamples.ValueToPenceExample | receipt_roll/money.py:196-198 | £8.13s.4d. is 2080 pence |
| MoneyExamples.PenceToPsdExample | receipt_roll/money.py:229-248 | 2080 pence is written £8.13s.4d. |
| MoneyExamples.FractionExample | receipt_roll/money.py:229-248 | 15½ pence is written 1s.3½d., with the zero pound part left out |
| MoneyExamples.FractionValueExample | receipt_roll/money.py:114-127 | 1s.3½d. is 15½ pence |
| MoneyExamples.MarksExample | receipt_roll/money.py:59-68 | ½ mark is 80 pence |
| MoneyExamples.TwoMarksExample | tests/test_psd_to_pence.py:123-124 | 2 marks is 320 pence |
| MoneyExamples.OneMarkExample | tests/test_psd_to_pence.py:117-118 | one mark is 160 pence |
| MoneyExamples.QuarterPennyValue | tests/test_psd_to_pence.py:132-133 | £1.6s.4¼d. is 316¼ pence |
| MoneyExamples.QuarterPennyText | tests/test_pence_to_psd.py:17-18 | 316¼ pence is written £1.6s.4¼d. |
| MoneyExamples.PoundTexts | tests/test_pence_to_psd.py:65-69 | 240 pence is written £1. and 2880 pence £12. |
| MoneyExamples.OnePoundValue | tests/test_psd_to_pence.py:180-181 | £1. is 240 pence |
| MoneyExamples.TwelvePoundsValue | tests/test_psd_to_pence.py:183-184 | £12. is 2880 pence |
| LegacyMoney.MatchComplete | money.py:13-25 | each older expression accepts the text of every older reading of its form, followed by anything that does not extend the match, and reads back the same groups; with the newer recogniser's soundness, the older recognisers accept exactly the texts of the older readings |
| LegacyMoney.ValueReading | money.py:60-107 | the reading value_to_pennies takes is a valid older reading whose text begins the value |
| LegacyMoney.ReadingRoundTrip | money.py:60-111 | the text of every older reading is read back as that reading, in the order marks, £.s.d., £.s., s.d., d., s., £ |
| LegacyMoney.PenniesAsWritten | money.py:82-86 | reading only the last shilling digit changes the amount exactly for a £.s. value of ten shillings or more |
| LegacyMoney.PenniesAgree | money.py:64-107 | with the whole shilling group, the older module values every reading as the newer one does |
| LegacyMoney.RenderedReading | money.py:114-135 | every amount that one of the six templates covers is written as a valid older reading |
| LegacyMoney.RenderedValue | money.py:114-135 | that reading is worth the amount once its shilling group is read whole |
| LegacyMoney.RenderedText | money.py:124-135 | pennies_to_psd writes the text of that reading; a lone pound count has no trailing dot |
| LegacyMoney.UnmatchedExactly | money.py:124-137 | "Unmatched" is written exactly for zero and for pounds with pence but no shillings |
| LegacyMoney.RoundTripFixed | money.py:60-137 | with the whole shilling group, value_to_pennies reads back every amount pennies_to_psd writes |
| LegacyMoney.RoundTripAsWritten | money.py:17 | as written, the round trip holds for a written amount exactly when it is not pounds and ten or more shillings with no pence |
| LegacyMoney.ShillingDigitExample | money.py:17 | pennies_to_psd(432) is £1.16s., which value_to_pennies reads as 312 pence |
| LegacyMoney.PoundPenceExample | money.py:124-137 | pennies_to_psd(241), one pound and one penny, is "Unmatched" |
| LegacyMoney.SearchSpec | money.py:34-53 | the older `regex.search` fails exactly when the expression matches nowhere, and otherwise returns the leftmost match |
| LegacyMoney.ExtractLeftmost | money.py:28-53 | the older extract_value returns the leftmost match of the first form, in the order marks, £.s.d., £.s., s.d., s., d., £, that occurs |
| LegacyMoney.ExtractFound | money.py:28-53 | when any form occurs, the older extract_value returns the text of a match of a form that occurs |
| LegacyMoney.ExtractNothing | money.py:54-57 | the older extract_value returns NOTHING exactly when no form occurs and the text contains the word, and nothing exactly when neither holds |
| LegacyMoney.ExtractConverts | money.py:28-111 | whatever the older extract_value returns, value_to_pennies gives an amount for |
| Strings.Strip | receipt_roll/create_data_csv.py:129 | `strip()`: the result is the line without its leading and trailing whitespace; it is empty exactly when the line is all whitespace |
| Strings.SecondColonField | receipt_roll/create_data_csv.py:106-107 | `split(':')[1]` exists exactly when the line has a colon, and is the colon-free text after the first colon, up to the next colon or the end |
| Strings.NatToString | receipt_roll/money.py:240-246 | `"{}".format(n)` is a digit string without a leading zero whose value is n |
| Headings.MembraneNumber | receipt_roll/create_data_csv.py:82-83 | the number of `[m. N]` is N; a heading `[m. ]` with no digits has none, where the source's search finds no match |
| Headings.MembraneRoundTrip | receipt_roll/create_data_csv.py:39 | every `[m. N]` with digits N is a membrane heading, and N is the number read from it |
| Headings.PlaceLineIsLanguage | receipt_roll/create_data_csv.py:42 | the left-to-right place test accepts a line exactly when the whole line is in the language of the place expression |
| Headings.WeekdayPrefixUnique | receipt_roll/create_data_csv.py:33 | no weekday name begins with another, so at most one alternative can match |
| Headings.MonthPrefixUnique | receipt_roll/create_data_csv.py:29-30 | no month name begins with another, so at most one alternative can match |
| Headings.DayAtUnique | receipt_roll/create_data_csv.py:33 | `day_regex.match` finds the weekday whose name begins the line |
| Headings.MonthAtUnique | receipt_roll/create_data_csv.py:29-30 | the month alternative finds the month whose name begins the text |
| Headings.NumberAtSpec | receipt_roll/create_data_csv.py:29 | ` (\d+) ` matches at k exactly when a space, one or more digits and a space are written there, and it reads those digits |
| Headings.DayMonthAtSpec | receipt_roll/create_data_csv.py:29-30 | ` (\d+) (Month)` matches at k with day digits and month exactly when they are written there |
| Headings.DateMatchSound | receipt_roll/create_data_csv.py:29-30 | the groups date_regex returns come from a parse of the line, and no parse's filler `(.+)?` is longer |
| Headings.DateMatchSpec | receipt_roll/create_data_csv.py:29-30 | a line is a day heading exactly when some parse exists, and its groups are those of the parse with the longest filler (greedy backtracking) |
| Headings.MonthDigitsNumber | receipt_roll/create_data_csv.py:13-26 | the table gives each month its calendar number as two digits |
| Headings.MonthDigitsInjective | receipt_roll/create_data_csv.py:13-26 | different months get different numbers |
| Headings.PadDayValue | receipt_roll/create_data_csv.py:50-51 | padding a one-digit day keeps its value and gives it two digits |
| Headings.DateValuesReadBack | receipt_roll/create_data_csv.py:45-57 | the date is YYYY-MM-DD: year 1301 exactly for September to December and 1302 otherwise, then the month's number, then the day's digits, zero-padded to two when a single digit, so at least two characters wide |
| Headings.TermNamed | receipt_roll/create_data_csv.py:95-103 | a term is named exactly when some term's name is in the line, and it is the first of Michaelmas, Trinity, Hilary, Easter found there |
| Scanner.Classify | receipt_roll/create_data_csv.py:82-127 | the branch a line takes is one whose test the line passes |
| Scanner.ClassifyFirstMatch | receipt_roll/create_data_csv.py:82-127 | a line takes a branch exactly when it passes that branch's test and fails every earlier one |
| Scanner.ApplyContext | receipt_roll/create_data_csv.py:81-103 | each field of the context is changed only by its own kind of heading, and no field once set is cleared |
| Scanner.ApplyRows | receipt_roll/create_data_csv.py:105-143 | rows are only appended: a daily sum adds exactly one daily-sum row; a detail line adds one entry exactly when membrane and place are set and the trimmed line is not empty |
| Scanner.ApplyEntry | receipt_roll/create_data_csv.py:128-143 | an added entry carries the context, the trimmed line and its value; one with no value that says "the same" carries the value and amount of the entry above |
| Scanner.ApplySum | receipt_roll/create_data_csv.py:105-108 | a daily sum that goes through appends exactly one row: the current date, the field and its amount; nothing else changes |
| Scanner.StepSum | receipt_roll/create_data_csv.py:105-108 | a daily-sum line appends the row of the current date, the trimmed `split(':')[1]` and its value_to_pence amount; without a colon it fails |
| Scanner.ApplyFails | receipt_roll/create_data_csv.py:82-143 | a line fails exactly as `[m. ]`, as a daily sum without a colon, or as a "the same" line with no value and no entry above |
| Scanner.MembraneAction | receipt_roll/create_data_csv.py:82-83 | a membrane heading sets the number it carries |
| Scanner.DateAction | receipt_roll/create_data_csv.py:90-93 | a day heading sets its weekday and a date whose year and month follow from its month |
| Scanner.SumFieldSpec | receipt_roll/create_data_csv.py:106-108 | a daily sum's field exists exactly when the line has a colon; it is the trimmed text after the first colon, with its value_to_pence amount |
| Scanner.ScanFromAppend | receipt_roll/create_data_csv.py:80 | scanning two pieces of a transcript in turn is scanning the whole |
| Scanner.ScanFromGrows | receipt_roll/create_data_csv.py:80-143 | over a scan the tables only grow, the context keeps every field it had, and there is one daily-sum row per daily-sum line |
| Scanner.ScanFromTrimmed | receipt_roll/create_data_csv.py:129-143 | every entry's text is non-empty and trimmed |
| Scanner.ParseRollRows | receipt_roll/create_data_csv.py:80-143 | a finished parse has one daily-sum row per daily-sum line and only trimmed entries |
| Scanner.StepSetsField | receipt_roll/create_data_csv.py:82-103 | a heading leaves in its field what it says: the membrane number, the place (DUBLIN or the trimmed line), the weekday and date of a day heading, the term a "Gross receipt" line names |
| Scanner.StepKeepsField | receipt_roll/create_data_csv.py:82-143 | a line that is not a heading of a field's kind leaves that field as it was, a "Gross receipt" line naming no term included |
| Scanner.ScanKeepsField | receipt_roll/create_data_csv.py:80-143 | a run of lines none of which sets a field leaves that field as it was |
| Scanner.LatestHeading | receipt_roll/create_data_csv.py:80-103 | after a scan, each field of the context holds what the latest heading of its kind says |
| Scanner.StepCarries | receipt_roll/create_data_csv.py:129-143 | the entry a line adds carries what the context held before the line |
| Scanner.EntryUnderHeading | receipt_roll/create_data_csv.py:80-143 | every entry carries, in each field, what the latest heading of that field's kind above it says |
| Scanner.CapitalSame | receipt_roll/create_data_csv.py:139 | a line opening with a capitalised "The same" says "the same" once lowered |
| ScannerExamples.StickyExample | receipt_roll/create_data_csv.py:80-143 | "[m. 3]", "DUBLIN", "John, 6s.8d. for trespass." give one entry with membrane 3, place DUBLIN, the line, value 6s.8d. and 320 farthings |
| ScannerExamples.EarlyDetailExample | receipt_roll/create_data_csv.py:129 | the same detail line before the membrane and place headings gives no entry |
| ScannerExamples.SameExample | receipt_roll/create_data_csv.py:139-143 | "The same, for the same offence." below that entry gets its value 6s.8d. and its 320 farthings |
| Weeks.AssignWeeks | receipt_roll/create_data_csv.py:166-178 | the loop with its counter and "new week on Monday" flag gives each entry one more than the number of week openings up to it |
| Weeks.FirstWeek | receipt_roll/create_data_csv.py:170 | the first entry is in week 1 |
| Weeks.WeekStep | receipt_roll/create_data_csv.py:173-177 | from one entry to the next the week rises by one exactly when a Monday follows an entry that is not a Monday |
| Weeks.WeeksMonotone | receipt_roll/create_data_csv.py:171-178 | the week never decreases |
| Weeks.WeekBound | receipt_roll/create_data_csv.py:170-178 | the week of entry i is between 1 and i + 1 |
| Weeks.MondaysShareWeek | receipt_roll/create_data_csv.py:173-177 | consecutive Monday entries share one week |
| Weeks.WeeksExample | receipt_roll/create_data_csv.py:166-178 | Tuesday, Wednesday, Monday, Tuesday, Monday get weeks 1, 1, 2, 2, 3 |

## Left out

- Reading the transcript with `fileinput` is left out. So are the membrane cast, the merge with the feast-day file, the sort and the CSV writes in `parse_roll` (receipt_roll/create_data_csv.py:80, 145-163, 180-187). These are input, output and data-frame plumbing.
- The grouping of the sorted entries by term and the positional `df.insert` of the week column are left out, because they are data-frame operations. Weeks.AssignWeeks takes the weekdays of one term's entries, already in order.
- Lines are modelled without their trailing newline. The source's anchors `$` match before it, and `strip()` removes it.
- Strings.ToLower lowers only the ASCII letters. Python's `lower()` folds all of Unicode. Only "the same" is looked for in the result, and its letters are ASCII.
- Strings.IsDigit takes `\d` and `int()` to be the ASCII digits. Python also accepts other Unicode decimal digits.
- Money.PenceToPsd and LegacyMoney.PenniesToPsd take a `nat`. Negative amounts are outside the model: the source floors them, so `pence_to_psd(-1)` gives "19s.11d." (receipt_roll/money.py:233-236, money.py:115-118). Every caller passes a non-negative sum.
- Money.PenniesFormat never meets a fraction that is not a quarter, because amounts are whole farthings. The source's branch for a non-quarter float fraction, and float rounding, are not modelled.
- The `print` in money.py's pennies_to_psd (money.py:122) is left out. It is output only.
- Scanner.ScanFrom stops at the first line on which the source raises an exception. The exception is returned as a `ScanError` value: the source's exception type and traceback are not modelled.

## Findings

| source | as written | input that shows it | evidently intended | confidence | as-written member | corrected member |
|---|---|---|---|---|---|---|
| money.py:17 | the £.s. expression repeats a one-digit group `(\d)+`, so group 3 is only the last shilling digit | "£1.16s.", which pennies_to_psd writes for 432, reads as 312 pence | the whole shilling run, as in receipt_roll/money.py:17 `(\d+)+` | high; not executed | LegacyMoney.RoundTripAsWritten | LegacyMoney.RoundTripFixed |
| money.py:124-137 | no template covers pounds with pence but no shillings, so pennies_to_psd falls through to "Unmatched" | 241 pence (£1. and 1d.) gives "Unmatched" | a £.d. rendering, as receipt_roll/money.py:229-248 writes it | medium; not executed | LegacyMoney.PoundPenceExample | Money.PenceRoundTrip |
