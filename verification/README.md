# WSJF project portfolio: a Dafny model of the planning core

The application scores project requests with WSJF (Weighted Shortest Job First)
and plans the team's weekly load.  This project models the parts of it that
compute something, and proves what they promise:

- **WSJF scoring** (`services/wsjf_calculator.py`, module `Wsjf`).
  The answers of the questionnaire are looked up in the fixed points table
  `POINTS_CONFIG`.  Twelve value fields make the numerator.  Ten cost fields
  make the denominator: nine are looked up, and `q2` is read as an integer.
  The score is twice the ratio of the two, or 0 when the denominator is 0.
  The denominator also gives the complexity class (1, 2 or 3) and the
  person-day estimate (20, 40 or 60).
- **Week keys and the phase split** (`utils/calculs.py`, module `Calculs`).
  `get_semaine_key` turns a date into `Month_Sn`, where n is the week of the
  month.  `repartition_charge_par_phase` adds `total_jh * pourcentage` for
  every matching phase entry, under the key of the project's start date.
- **Weekly planning** (`routes/caf.py`, module `Caf`).
  The year is cut into 52 weeks from its first Monday.  Each week is assigned
  the month its Monday falls in, and the month filter shows only that month's
  weeks.  Each project phase spreads its charge over the weeks it overlaps, in
  proportion to the days it spends in each.  The proofs include
  conservation: a phase lying inside the planned weeks hands out exactly its
  charge.
- **Spreadsheet import helpers** (`routes/import_excel_routes.py`, module
  `ImportExcel`).  These are the text normalisation, the empty guard of the
  fuzzy comparison, the detection of three-row project blocks, and the choice
  of the business value a column is linked to (the first exact match, else the
  first fuzzy one).

Supporting modules:

- `Common`: an `Option` type, Python's `x or default` on numbers, and
  integer min/max.
- `Text`: Python's `str` behaviour that the source relies on, namely
  whitespace, `strip`, `lower`, `" ".join(s.split())`, `int(s)` and `str(n)`.
- `Calendar`: Python's proleptic Gregorian dates as ordinals, with
  `weekday()` and the English month names.

Modelling choices:

- Week labels `"S1"` … `"S52"` are represented by the integers 1 … 52.
- Percentages and charges are exact reals.
- The year of the planning views is a parameter (the source fixes it to
  2025, kept as `Caf.Annee`; `Caf.AnneeWeeks` is about that year).  The
  generalisation assumes the year is not 9999: there the Sunday of week 52
  lies past the last date Python can represent and the source's date
  arithmetic would raise `OverflowError` (`Caf.LastYearOverflows`), while
  the model, counting days as integers, gives a value.
- Each inner dict of `POINTS_CONFIG` is the list of its entries in the
  order they are written, and `.get` takes the first entry with the key.
  No table repeats a key (`Wsjf.TableKeysDistinct`), so this is the dict's
  lookup.
- `int()` skips the ASCII space and `\t`..`\r` around a number, and the
  non-ASCII characters of `str.isspace()` (which it first turns into
  spaces), but not U+001C..U+001F.  It converts at most 4300 digits, the
  default limit of current Python versions.
- `difflib.SequenceMatcher(...).ratio()` is a function parameter `ratio`.
- In `caf_requise`, a missing or zero `pourcentage` counts as 1 through
  `or 1.0`.  Since the charge is then divided by 100, such a phase contributes
  1 % of its estimate.  The model keeps this as written (`Caf.ChargeProjet`).

## Model

| member | source | states |
|---|---|---|
| `Wsjf.TableWithinCaps` | services/wsjf_calculator.py:3-28 | every points entry lies between 0 and its field's highest value (55 for the value fields, 21, 10, 4, 9 or 55 for the cost tables), and no table has an entry for the empty answer |
| `Wsjf.NamesDistinct` | services/wsjf_calculator.py:3-28 | two fields share a form key exactly when they are the same field, and no table field is called `q2` |
| `Wsjf.PointsConfig` | services/wsjf_calculator.py:3-28 | the twenty-two inner tables of `POINTS_CONFIG`, each as its entries in the order written |
| `Wsjf.TableKeysDistinct` | services/wsjf_calculator.py:3-28 | no table repeats a key, so the list of entries is the dict the literal builds |
| `Wsjf.Lookup` | services/wsjf_calculator.py:43 | `.get` finds nothing exactly when the answer is no key of the table, and what it finds is the points of an entry for that answer |
| `Wsjf.LookupOfEntry` | services/wsjf_calculator.py:43 | in a table without repeated keys, `.get` of an entry's key gives exactly that entry's points |
| `Wsjf.Points` | services/wsjf_calculator.py:43 | the points of one field: the table entry of the answer, with a missing answer read as `''` and an unknown one counting 0 |
| `Wsjf.PointsOfEntry` | services/wsjf_calculator.py:43 | an answer listed in the field's table scores exactly the points listed with it |
| `Wsjf.UnknownAnswerScoresZero` | services/wsjf_calculator.py:43 | a missing answer, or an answer that is not a key of the field's table, scores exactly 0 |
| `Wsjf.PointsBounds` | services/wsjf_calculator.py:43 | a field scores between 0 and its cap, and a known answer scores points its table lists for that answer |
| `Wsjf.SumPointsBounds` | services/wsjf_calculator.py:43 | a sum of table-driven fields lies between 0 and the sum of their caps |
| `Wsjf.SumPointsFrame` | services/wsjf_calculator.py:43 | a sum of fields reads only those fields of the form |
| `Wsjf.ZeroWhenAllUnknown` | services/wsjf_calculator.py:43 | a sum over fields none of which holds a known answer is 0 |
| `Wsjf.SumAtCapIff` | services/wsjf_calculator.py:43 | a sum reaches the sum of the caps if and only if every field scores its cap |
| `Wsjf.NumeratorBounds` | services/wsjf_calculator.py:32-43 | the numerator lies in [0, 660] |
| `Wsjf.NumeratorMaxIff` | services/wsjf_calculator.py:32-43 | the numerator is 660 if and only if all twelve value fields score 55 |
| `Wsjf.NumeratorCaps` | services/wsjf_calculator.py:32-37 | each of the twelve value fields has cap 55, 660 in all |
| `Wsjf.DependancesNeverCounts` | services/wsjf_calculator.py:32-37 | changing the `dependances_projets` answer never changes the numerator, although that field has a table |
| `Wsjf.NumeratorReadsOnlyItsFields` | services/wsjf_calculator.py:32-43 | two forms that agree on the twelve value fields have the same numerator |
| `Wsjf.Numerator` | services/wsjf_calculator.py:32-43 | the sum of the points of the twelve value fields, in the order listed |
| `Wsjf.NumeratorFieldKeys` | services/wsjf_calculator.py:32-37 | the twelve numerator fields read exactly the keys of `numerateur_fields`, in the order listed |
| `Wsjf.NumeratorFieldsExactly` | services/wsjf_calculator.py:32-37 | a field is a numerator field exactly when it is neither `dependances_projets` nor a cost question |
| `Wsjf.Q2Points` | services/wsjf_calculator.py:48-52 | a missing `q2` counts 0 (the default `'0'`), text that `int()` rejects counts 0, and text `int()` accepts counts its value |
| `Wsjf.Q2Defaults` | services/wsjf_calculator.py:48-52 | besides the two zero cases, setting `q2` to `str(n)` makes it count exactly n whenever `str(n)` is within the digit limit |
| `Wsjf.SumCost` | services/wsjf_calculator.py:46-54 | the denominator loop over a list of fields: `q2` is read with `int()`, a `ValueError` adding 0, and every other field is looked up |
| `Wsjf.Denominator` | services/wsjf_calculator.py:40-54 | the denominator loop over `q1` … `q10`, in the order listed |
| `Wsjf.DenominatorFieldKeys` | services/wsjf_calculator.py:40-54 | the ten denominator fields read exactly the keys of `denominateur_fields`, in the order listed, and only the second (`q2`) is parsed rather than looked up |
| `Wsjf.DenominatorSplits` | services/wsjf_calculator.py:46-54 | the denominator is the sum of the nine table-driven cost fields plus the integer value of `q2` |
| `Wsjf.SumCostSplits` | services/wsjf_calculator.py:46-54 | for any list of denominator fields, the loop total is the table points of the looked-up fields plus one integer `q2` term per `q2` entry |
| `Wsjf.DenominatorLooksUpCostTables` | services/wsjf_calculator.py:40-54 | the denominator list looks up exactly the nine cost tables `q1`, `q3` … `q10`, in order |
| `Wsjf.DenominatorReadsQ2Once` | services/wsjf_calculator.py:40-52 | the denominator list reads `q2` exactly once |
| `Wsjf.CostCaps` | services/wsjf_calculator.py:19-27 | the highest values of the nine cost tables add up to 285 |
| `Wsjf.TableCostBounds` | services/wsjf_calculator.py:53-54 | the table-driven part of the denominator lies in [0, 285] |
| `Wsjf.ComplexiteLabel` | services/wsjf_calculator.py:62-70 | class 1 if and only if the score is below 50, 2 if and only if it is in [50, 100], 3 if and only if it is above 100 |
| `Wsjf.ComplexiteLabelMonotone` | services/wsjf_calculator.py:62-70 | the class never decreases as the score grows |
| `Wsjf.JhEstime` | services/wsjf_calculator.py:73-77 | classes 1, 2 and 3 give 20, 40 and 60 person-days, anything else gives 30 |
| `Wsjf.CalculateWsjf` | services/wsjf_calculator.py:30-84 | the complexity score is the denominator; when it is non-zero, score times denominator equals twice the numerator, else the score is 0; the class is the label of the denominator and the estimate is 20 times the class |
| `Wsjf.EffortNeverFallback` | services/wsjf_calculator.py:72-77 | the fallback estimate of 30 days is never returned |
| `Wsjf.ScoreBounds` | services/wsjf_calculator.py:57 | with a positive denominator the score lies in [0, 1320] |
| `Wsjf.EmptyFormCostsNothing` | services/wsjf_calculator.py:45-54 | an empty form has denominator 0: no table has an entry for the default `''` and the default `'0'` of `q2` counts 0 |
| `Wsjf.EmptyForm` | services/wsjf_calculator.py:30-84 | an empty form scores 0, with complexity score 0, class 1 and 20 person-days |
| `Calculs.WeekOfMonth` | utils/calculs.py:19 | the week of the month is in 1..5, and the day lies in its seven-day span |
| `Calculs.WeekKey` | utils/calculs.py:13-20 | the key is never empty (the weak part is listed under Left out) |
| `Calculs.ParseWeekKey` | utils/calculs.py:18-20 | reading a key back gives a month in 1..12 and a week digit |
| `Calculs.WeekKeyRoundTrip` | utils/calculs.py:17-20 | reading back the key of a date gives exactly its month and week of the month |
| `Calculs.WeekKeySameIff` | utils/calculs.py:17-20 | two dates share a key if and only if they share the month and the week of the month |
| `Calculs.TotalJh` | utils/calculs.py:24 | a missing estimate counts as 0 days, a present one as itself |
| `Calculs.Matches` | utils/calculs.py:31 | a phase entry applies when both its programme and its profile are the project's |
| `Calculs.SumPct` | utils/calculs.py:30-31 | the sum of the percentages of the entries that apply |
| `Calculs.SumCharge` | utils/calculs.py:30-35 | the charge the loop accumulates: `total_jh * pourcentage` for each entry that applies, in order |
| `Calculs.SumChargeFactors` | utils/calculs.py:30-35 | adding `total_jh * pourcentage` entry by entry is `total_jh` times the sum of the matching percentages |
| `Calculs.SumPctWithoutMatch` | utils/calculs.py:30-31 | with no matching entry, the matching percentages sum to 0 |
| `Calculs.SumPctIgnoresOthers` | utils/calculs.py:31 | an entry for another programme or profile changes neither the sum nor whether any entry matches |
| `Calculs.RepartitionChargeParPhase` | utils/calculs.py:22-36 | with no matching entry the result is empty; otherwise it has the single key of the start date, holding `total_jh` times the sum of the matching percentages |
| `Calendar.ToOrdinal` | routes/caf.py:27 | the ordinal of a valid date lies between the first and last day of its year |
| `Calendar.Weekday` | routes/caf.py:28 | `weekday()` is in 0..6 |
| `Calendar.FromOrdinal` | routes/caf.py:37-38 | a day of year y is a valid date of year y whose ordinal is that day |
| `Calendar.FromToOrdinal` | routes/caf.py:37-38 | a valid date is recovered from its ordinal |
| `Calendar.MonthNameOf` | routes/caf.py:38 | `strftime("%B")` gives one of the twelve month names |
| `Calendar.MonthIndex` | utils/calculs.py:18 | the position of a month name in `calendar.month_name`, and 0 exactly for text that is no month name |
| `Calendar.MonthIndexOfName` | utils/calculs.py:18 | the month names are distinct, so a name determines its month |
| `Text.Strip` | routes/import_excel_routes.py:28 | the result has no whitespace at either end and is the part of the text after its leading whitespace, with only whitespace after it |
| `Text.IsSpace` | routes/import_excel_routes.py:28 | the characters `str.isspace()` holds for, which `strip()` and `split()` treat as whitespace |
| `Text.StripSplit` | routes/import_excel_routes.py:28 | a text is its leading whitespace, its stripped part and its trailing whitespace |
| `Text.Lower` | routes/import_excel_routes.py:31 | each character is lower-cased in place |
| `Text.CollapseSpaces` | routes/import_excel_routes.py:35 | the result has single spaces between words and none at the ends, and has the same words as the text, in the same order |
| `Text.Words` | routes/import_excel_routes.py:35 | `split()` gives non-empty runs without whitespace |
| `Text.JoinSpace` | routes/import_excel_routes.py:35 | `" ".join` of no words is empty, and the joined text starts with the first character of a non-empty first word; `Text.JoinSpaceStartsWithFirst`, `Text.WordsOfJoinSpace` and `Text.JoinWordsOfCollapsed` give the joined words |
| `Text.JoinSpaceStartsWithFirst` | routes/import_excel_routes.py:35 | the joined text starts with the whole first word, followed by a space when more words come |
| `Text.JoinWordsOfCollapsed` | routes/import_excel_routes.py:35 | a collapsed text is `" ".join` of its own `split()` words |
| `Text.WordsOfJoinSpace` | routes/import_excel_routes.py:35 | splitting the space-joined words gives the same words back |
| `Text.PaddedWords` | routes/import_excel_routes.py:28-35 | whitespace on either side of a text does not change its words |
| `Text.CollapseSpacesUnique` | routes/import_excel_routes.py:35 | a collapsed text with the same words as the input is the collapse of the input, so the contract of `Text.CollapseSpaces` determines its result |
| `Text.CollapseOfCollapsed` | routes/import_excel_routes.py:35 | collapsing an already collapsed text changes nothing |
| `Text.IntStrip` | services/wsjf_calculator.py:50 | removes exactly the leading and trailing whitespace `int()` skips (every `isspace` character except U+001C..U+001F) and keeps the middle unchanged |
| `Text.PyInt` | services/wsjf_calculator.py:50 | after skipping the whitespace `int()` skips (ASCII space and `\t`..`\r`, and non-ASCII spaces), a result exists exactly for an optional sign and a digit string of at most 4300 digits; unsigned or `+` digits give their value, `-` digits its negation |
| `Text.PyIntOfPyStr` | services/wsjf_calculator.py:50 | `int(str(n)) == n` for every n whose `str()` is within the digit limit |
| `Text.PyIntSkipsSpaces` | services/wsjf_calculator.py:50 | `int()` reads `" 5\t"` and ideographic-space `5` as 5 |
| `Text.PyIntRejectsSeparator` | services/wsjf_calculator.py:49-52 | `int()` rejects U+001C before a digit, although `strip()` removes it, so such a `q2` counts 0 |
| `Text.PyStr` | utils/calculs.py:20 | `str(n)` is never empty and starts with a digit or `-` |
| `Caf.NextMonday` | routes/caf.py:27-29 | stepping `(7 - weekday) % 7` days reaches a Monday and passes no Monday on the way |
| `Caf.FirstMondayOf` | routes/caf.py:27-29 | the first Monday lies in the first seven days of the year, and no earlier day of the year is a Monday |
| `Caf.FirstMonday` | routes/caf.py:27-29 | the search loop stops on the year's first Monday |
| `Caf.WeekWindow` | routes/caf.py:117-118 | a week is seven days from a Monday, and consecutive weeks tile the days |
| `Caf.WeekStart` | routes/caf.py:117 | week i starts `7 * (i - 1)` days after the first Monday |
| `Caf.WeekEnd` | routes/caf.py:118 | week i ends six days after it starts |
| `Caf.WeekMonday` | routes/caf.py:36-37 | the Monday of week i is a day of the year |
| `Caf.WeekEndsRepresentable` | routes/caf.py:117-118 | below year 9999 every week's Sunday is a date Python can represent, so `fin_semaine` never overflows |
| `Caf.LastYearOverflows` | routes/caf.py:117-118 | in year 9999 week 52's Sunday falls after 31 December 9999 |
| `Caf.AnneeWeeks` | routes/caf.py:78-84 | for the views' year 2025 the first Monday is 6 January and every week ends on a representable date |
| `Caf.MondaysInYear` | routes/caf.py:36-37 | all 52 Mondays fall inside the year |
| `Caf.WeekMonth` | routes/caf.py:37-38 | each week's month is a month name, that of its Monday |
| `Caf.WeeksOfMembers` | routes/caf.py:42-43 | a week is listed for a month if and only if its month is that month |
| `Caf.WeeksOfSorted` | routes/caf.py:42-43 | the weeks of a month are listed in increasing order |
| `Caf.WeeksOf` | routes/caf.py:42-43 | the weeks appended to a month's list, in order |
| `Caf.NoWeeks` | routes/caf.py:33 | one empty list for each of the twelve month names, and no other key |
| `Caf.MondayMonth` | routes/caf.py:37-38 | the month computed for week i is the month of week i's Monday |
| `Caf.WeekTable` | routes/caf.py:32-43 | 52 labels in order; every week maps to its Monday's month; every month lists exactly its weeks, in order |
| `Caf.CafAutomatique` | routes/caf.py:45-49 | the filter `all`, or text that is not a month name, shows every week; a month name shows exactly that month's weeks, in order |
| `Caf.ChargeProjet` | routes/caf.py:109-111 | no estimate gives no charge; a missing or zero percentage gives 1 % of the estimate; otherwise the given percentage of it |
| `Common.OrElse` | routes/caf.py:109-110 | `x or default` on a number: `None` and zero give the default, any other number is kept |
| `Caf.TotalJours` | routes/caf.py:123 | the number of days of a phase, both ends included |
| `Caf.Jours` | routes/caf.py:121-122 | the days a phase shares with week i, both ends included |
| `Caf.Parsed` | routes/caf.py:106-113 | a row is kept only when both its dates parse |
| `Caf.UnparsedRowAddsNothing` | routes/caf.py:106-113 | a row whose dates do not parse is skipped: it meets no week and adds nothing |
| `Caf.Overlaps` | routes/caf.py:120 | the test `debut <= fin_semaine and fin >= debut_semaine` on a parsed row |
| `Caf.OverlapsIffSharedDay` | routes/caf.py:120-122 | for a phase that does not end before it starts, the overlap test holds exactly when `jours` is at least 1, and the later of the phase start and the week's Monday is a shared day |
| `Caf.Adds` | routes/caf.py:120-124 | a phase adds to week i when it meets the week and has at least one day |
| `Caf.DaysIn` | routes/caf.py:120-124 | the days of the phase counted for week i, 0 when it adds nothing there |
| `Caf.Prorata` | routes/caf.py:125 | `(charge * jours) / total_jours` |
| `Caf.Part` | routes/caf.py:120-125 | the share of a charge a week receives: its prorata where the phase adds, else 0 |
| `Caf.Share` | routes/caf.py:109-125 | the share of a row's own charge a week receives |
| `Caf.DaysInBounds` | routes/caf.py:120-124 | a week the phase adds to holds 1 to 7 of its days, no more than the phase has; any other week holds none |
| `Caf.ProrataEnds` | routes/caf.py:125 | none of the days gets none of the charge, and all of them get all of it |
| `Caf.ProrataAdd` | routes/caf.py:125 | the shares of two runs of days add up to the share of the combined run |
| `Caf.ProrataBounds` | routes/caf.py:125 | the share of some of the days lies between 0 and the whole charge |
| `Caf.PartIsProrata` | routes/caf.py:120-125 | every week's share is the prorata of the days the phase spends in it |
| `Caf.PartBounds` | routes/caf.py:120-125 | a week's share lies between 0 and the whole charge, for either sign |
| `Caf.InvertedPhaseAddsNothing` | routes/caf.py:123-124 | a phase that ends before it starts adds nothing to any week |
| `Caf.CommonDays` | routes/caf.py:120-123 | the days two ranges share are never negative, and are all of the inner range when it is contained |
| `Caf.SumDaysIsCommonDays` | routes/caf.py:116-123 | the days spent in weeks 1..n are the days the phase shares with those weeks |
| `Caf.SumPartsIsProrata` | routes/caf.py:116-125 | summing the weekly shares is taking the prorata of the summed days |
| `Caf.PartsConserved` | routes/caf.py:116-125 | a phase inside weeks 1..n hands out any charge without loss or excess |
| `Caf.ChargeConserved` | routes/caf.py:105-126 | the weekly shares of a phase inside the planned weeks add up to exactly its charge |
| `Caf.ZeroLoads` | routes/caf.py:103 | a table of weeks 1..52, each with every profile at 0 |
| `Caf.SpreadRow` | routes/caf.py:105-126 | one row adds its share to its own profile in every week it meets, and changes nothing else |
| `Caf.CafRequise` | routes/caf.py:103-126 | the load of a profile in a week is the sum of the shares of that profile's rows |
| `Caf.Load` | routes/caf.py:105-126 | the load of a profile in a week: the shares of that profile's rows, summed in row order |
| `ImportExcel.Replace` | routes/import_excel_routes.py:34 | a one-character text becomes the replacement if it is the replaced character and stays as it is otherwise; a character is in the result if and only if it is in the text and is not the replaced one, or is in the replacement and the replaced one occurred |
| `ImportExcel.ReplaceAppend` | routes/import_excel_routes.py:34 | replacing in two joined texts is replacing in each and joining the results; with the one-character case this fixes the result position by position |
| `ImportExcel.Replacements` | routes/import_excel_routes.py:34 | the four `.replace` calls in order: on one character `_` and `-` become a space, `’` becomes `'`, `œ` becomes `oe` and any other character stays; none of the four is left |
| `ImportExcel.ReplacementsAppend` | routes/import_excel_routes.py:34 | the four replacements also work piece by piece |
| `ImportExcel.ReplaceAbsent` | routes/import_excel_routes.py:34 | replacing a character that does not occur changes nothing |
| `ImportExcel.ReplacementsMembers` | routes/import_excel_routes.py:34 | after the four replacements every character other than the replaced ones, their replacements and the space is in the result exactly when it is in the input |
| `ImportExcel.ReplacementsOfClean` | routes/import_excel_routes.py:34 | text without those four characters is left unchanged |
| `ImportExcel.NormalizeText` | routes/import_excel_routes.py:24-36 | `None` and any-case `nan` give the empty text; the result has no `_`, `-`, `’` or `œ`, no capitals, single inner spaces and none at the ends; it keeps the input's other characters, lower-cased, and its words are those of the lower-cased text after the four replacements |
| `ImportExcel.NormalizedWords` | routes/import_excel_routes.py:28-35 | stripping before lower-casing and replacing changes no word |
| `ImportExcel.NormalizeKeepsWords` | routes/import_excel_routes.py:24-36 | for text without `_`, `-`, `’` or `œ`, the normalised text has exactly the words of the lower-cased text, in order |
| `ImportExcel.NormalizeClean` | routes/import_excel_routes.py:24-36 | text already in normal form normalises to itself, unless it reads `nan` |
| `ImportExcel.NormalizeAgain` | routes/import_excel_routes.py:24-36 | normalising twice is normalising once, except that a result reading `nan` is emptied the second time |
| `ImportExcel.NanEmptied` | routes/import_excel_routes.py:29-30 | `nan` normalises to the empty text |
| `ImportExcel.NanSurvivesOnce` | routes/import_excel_routes.py:29-35 | `nan_` normalises to `nan` and then to the empty text, so normalisation is not idempotent |
| `ImportExcel.Similar` | routes/import_excel_routes.py:39-43 | an empty text on either side is never similar; otherwise similar exactly when the ratio reaches the threshold |
| `ImportExcel.RefMarks` | routes/import_excel_routes.py:124-125 | a row is marked exactly when its stripped `ref ogp` is not empty and not `nan` in any case |
| `ImportExcel.IsRefRow` | routes/import_excel_routes.py:124-125 | the `ref ogp` test of one row: its stripped text is not empty and not `nan` in any case |
| `ImportExcel.RefRowNeedsText` | routes/import_excel_routes.py:124-125 | a cell of whitespace only, or a padded `nan` in any case, never opens a project block |
| `ImportExcel.DetectBlocks` | routes/import_excel_routes.py:121-129 | the loop finds the blocks of the recursive definition; they are well formed; a row opens a block if and only if it is a project row not inside another block; every project row is in a block |
| `ImportExcel.ScanBlocks` | routes/import_excel_routes.py:121-129 | the index loop over the row marks (skip three rows after a project row, one otherwise) yields exactly the blocks of the recursive definition from row 0 |
| `ImportExcel.BlocksFrom` | routes/import_excel_routes.py:121-129 | the blocks from row i on: a project row opens a block of three rows (fewer at the end) and the scan resumes after it, any other row is skipped |
| `ImportExcel.BlocksWellFormed` | routes/import_excel_routes.py:124-127 | each block opens on a project row, spans `min(i + 3, n)`, and the blocks are ordered and disjoint |
| `ImportExcel.BlocksCover` | routes/import_excel_routes.py:123-129 | every project row lies in some block |
| `ImportExcel.StartNotInside` | routes/import_excel_routes.py:126-127 | the second and third rows of a block never open a block |
| `ImportExcel.StartsAreMarked` | routes/import_excel_routes.py:123-129 | in ordered covering blocks, a row opens a block if and only if it is a project row not inside another block |
| `ImportExcel.DetectedBlocks` | routes/import_excel_routes.py:121-129 | the three block properties hold of the blocks found from the first row |
| `ImportExcel.First` | routes/import_excel_routes.py:226-227 | the position found satisfies the test and no earlier one does; none is found only when no element satisfies it |
| `ImportExcel.ExactMatch` | routes/import_excel_routes.py:207-211 | a row matches exactly when its label is equal, and its type and value are equal or the column's are empty |
| `ImportExcel.FuzzyMatch` | routes/import_excel_routes.py:219-221 | a row matches loosely when its label is similar, and its type and value are similar or the column's are empty |
| `ImportExcel.LinkColumn` | routes/import_excel_routes.py:200-227 | no link when type and value are both empty; otherwise the first exact match's id, or without any exact match the first fuzzy match's id; no link if and only if nothing matches |
| `ImportExcel.WildcardWidens` | routes/import_excel_routes.py:207-211 | an empty type or value is a wildcard; with both empty only the label must be equal |
| `ImportExcel.EmptyLabelLinksExactly` | routes/import_excel_routes.py:216-224 | a column whose label normalises to nothing is linked only to a row with an empty label, by the exact test |

## Left out

- `Calculs.WeekKey`: its contract states only that a key is never empty.
  That is why the `if not semaines_cle` guard (utils/calculs.py:33-34) never
  fires.  What the key holds is stated by `Calculs.WeekKeyRoundTrip`.
- The first `get_semaine_key` (utils/calculs.py:4-12) is replaced by the
  second definition when the module loads, so it is never called.  Only the
  second one is modelled.
- `datetime.strptime` parsing is left out.  Dates are valid `Date` values or
  ordinals, and a date that fails to parse in `caf_requise` is `None`.  In
  `get_semaine_key`, a text that does not parse would raise, so the model
  requires a valid date.
- `caf_requise` skips rows whose estimate or percentage is not a number
  (the `except` branch at routes/caf.py:112-113).  Here both are `Option<real>`
  and only dates can fail.
- Adding to a profile that `profils` does not list raises `KeyError` in
  `caf_requise` (routes/caf.py:126).  `Caf.CafRequise` and `Caf.SpreadRow`
  require that every such row's profile is listed.
- The placeholder capacities are left out: `nb_collab * 5` per week
  (routes/caf.py:59-64) and the whole of `caf_disponibles`.  They are
  constants from the database, not computed.
- The per-profile rows handed to the templates (routes/caf.py:128-134) are
  left out, because they only copy `charge_semaine`.
- Flask routing, database queries, pandas reading, templates, uploads, the
  debug log and `total_links` are I/O and are left out.
- `round(wsjf, 2)` is left out: the score is the exact real ratio.
- `str.lower()` is modelled on ASCII letters only.  This is exact for the
  comparison with `nan`, because no other character lower-cases to `n` or `a`.
- The Unicode NFD decomposition and the dropping of combining marks
  (routes/import_excel_routes.py:32-33) are the identity here.  They are the
  identity on ASCII text.
- `SequenceMatcher.ratio()` is a parameter with no properties assumed.
- `int()` accepts Unicode decimal digits, but the model accepts ASCII digits
  only.
- `Text.PyStr`: `str(n)` raises `ValueError` beyond 4300 digits, which the
  model does not; `Text.PyIntOfPyStr` and `Wsjf.Q2Defaults` state the round
  trip only within that limit.
- The digit limit can be changed with `sys.set_int_max_str_digits`; the
  model fixes the default of 4300.
- The `valeur_metier` table is taken as already normalised.  The source
  normalises its three text columns right after reading them
  (routes/import_excel_routes.py:114-115).
- The joining of the type and value cells of a block
  (routes/import_excel_routes.py:172-191) is left out, because it is pandas
  cell handling.  `ImportExcel.LinkColumn` receives the normalised texts.
- `strftime("%B")` is taken in the English (C) locale.
- The recomputation of a project's score from the stored complexities
  (routes/projet_routes.py:224-249) is not part of this model.
