# Daily call statistics — a verified model

`call_statistic_daily_OP.php` is a daemon that posts a daily call report to
chat. Each weekday at noon (Moscow time) it does the following:

- It pulls today's call history from the telephony statistics API, page by page.
- It keeps the calls made or taken by the sales managers ("хантер" position,
  department 47).
- It normalises each caller's number to `7` followed by the last ten digits.
- It sorts the calls by start time.
- It counts calls, incoming calls, missed calls and distinct numbers, globally
  and per manager.
- It works out which missed numbers are still unanswered at the end of the day.
  A number that missed calls came from is credited to the manager of its
  *first* missed call. Any later connected call from that number, handled by
  any manager, clears the credit.
- It renders an eight-line summary plus a six-line block per manager, and sends
  the text to the configured chats.

This project models the four functions that hold that logic, in the source's
own form:

- `Fetching` — `fetchRawCalls`: the cursor loop, as a method over an abstract page provider.
- `Phone`, `StrCmp`, `Sorting`, `Attribution` — `filterCalls`: the manager filter, number normalisation, direction mapping and the stable `strcmp` sort.
- `Aggregation`, `AggregationFacts`, `StatisticsEngine` — `computeStatistics`. The pass is written as a fold of a `Step` function, and `ComputeStatistics` is the loop version proved equal to it. Independent declarative definitions (counts, `Names`, `FirstMiss`, `Answered`, `Unresolved`) say what the result means.
- `Text`, `Report` — `buildMessage`: the header, the per-employee blocks, `implode`, and decimal rendering of the counters.
- `Scenarios` — A worked day and two pagination runs.

Shared types are in `Common` (`Option`, `Result`) and `Records` (`RawCall`,
`Call`, the codes `2`, `"304"` and `"200"`).

PHP ordered arrays are modelled as a sequence of keys plus a map:

- `$emps` becomes the `names` sequence plus the `emps` map. Employees are
  keyed by `USER_NAME` (line 149), so two managers with the same full name
  share one record (`AggregationFacts.FoldTally` counts over `Of(calls, name)`).
- `$assignedMissed` becomes a sequence of `Assignment(phone, name)`, where no
  phone occurs twice. `unset` is `Without`, which keeps the order of the other
  entries.

`foreach ($emps as $name => …)` therefore runs in first-appearance order.

Behaviour of the code worth knowing:

- A connected call (`"200"`) clears a number's attribution in either direction,
  because line 175 does not check the call type. `Records.IsAnswered` has no
  direction condition.
- A number with fewer than ten digits normalises to `7` plus all of its digits.
  That result is shorter than eleven characters (`Phone.NormalizeShortNumber`).
  Eleven characters is guaranteed only from ten digits on
  (`Phone.NormalizeConformant`).
- A missing `CALL_FAILED_CODE` becomes `None`. Such a call is neither missed
  nor answered; it is not counted as a success.
- The loop stops when `next` is absent or not positive (`$start > 0`), not only
  when it is zero.

## Model

| member | source | states |
|---|---|---|
| Fetching.FetchRawCalls | call_statistic_daily_OP.php:55-82 | The loop's result is the reference `Fetched`. It succeeds exactly when no requested page is an error response. On success it returns the records of the requested pages concatenated in request order. |
| Fetching.Requests | call_statistic_daily_OP.php:66-78 | The cursors requested start at 0. Each following cursor is the previous response's `next`, read as 0 when absent. Every request except the last had no error and a positive cursor; the last one failed or had no positive `next`. |
| Fetching.FetchedOkIff | call_statistic_daily_OP.php:70-73 | A fetch returns records if and only if none of the responses to the requested cursors carries `error`. |
| Fetching.FetchedValue | call_statistic_daily_OP.php:74-78 | A successful fetch is the concatenation, in request order, of every requested page's `result`, empty pages included. |
| Fetching.FetchedError | call_statistic_daily_OP.php:70-73 | A failed fetch stops at the failing request. That is the last one requested, and the message is `Error fetching calls: ` followed by its `error_description`. |
| Phone.DigitsOnly | call_statistic_daily_OP.php:114 | Removing the non-digits leaves only digits and never lengthens the string. |
| Phone.DigitsOnlyAppend | call_statistic_daily_OP.php:114 | Digit extraction distributes over concatenation. |
| Phone.DigitsOnlyOfDigits | call_statistic_daily_OP.php:114 | A string made only of digits is left unchanged. |
| Phone.DigitsOnlyKeepsDigits | call_statistic_daily_OP.php:114 | Every digit keeps its number of occurrences; only non-digits are removed. |
| Phone.TakeLast | call_statistic_daily_OP.php:115 | `substr($s, -10)` yields min(10, length of s) characters, and they are a suffix of `s`. |
| Phone.NormalizePhone | call_statistic_daily_OP.php:113-116 | The result is `7` followed by the last `min(10, #digits)` digits of the input: all digits, starting with `7`, its tail a suffix of the input's digits. |
| Phone.NormalizeConformant | call_statistic_daily_OP.php:113-116 | From ten digits on, the normalised number has exactly eleven characters: `7` plus the last ten digits. |
| Phone.NormalizeIdempotent | call_statistic_daily_OP.php:113-116 | Normalising a normalised number of eleven characters changes nothing. |
| Phone.NormalizeExample | call_statistic_daily_OP.php:113-116 | `+7 (916) 123-45-67` and the trunk-prefixed `8 916 123 45 67` both normalise to `79161234567`. |
| Phone.NormalizeShortNumber | call_statistic_daily_OP.php:113-116 | A short input such as `12-34` gives `71234`, which is not eleven characters and is not stable under normalisation (it becomes `771234`). |
| StrCmp.Compare | call_statistic_daily_OP.php:130 | The `strcmp` sign is in -1..1, and it is 0 exactly when the strings are equal. |
| StrCmp.CompareAntisymmetric | call_statistic_daily_OP.php:130 | Swapping the arguments negates the comparison. |
| StrCmp.LexLeTotal | call_statistic_daily_OP.php:130 | Any two start dates are ordered one way or the other. |
| StrCmp.LexLeAntisymmetric | call_statistic_daily_OP.php:130 | Dates ordered both ways are equal. |
| StrCmp.LexLeTransitive | call_statistic_daily_OP.php:130 | The string order is transitive, so the comparator is a valid sort order. |
| StrCmp.PrefixFirst | call_statistic_daily_OP.php:130 | A proper prefix sorts before the longer string. |
| StrCmp.CommonPrefixDecides | call_statistic_daily_OP.php:130 | At the first position where two strings differ, the smaller character sorts first. |
| StrCmp.TimestampExample | call_statistic_daily_OP.php:130 | 09:15 sorts before 10:02 on the same day. |
| Sorting.Insert | call_statistic_daily_OP.php:130 | Insertion adds exactly the one call to the multiset of calls. |
| Sorting.InsertSorted | call_statistic_daily_OP.php:130 | Inserting into a sorted sequence keeps it sorted by start date. |
| Sorting.SortByStart | call_statistic_daily_OP.php:130 | The result is non-decreasing by start date and is a permutation of the input. |
| Sorting.WithStartAppend | call_statistic_daily_OP.php:130 | The calls of one start date in a concatenation are those of each part, in order. |
| Sorting.InsertStable | call_statistic_daily_OP.php:130 | Insertion puts the new call after every call with the same start date and keeps their order. |
| Sorting.SortStable | call_statistic_daily_OP.php:130 | The sort is stable: for every start date, the calls with that date keep their input order. |
| Sorting.SortedStableUnique | call_statistic_daily_OP.php:130 | Any two sorted sequences that agree on the calls of every start date are equal. So every stable sort by this comparator gives the same result as `SortByStart`. |
| Attribution.AttributedMembership | call_statistic_daily_OP.php:109-128 | A call is kept if and only if it is the attributed form of an input record with a truthy user id that is a key of the manager map. |
| Attribution.Attribute | call_statistic_daily_OP.php:110-128 | A kept call belongs to a known manager under that manager's name. It is missed exactly when the record has type 2 and code `304`, and answered exactly when its code is `200`. Its number has eleven characters exactly when the raw number has at least ten digits. |
| Attribution.AttributeFields | call_statistic_daily_OP.php:118-128 | A kept call carries the manager's id and name, direction `Incoming` exactly when the type is 2, the normalised number, and the record's start date and failure code. |
| Attribution.KeepManagers | call_statistic_daily_OP.php:108-129 | The filtering loop produces `Attributed`: the admitted records, attributed, in input order. |
| Attribution.FilterCalls | call_statistic_daily_OP.php:107-133 | The output is sorted by start date and is a permutation of the attributed calls. It is stable per start date. It holds exactly the attributions of admitted records, and every call belongs to a manager in the map, under that manager's name. |
| Attribution.SortedAttributed | call_statistic_daily_OP.php:109-130 | The sorted attributed calls are stable per start date, hold exactly the admitted records' attributions, and name only known managers. |
| Aggregation.Step | call_statistic_daily_OP.php:146-178 | One call creates its employee's record if missing and leaves every other employee's record as it was. Attributions of other numbers are unchanged. After a connected call its number is in the success set and has no attribution. |
| Aggregation.NextEntries | call_statistic_daily_OP.php:166-177 | A first unanswered miss from an unattributed number adds the call's employee as its owner. A connected call removes its number. Other numbers' attributions are untouched. |
| Aggregation.WithoutKeeps | call_statistic_daily_OP.php:177 | `unset` keeps exactly the attributions of the other numbers. |
| Aggregation.Fold | call_statistic_daily_OP.php:145-179 | After the pass, an employee has an entry in the ordered name list exactly when they have a tally. |
| Aggregation.Rows | call_statistic_daily_OP.php:184-193 | There is one finalised record per employee name, in the same order, and record `k` is employee `k`'s row. |
| AggregationFacts.FoldCounters | call_statistic_daily_OP.php:156-176 | After the pass, the totals are the number of calls, the number of incoming calls and the number of missed incoming calls. The unique-number set is the calls' numbers, and the success set is the numbers of connected calls. |
| AggregationFacts.NamesSpec | call_statistic_daily_OP.php:151-154 | A name is listed if and only if that employee has at least one call. |
| AggregationFacts.FoldNames | call_statistic_daily_OP.php:151-154 | The pass lists the employees once each, in the order of their first call. |
| AggregationFacts.TallyOfSnoc | call_statistic_daily_OP.php:163-173 | One more call changes only its own employee's counters, by exactly one call's contribution. |
| AggregationFacts.FoldTally | call_statistic_daily_OP.php:151-173 | Each employee's counters are the counts over that employee's own calls: calls, incoming, missed, and distinct numbers. |
| AggregationFacts.MissPhonesSpec | call_statistic_daily_OP.php:166-170 | A number is among the missed numbers if and only if it has a first missed call. |
| AggregationFacts.FirstMissSpec | call_statistic_daily_OP.php:166-170 | `FirstMiss` is absent exactly when no incoming `304` call came from the number. Otherwise it names the employee on the earliest such call. |
| AggregationFacts.FirstMissHasCalls | call_statistic_daily_OP.php:166-170 | The employee credited with a first miss has calls, so that employee is listed. |
| AggregationFacts.SelectMember | call_statistic_daily_OP.php:168-177 | An attribution survives if and only if its number missed, was never connected, and its employee took the first missed call. |
| AggregationFacts.SelectAnswered | call_statistic_daily_OP.php:175-177 | A connected call removes that number's attribution and leaves the other attributions in order. |
| AggregationFacts.StepRepeatMiss | call_statistic_daily_OP.php:166-170 | A further missed call from a number that already missed does not add an attribution or move it to another employee. |
| AggregationFacts.StepNewMiss | call_statistic_daily_OP.php:166-170 | A first missed call adds an attribution to its employee, at the end, unless the number was already connected. |
| AggregationFacts.StepAnswered | call_statistic_daily_OP.php:175-178 | A connected call, in either direction and from any employee, clears its number's attribution. |
| AggregationFacts.StepOther | call_statistic_daily_OP.php:145-179 | A call that is neither missed nor connected leaves the attributions as they were. |
| AggregationFacts.FoldEntries | call_statistic_daily_OP.php:142-178 | At the end of the pass, the attribution map is exactly the never-answered missed numbers, each credited to its first missed call's employee, in first-miss order. |
| AggregationFacts.OwnedByMember | call_statistic_daily_OP.php:187-189 | A number is in an employee's unanswered list if and only if it is attributed to that employee. |
| AggregationFacts.OwnedByDistinct | call_statistic_daily_OP.php:187-189 | An employee's unanswered list has no repeats when the map has unique keys. |
| AggregationFacts.SelectDistinct | call_statistic_daily_OP.php:168-177 | The surviving attributions have pairwise distinct numbers. |
| AggregationFacts.CountOwnedAll | call_statistic_daily_OP.php:182-190 | When every attributed employee is listed once, the per-employee unanswered counts add up to the number of attributions. |
| AggregationFacts.SumRows | call_statistic_daily_OP.php:184-193 | The unanswered counts of the finalised rows add up to the attributions owned by the listed names. |
| AggregationFacts.StatisticsCounters | call_statistic_daily_OP.php:156-161 | The reported totals are the number of calls, the incoming count, the missed count and the number of distinct phones. |
| AggregationFacts.StatisticsEmployees | call_statistic_daily_OP.php:184-193 | There is one record per employee, in order of first call. Its counters are counts over that employee's calls, and its unanswered count is the length of its list. |
| AggregationFacts.UnansweredSpec | call_statistic_daily_OP.php:166-189 | A number is in employee `k`'s unanswered list if and only if it was never connected and employee `k` took its first missed call. |
| AggregationFacts.AnsweredNotUnanswered | call_statistic_daily_OP.php:175-177 | A number with any connected call that day is in nobody's unanswered list, whichever employee connected it. |
| AggregationFacts.SingleAttribution | call_statistic_daily_OP.php:168-170 | A number is in at most one employee's unanswered list. |
| AggregationFacts.UnansweredNoRepeats | call_statistic_daily_OP.php:168-189 | Repeated misses do not repeat a number in an unanswered list. |
| AggregationFacts.UnansweredTotal | call_statistic_daily_OP.php:182-190 | The global unanswered count equals the sum of the employees' unanswered counts. |
| AggregationFacts.StatisticsSpec | call_statistic_daily_OP.php:136-205 | All of the facts above, stated for one statistics value. |
| AggregationFacts.UnansweredAll | call_statistic_daily_OP.php:166-189 | Every employee's unanswered list is exactly their first-missed, never-connected numbers. |
| StatisticsEngine.ComputeStatistics | call_statistic_daily_OP.php:136-205 | The loop computes `StatisticsOf(calls)`. The totals are the counts over the calls, and the global unanswered count is the sum of the per-employee counts. Employees are listed in order of first call, and each unanswered list holds exactly the never-connected numbers whose first miss was that employee's. |
| StatisticsEngine.RecordCall | call_statistic_daily_OP.php:146-178 | One iteration of the loop is exactly one `Step` of the fold. |
| StatisticsEngine.FinalizeEmployees | call_statistic_daily_OP.php:184-193 | The finalisation loop (unique count, the unanswered list in map order, and its count) produces `Rows`. |
| Text.NatToString | call_statistic_daily_OP.php:212-216 | Interpolated counters are non-empty digit strings with no leading zero. |
| Text.DecimalRoundTrip | call_statistic_daily_OP.php:212-216 | Reading the rendered digits back gives the counter. |
| Text.NatToStringInjective | call_statistic_daily_OP.php:212-216 | Different counters render differently. |
| Text.Join | call_statistic_daily_OP.php:221-229 | `implode` of nothing is empty, and `implode` of one item is that item. |
| Text.SplitJoin | call_statistic_daily_OP.php:229 | When no line contains the separator, splitting the joined text gives back the lines. |
| Text.JoinLength | call_statistic_daily_OP.php:221-229 | Joining `n` items adds exactly `n - 1` separators. |
| Text.JoinStartsWithFirst | call_statistic_daily_OP.php:221 | The joined list starts with its first item. |
| Report.Header | call_statistic_daily_OP.php:210-219 | The summary has eight lines. |
| Report.Block | call_statistic_daily_OP.php:221-227 | Each employee contributes six lines. |
| Report.Blocks | call_statistic_daily_OP.php:220-228 | `n` employees contribute `6n` lines. |
| Report.BuildMessage | call_statistic_daily_OP.php:208-230 | The loop produces the header, then every employee's block in order, joined with newlines. |
| Report.AppendEmployee | call_statistic_daily_OP.php:221-227 | One iteration appends exactly that employee's six lines. |
| Report.LineCount | call_statistic_daily_OP.php:210-228 | The message has `8 + 6n` lines for `n` employees. |
| Report.BlockAt | call_statistic_daily_OP.php:220-228 | Lines `6k` to `6k + 5` of the blocks belong to employee `k`. |
| Report.EmployeeLines | call_statistic_daily_OP.php:220-228 | In the message, employee `k` occupies lines `8 + 6k` to `13 + 6k`. The first of them is ` ` plus the name, and the last shows the unanswered numbers. |
| Report.MessageLines | call_statistic_daily_OP.php:229 | When no name contains a newline, the message splits back into exactly its lines. |
| Report.UnansweredTextEmptyIff | call_statistic_daily_OP.php:221 | For lists of digit-led numbers, the unanswered line shows `—` if and only if the list is empty. |
| Report.EmptyDay | call_statistic_daily_OP.php:210-219 | With no calls, the message is the eight-line header with every counter 0 and no employee blocks. |
| Scenarios.DayStatistics | call_statistic_daily_OP.php:145-204 | X is missed by A and then connected by B; Y is missed by A. The totals are 3/3/2 with 2 distinct numbers and 1 unanswered. A has 2 missed and `[Y]` unanswered; B has `[]`. |
| Scenarios.AnsweredBeforeMiss | call_statistic_daily_OP.php:166-178 | A miss from a number connected earlier that day counts as missed but is never attributed. |
| Scenarios.TwoPagesFetched | call_statistic_daily_OP.php:58-78 | A page with `next` = 50 followed by a page without `next` yields both pages' records in request order. |
| Scenarios.FailingSecondPageFetched | call_statistic_daily_OP.php:70-73 | An error on the second page fails the whole fetch with that page's description, with no partial result. |

## Left out

- The `Logger` class (lines 14-52) and every log call: they write a file only.
  Counts such as "Получено N" are not modelled.
- The API client (`CRest::call`, lines 69, 93, 236) is not part of this model.
  In `fetchRawCalls` it becomes the `provider` function. The fixed query
  (date range, portal-number filter, `SORT`) is part of the provider.
- `fetchManagers` (lines 85-104) is a remote lookup plus `trim` of
  "NAME LAST_NAME". The model takes its result as the `managers` map
  (id to display name).
- `sendMessage` (lines 233-242), `runOnce` (lines 245-261), `getNextRun`
  (lines 264-273) and the daemon loop are not modelled: they are network
  calls, clock reads and sleeping. The report date is the `date` parameter.
- Fetching.FetchRawCalls: termination is assumed through the ghost bound
  `pages` (`StopsWithin`). A provider whose `next` never ends the loop makes
  the PHP loop run forever, and that case is not modelled.
- Attribution.FilterCalls: `CALL_TYPE` is an integer, so PHP's loose `== 2`
  on strings such as `"2"` is not modelled. `usort` is modelled as a stable
  insertion sort. PHP 8's sort is stable, and `Sorting.SortedStableUnique`
  shows any stable sort gives the same sequence.
- Aggregation.Step: PHP turns a numeric-string array key into an integer key.
  Phone keys are always `7` followed by digits, so every key of
  `$uniqueNumbers`, `$globalSuccess`, `$assignedMissed` and `_set` is an
  integer. `count`, `array_keys` and `implode` give the same output either way,
  so this changes nothing the report shows. A manager name made only of digits
  would also become an integer key of `$emps`. Then `$to === $n` on line 188
  compares a string with an integer and fails, so that manager's unanswered
  list would be empty while `overallUnansweredCount` still counts its numbers.
  The model keeps every key as a string and does not model that case.
- Integer widths are not modelled: counters are unbounded naturals, which
  matches PHP for any realistic day.
- Determinism (the same ordered calls give the same statistics) holds because
  `StatisticsOf` is a function, so it has no lemma of its own.
