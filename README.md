# Attendance rules: a verified model of the rule engine

The repository keeps *attendance rules* in one JSON document. Each rule has a
time window list (intervals) and a day selector: every day, one weekday, or
one calendar date. The engine in `models/attendance-rule.js` does four things:

- It accepts a new rule only when its own intervals do not conflict with each
  other and do not conflict with the stored rules its day selector makes
  relevant.
- It answers date-range queries by expanding the stored rules into
  per-date interval lists.
- It deletes a rule by id.
- It returns the stored list unchanged when a query has no date range.

This project models that engine in Dafny and proves its contracts.

Layout:

- `date_time_utils.dfy` (module `DateTimeUtils`) stands in for the date helpers
  the engine calls. Dates are day numbers counted from 1970-01-01, a Thursday.
  The weekday-name list is indexed by UTC day of week, Sunday first. The
  time-conflict test is a function value `ConflictTest` that the model never
  fixes.
- `rule_model.dfy` (module `RuleModel`) holds the values: the day selector
  `Day = Daily | Weekday(name) | ExactDate(date)`, rules, requests, projected
  day entries and queries. It also holds the functions that specify the
  engine's loops. `Gather` concatenates, in store order, the intervals of the
  rules a `Filter` keeps. `ComparisonSet` is what a candidate is checked
  against. `DayIntervals` is what a projected date reports. `Projection` is the
  whole date-range answer. `Consistent` is the store invariant that
  insert-time validation maintains.
- `rule_lemmas.dfy` (module `RuleLemmas`) proves properties of those
  functions.
- `attendance_rule.dfy` (module `AttendanceRule`) is the engine in the code's
  own imperative form:
  - the nested validation loops with early return;
  - the collecting loops that build interval lists by concatenation;
  - the class `AttendanceRuleStore`, whose field `document` is the JSON
    document (`None` while the file does not exist). The methods that change
    the store (`SaveNewRuleToFile`, `SaveNewAttendanceRule` when validation
    passes, `DeleteAttendanceRule` when some rule has the id) read the whole
    list, change it and write the whole list back. The other methods only
    read it.
- `scenarios.dfy` (module `Scenarios`) works through small stores: the
  Monday-rule and Monday-date cases, three daily rules, and a three-day
  projection.

A weekday rule and a date rule falling on that weekday are evidently meant to
be checked against each other, whichever of the two is stored first. The code
checks only one direction, and the model follows the code. A date candidate is
compared with the stored rules for its weekday. A weekday candidate, however,
leaves `date` undefined (models/attendance-rule.js:74,79-80), so its test at
line 89 never matches a stored date rule, even one that falls on that weekday. The model
keeps this: `ComparisonFilter(Weekday(w))` carries no date.
`Scenarios.WeekdayRuleMissesMondayDate` shows the consequence: the store
accepts the rule, and afterwards that date reports two conflicting intervals.
`RuleLemmas.AcceptedRuleFitsProjectedDay` states what validation still
guarantees against everything a date reports, on dates whose date rules hold
no intervals when the rule is a weekday rule.
`RuleLemmas.AcceptedWeekdayRuleFitsDailyAndWeekly` covers every date of the
weekday: an accepted weekday rule conflicts with none of that date's daily and
weekday intervals, whatever date rules the date carries.

## Model

| member | source | states |
|---|---|---|
| `AttendanceRule.ValidateNonConflictingIntervals` | models/attendance-rule.js:45-57 | returns true exactly when no two intervals at distinct positions conflict; a list of zero or one interval always passes |
| `AttendanceRule.ValidateNonConflictingIntervalsArrays` | models/attendance-rule.js:59-68 | returns true exactly when no interval of the first list conflicts with any interval of the second; true when either list is empty |
| `AttendanceRule.GetIntervals` | models/attendance-rule.js:96-102 | returns every stored rule's intervals concatenated in store order |
| `AttendanceRule.GetRulesIntervalsByDayFilter` | models/attendance-rule.js:173-184 | returns, in store order, the intervals of exactly the rules whose day selector equals the filter |
| `AttendanceRule.GetDailyRulesIntervals` | models/attendance-rule.js:150-155 | returns the intervals of the daily rules, in store order |
| `AttendanceRule.GetWeeklyRulesIntervals` | models/attendance-rule.js:157-163 | returns the intervals of the rules for the weekday the date falls on, in store order |
| `AttendanceRule.GetDateRulesIntervals` | models/attendance-rule.js:165-171 | returns the intervals of the rules for exactly that date, in store order |
| `AttendanceRule.AttendanceRuleStore.GetAllAttendanceRules` | models/attendance-rule.js:32-37 | a missing document reads as the empty list, an existing one as its stored list |
| `AttendanceRule.AttendanceRuleStore.ValidateNonConflictingIntervalsWithSavedRules` | models/attendance-rule.js:70-94 | true exactly when the candidate's intervals conflict with none of the comparison set its day selector picks: all rules for a daily candidate; otherwise daily, same-weekday and (for a date candidate only) same-date rules |
| `AttendanceRule.AttendanceRuleStore.ValidateNonConflictingAttendanceRule` | models/attendance-rule.js:40-43 | true exactly when the candidate has no internal conflict and no conflict with its comparison set |
| `AttendanceRule.AttendanceRuleStore.SaveNewRuleToFile` | models/attendance-rule.js:26-30 | the document becomes the previous list with the rule appended |
| `AttendanceRule.AttendanceRuleStore.SaveNewAttendanceRule` | models/attendance-rule.js:9-24 | on passing validation returns the built rule and the list becomes old list ++ [rule]; otherwise returns nothing and the document is untouched; store consistency and unique ids (given a fresh id) are preserved |
| `AttendanceRule.AttendanceRuleStore.GetAttendanceRules` | models/attendance-rule.js:104-117 | with both date parameters the answer is the projection of the stored rules over that range; otherwise the stored list unfiltered |
| `AttendanceRule.AttendanceRuleStore.FilterAttendanceRulesByDateRange` | models/attendance-rule.js:119-148 | the loop's result is the projection of the stored rules from start to end; empty when start > end |
| `AttendanceRule.AttendanceRuleStore.DeleteAttendanceRule` | models/attendance-rule.js:186-196 | removes the first rule with the id and returns it, leaving the others in order; with no such rule returns not-found and leaves the document untouched; preserves store consistency; with unique ids, no rule with that id remains |
| `RuleModel.BuildNewAttendanceRuleObject` | models/attendance-rule.js:18-24 | the new rule carries the given fresh id, and its day selector and intervals are exactly the request's |
| `RuleModel.BuildNewFormattedRuleObject` | models/attendance-rule.js:143-148 | a projected entry starts with its date and no intervals |
| `RuleModel.DateQueryParamsExist` | models/attendance-rule.js:115-117 | true exactly when the query carries both a start date and an end date |
| `RuleModel.IndexOfId` | models/attendance-rule.js:188-189 | the position of the first rule with the id, or none exactly when no rule has it |
| `RuleModel.RemoveAt` | models/attendance-rule.js:190 | removing one position keeps every other rule in its relative order and takes exactly one copy of that rule out of the multiset |
| `RuleLemmas.GatherSnoc` | models/attendance-rule.js:178-182 | one more loop step appends the new rule's intervals exactly when the filter keeps it |
| `RuleLemmas.GatherAppend` | models/attendance-rule.js:86-92 | collecting over two consecutive parts of the store concatenates the two collections |
| `RuleLemmas.GatherMember` | models/attendance-rule.js:86-92 | an interval is collected exactly when some kept rule holds it |
| `RuleLemmas.GatherNone` | models/attendance-rule.js:178-182 | when the filter keeps no stored rule, nothing is collected |
| `RuleLemmas.GatherSameFilter` | models/attendance-rule.js:178-182 | two filters that agree on every stored rule collect the same list |
| `RuleLemmas.NoCrossConflictConcat` | models/attendance-rule.js:59-68 | checking against a concatenation is checking against each part |
| `RuleLemmas.NoCrossConflictSymmetric` | models/attendance-rule.js:59-68 | for a symmetric conflict test, the cross check does not depend on which list comes first |
| `RuleLemmas.NoSelfConflictByPairs` | models/attendance-rule.js:45-57 | for a symmetric conflict test, checking each unordered pair once is the same check |
| `RuleLemmas.NoCrossConflictWithGather` | models/attendance-rule.js:86-93 | checking against a collected list is checking against each kept rule's intervals |
| `RuleLemmas.PassesValidationByRules` | models/attendance-rule.js:40-43 | a candidate passes exactly when it has no internal conflict and conflicts with no single rule it is compared with |
| `RuleLemmas.DailyComparedWithAll` | models/attendance-rule.js:76-78 | a daily candidate's comparison set holds exactly the intervals of all stored rules |
| `RuleLemmas.DatedComparedWithMatching` | models/attendance-rule.js:79-92 | a weekday or date candidate's comparison set holds exactly the intervals of the daily rules, the rules on its weekday (the date's weekday for a date candidate) and, for a date candidate, the rules on its date |
| `RuleLemmas.ConsistentAppend` | models/attendance-rule.js:9-16 | appending a rule that passed validation keeps the store consistent |
| `RuleLemmas.ConsistentAfterRemoval` | models/attendance-rule.js:186-196 | removing any rule keeps the store consistent |
| `RuleLemmas.ConsistentStoredPair` | models/attendance-rule.js:70-94 | in a consistent store a rule does not conflict with any earlier rule it was compared with |
| `RuleLemmas.ConsistentDailyRulesDisjoint` | models/attendance-rule.js:76-78 | in a consistent store with a symmetric conflict test, two distinct daily rules never conflict |
| `RuleLemmas.RemovedIdIsGone` | models/attendance-rule.js:188-192 | with unique ids, removing the rule with an id keeps ids unique and leaves no rule with that id |
| `RuleLemmas.DayIntervalsMember` | models/attendance-rule.js:126-133 | an interval is reported for a date exactly when a rule in force that day (daily, its weekday, or its date) holds it |
| `RuleLemmas.DayIntervalsMatchDateCandidate` | models/attendance-rule.js:79-92 | the intervals reported for a date are, counted with repetition, those a candidate for that date is compared with |
| `RuleLemmas.AcceptedRuleFitsProjectedDay` | models/attendance-rule.js:70-94 | a rule that passed validation conflicts with nothing reported on a date it applies to, provided (for a weekday rule) that the date rules for that date hold no intervals |
| `RuleLemmas.AcceptedWeekdayRuleFitsDailyAndWeekly` | models/attendance-rule.js:79-92 | an accepted weekday rule conflicts with none of the daily and same-weekday intervals on any date of its weekday, whether or not that date carries date rules |
| `RuleLemmas.ProjectionStep` | models/attendance-rule.js:123-139 | one iteration of the date loop appends the date's entry exactly when that date has intervals, and the entries so far plus the projection of the remaining dates stay equal |
| `RuleLemmas.PassesValidationOnFewerRules` | models/attendance-rule.js:186-196 | a rule that passed validation against a list still passes against any list drawn from its rules, as after a deletion |
| `RuleLemmas.ProjectionEntries` | models/attendance-rule.js:119-141 | every entry's date lies in [start, end], its interval list is non-empty and is exactly the daily ++ weekday ++ date intervals for that date |
| `RuleLemmas.ProjectionAscending` | models/attendance-rule.js:119-141 | entries appear in strictly ascending date order, so at most one per date |
| `RuleLemmas.ProjectionComplete` | models/attendance-rule.js:119-141 | every date in the range with at least one applicable interval has an entry |
| `RuleLemmas.ProjectionOfEmptyDays` | models/attendance-rule.js:135-137 | a range whose dates have no applicable intervals projects to the empty list |
| `RuleLemmas.OnlyDailyDayIntervals` | models/attendance-rule.js:126-133 | with only daily rules stored, every date reports all stored intervals |
| `RuleLemmas.OnlyDailyProjection` | models/attendance-rule.js:119-141 | with only daily rules holding some interval, the projection has one entry per date of the range, each with all stored intervals |
| `Scenarios.MondayRuleBlocksMondayDate` | models/attendance-rule.js:81-90 | a rule on a concrete Monday is refused when it conflicts with a stored Monday rule |
| `Scenarios.WeekdayRuleMissesMondayDate` | models/attendance-rule.js:79-90 | a Monday rule is accepted over a stored rule for a concrete Monday holding the same interval, and that date then reports two conflicting intervals |
| `Scenarios.ThirdDailyRuleRefused` | models/attendance-rule.js:76-78 | two non-conflicting daily rules are both accepted; a third daily rule is accepted exactly when it conflicts with neither |
| `Scenarios.DailyRuleOverThreeDays` | models/attendance-rule.js:119-141 | one daily rule over a three-day range gives three entries, one per date, each holding that rule's interval |

## Left out

- File I/O through `fu.readJSONFile` and `fu.saveJSONFile`, with its path constants, is not modelled. The document is a field of the store object, and a failing read or write is not modelled.
- `uuidv1` is not modelled. The fresh id is a parameter of `SaveNewAttendanceRule`, and id uniqueness is carried only as a hypothesis of its postcondition.
- The time-conflict test `areTimeIntervalsConflicting` is a parameter. Its boundary semantics (whether touching intervals conflict) belong to an unseen utility, and the model leaves them open. Symmetry is assumed only where a lemma says so.
- Date parsing and formatting (`dateStringToDate`, `dateToString`, `duplicateDate`) are left out. Dates are day numbers, and a projected entry carries its day number where the code formats it into a label string.
- `addDaysToDate(date, 1)` is modelled as `date + 1`.
- `getUTCDay` is modelled as `UtcDay(d) = (d + 4) % 7`.
- `getWeekdayByDateString` is modelled as `WeekdayOf`. The model assumes it agrees with indexing the weekday list by `getUTCDay`.
- Date selectors are assumed to be written in the canonical format `dateToString` produces. The code compares them as strings: the candidate's own string at line 89, and `dateToString(date)` at lines 169 and 179. A stored date rule spelt differently is therefore never projected, and a candidate for the same date spelt differently is not compared with it. The model gives every `ExactDate` a day number, so it does not capture this.
- Malformed input is not modelled. This covers day strings that are neither "daily", a weekday name nor a valid date (the code treats them as dates), a missing `intervals` field, and invalid dates.
- The query object and the truthiness of its strings are reduced to two optional day numbers. An empty parameter string is `None`.
- The `indexOf` test at line 48 compares object identity. The model compares positions, which differs only when one interval object sits in the list twice.
- The default `rules=undefined` reload in the collecting helpers is not modelled. Every call in the engine passes a list, and an empty JS array is truthy, so that branch never runs.
- `deleteAttendanceRule` returns the one-element array that `splice` produces. The model returns the removed rule itself.
- Concurrent access to the document is not modelled.

