/**
 * The values the attendance-rule engine works on, and the functions that
 * specify what its loops compute.
 */
module RuleModel {
  import opened DateTimeUtils

  datatype Option<T> = None | Some(value: T)

  /** The day selector of a rule: every day, one weekday, or one date. */
  datatype Day = Daily | Weekday(name: WeekdayName) | ExactDate(date: int)

  /** A stored attendance rule. */
  datatype Rule = Rule(id: string, day: Day, intervals: seq<Interval>)

  /** The body of a request to create a rule. */
  datatype RuleRequest = RuleRequest(day: Day, intervals: seq<Interval>)

  /** One day of a date-range projection: its date and the intervals that apply. */
  datatype DayEntry = DayEntry(date: int, intervals: seq<Interval>)

  /** The date parameters of a query; an absent or empty parameter is None. */
  datatype Query = Query(startDate: Option<int>, endDate: Option<int>)

  /** What a query answers: the stored list, or a projection over dates. */
  datatype Listing = AllRules(rules: seq<Rule>) | ByDate(entries: seq<DayEntry>)

  /**
   * Which stored rules a collecting loop takes intervals from. CandidateKeys
   * is the test of a non-daily candidate: daily rules, rules on its weekday,
   * and rules on its date when it has one.
   */
  datatype Filter = AnyDay | SameDay(day: Day) | CandidateKeys(weekday: WeekdayName, date: Option<int>)

  predicate Keeps(f: Filter, day: Day)
  {
    match f
    case AnyDay => true
    case SameDay(d) => day == d
    case CandidateKeys(w, date) =>
      day == Daily || day == Weekday(w) || (day.ExactDate? && date == Some(day.date))
  }

  /** The intervals of the rules that the filter keeps, concatenated in store order. */
  function Gather(rules: seq<Rule>, f: Filter): seq<Interval>
  {
    if rules == [] then []
    else
      var last := rules[|rules| - 1];
      Gather(rules[..|rules| - 1], f) + (if Keeps(f, last.day) then last.intervals else [])
  }

  /** The stored rules a candidate with this day selector is compared with. */
  function ComparisonFilter(day: Day): Filter
  {
    match day
    case Daily => AnyDay
    case Weekday(w) => CandidateKeys(w, None)
    case ExactDate(d) => CandidateKeys(WeekdayOf(d), Some(d))
  }

  /** The intervals a candidate with this day selector must not conflict with. */
  function ComparisonSet(rules: seq<Rule>, day: Day): seq<Interval>
  {
    Gather(rules, ComparisonFilter(day))
  }

  /** A rule with this day selector is in force on the given date. */
  predicate AppliesOn(day: Day, date: int)
  {
    day == Daily || day == Weekday(WeekdayOf(date)) || day == ExactDate(date)
  }

  /** The intervals a projection reports for a date: daily, then weekday, then date rules. */
  function DayIntervals(rules: seq<Rule>, date: int): seq<Interval>
  {
    Gather(rules, SameDay(Daily))
    + Gather(rules, SameDay(Weekday(WeekdayOf(date))))
    + Gather(rules, SameDay(ExactDate(date)))
  }

  /** No two intervals at distinct positions conflict. */
  predicate NoSelfConflict(ints: seq<Interval>, conflicting: ConflictTest)
  {
    forall i, j :: 0 <= i < |ints| && 0 <= j < |ints| && i != j ==> !conflicting(ints[i], ints[j])
  }

  /** No interval of the first list conflicts with an interval of the second. */
  predicate NoCrossConflict(ints1: seq<Interval>, ints2: seq<Interval>, conflicting: ConflictTest)
  {
    forall i, j :: 0 <= i < |ints1| && 0 <= j < |ints2| ==> !conflicting(ints1[i], ints2[j])
  }

  /** The validation a candidate rule must pass before it is stored. */
  predicate PassesValidation(candidate: Rule, stored: seq<Rule>, conflicting: ConflictTest)
  {
    NoSelfConflict(candidate.intervals, conflicting)
    && NoCrossConflict(candidate.intervals, ComparisonSet(stored, candidate.day), conflicting)
  }

  /**
   * The invariant the store keeps by validating at insertion time: every
   * stored rule passes validation against the rules stored before it.
   */
  predicate Consistent(rules: seq<Rule>, conflicting: ConflictTest)
  {
    forall k :: 0 <= k < |rules| ==> PassesValidation(rules[k], rules[..k], conflicting)
  }

  predicate UniqueIds(rules: seq<Rule>)
  {
    forall i, j :: 0 <= i < j < |rules| ==> rules[i].id != rules[j].id
  }

  /** The position of the first rule with the given id, if any. */
  function IndexOfId(rules: seq<Rule>, id: string): (r: Option<nat>)
    ensures r.Some? ==> r.value < |rules| && rules[r.value].id == id
    ensures r.Some? ==> forall j :: 0 <= j < r.value ==> rules[j].id != id
    ensures r.None? <==> forall j :: 0 <= j < |rules| ==> rules[j].id != id
  {
    if rules == [] then None
    else if rules[0].id == id then Some(0)
    else
      match IndexOfId(rules[1..], id)
      case None => None
      case Some(k) => Some(k + 1)
  }

  /** The list with the rule at position k taken out. */
  function RemoveAt(rules: seq<Rule>, k: nat): (r: seq<Rule>)
    requires k < |rules|
    ensures |r| == |rules| - 1
    ensures forall m :: 0 <= m < |r| ==> r[m] == if m < k then rules[m] else rules[m + 1]
    ensures multiset(r) + multiset{rules[k]} == multiset(rules)
  {
    assert rules == rules[..k] + [rules[k]] + rules[k + 1..];
    rules[..k] + rules[k + 1..]
  }

  /** The projection of the rules over the dates start to end, both included. */
  function Projection(rules: seq<Rule>, start: int, end: int): seq<DayEntry>
    decreases end - start
  {
    if start > end then []
    else
      var intervals := DayIntervals(rules, start);
      (if intervals == [] then [] else [DayEntry(start, intervals)])
      + Projection(rules, start + 1, end)
  }

  /** A new rule from a request and the fresh id chosen for it. */
  function BuildNewAttendanceRuleObject(request: RuleRequest, id: string): (r: Rule)
    ensures r.id == id
    ensures RuleRequest(r.day, r.intervals) == request
  {
    Rule(id, request.day, request.intervals)
  }

  /** The empty entry a projection starts each date with. */
  function BuildNewFormattedRuleObject(date: int): (r: DayEntry)
    ensures r.date == date && |r.intervals| == 0
  {
    DayEntry(date, [])
  }

  /** Whether the query carries both a start and an end date. */
  function DateQueryParamsExist(query: Query): (r: bool)
    ensures r <==> query.startDate != None && query.endDate != None
  {
    query.startDate.Some? && query.endDate.Some?
  }
}
