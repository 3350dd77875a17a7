/**
 * The attendance-rule engine: the validating and collecting loops, and the
 * rule store whose methods load the stored list, work on it and write it back.
 */
module AttendanceRule {
  import opened DateTimeUtils
  import opened RuleModel
  import opened RuleLemmas

  /** Rejects a list in which two intervals at distinct positions conflict. */
  method ValidateNonConflictingIntervals(ints: seq<Interval>, conflicting: ConflictTest) returns (ok: bool)
    ensures ok <==> NoSelfConflict(ints, conflicting)
    ensures |ints| <= 1 ==> ok
  {
    var i := 0;
    while i < |ints|
      invariant 0 <= i <= |ints|
      invariant forall a, b :: 0 <= a < i && 0 <= b < |ints| && a != b ==> !conflicting(ints[a], ints[b])
    {
      var j := 0;
      while j < |ints|
        invariant 0 <= j <= |ints|
        invariant forall b :: 0 <= b < j && b != i ==> !conflicting(ints[i], ints[b])
      {
        if i != j && conflicting(ints[i], ints[j]) {
          return false;
        }
        j := j + 1;
      }
      i := i + 1;
    }
    return true;
  }

  /** Rejects when an interval of the first list conflicts with one of the second. */
  method ValidateNonConflictingIntervalsArrays(ints1: seq<Interval>, ints2: seq<Interval>, conflicting: ConflictTest)
    returns (ok: bool)
    ensures ok <==> NoCrossConflict(ints1, ints2, conflicting)
    ensures ints1 == [] || ints2 == [] ==> ok
  {
    var i := 0;
    while i < |ints1|
      invariant 0 <= i <= |ints1|
      invariant forall a, b :: 0 <= a < i && 0 <= b < |ints2| ==> !conflicting(ints1[a], ints2[b])
    {
      var j := 0;
      while j < |ints2|
        invariant 0 <= j <= |ints2|
        invariant forall b :: 0 <= b < j ==> !conflicting(ints1[i], ints2[b])
      {
        if conflicting(ints1[i], ints2[j]) {
          return false;
        }
        j := j + 1;
      }
      i := i + 1;
    }
    return true;
  }

  /** All intervals of all rules, in store order. */
  method GetIntervals(rules: seq<Rule>) returns (intervals: seq<Interval>)
    ensures intervals == Gather(rules, AnyDay)
  {
    intervals := [];
    for k := 0 to |rules|
      invariant intervals == Gather(rules[..k], AnyDay)
    {
      assert rules[..k + 1][..k] == rules[..k];
      intervals := intervals + rules[k].intervals;
    }
    assert rules[..|rules|] == rules;
  }

  /** The intervals of the rules whose day selector equals the filter, in store order. */
  method GetRulesIntervalsByDayFilter(filter: Day, rules: seq<Rule>) returns (intervals: seq<Interval>)
    ensures intervals == Gather(rules, SameDay(filter))
  {
    intervals := [];
    for k := 0 to |rules|
      invariant intervals == Gather(rules[..k], SameDay(filter))
    {
      assert rules[..k + 1][..k] == rules[..k];
      if rules[k].day == filter {
        intervals := intervals + rules[k].intervals;
      }
    }
    assert rules[..|rules|] == rules;
  }

  method GetDailyRulesIntervals(rules: seq<Rule>) returns (intervals: seq<Interval>)
    ensures intervals == Gather(rules, SameDay(Daily))
  {
    intervals := GetRulesIntervalsByDayFilter(Daily, rules);
  }

  method GetWeeklyRulesIntervals(date: int, rules: seq<Rule>) returns (intervals: seq<Interval>)
    ensures intervals == Gather(rules, SameDay(Weekday(WeekdayOf(date))))
  {
    intervals := GetRulesIntervalsByDayFilter(Weekday(Weekdays[UtcDay(date)]), rules);
  }

  method GetDateRulesIntervals(date: int, rules: seq<Rule>) returns (intervals: seq<Interval>)
    ensures intervals == Gather(rules, SameDay(ExactDate(date)))
  {
    intervals := GetRulesIntervalsByDayFilter(ExactDate(date), rules);
  }

  /**
   * The rule store. The document is the saved JSON list; None stands for a
   * document that does not exist yet. The time-conflict test of the date
   * utilities is fixed when the store is opened.
   */
  class AttendanceRuleStore {
    var document: Option<seq<Rule>>
    const conflicting: ConflictTest

    /** The stored rules: a missing document reads as the empty list. */
    function Rules(): seq<Rule>
      reads this
    {
      if document.Some? then document.value else []
    }

    constructor (conflicting: ConflictTest, document: Option<seq<Rule>>)
      ensures this.conflicting == conflicting && this.document == document
    {
      this.conflicting := conflicting;
      this.document := document;
    }

    method GetAllAttendanceRules() returns (rules: seq<Rule>)
      ensures document.None? ==> rules == []
      ensures document.Some? ==> rules == document.value
    {
      rules := if document.Some? then document.value else [];
    }

    /** Compares a candidate with the stored rules its day selector makes relevant. */
    method ValidateNonConflictingIntervalsWithSavedRules(newRule: Rule) returns (ok: bool)
      ensures ok <==> NoCrossConflict(newRule.intervals, ComparisonSet(Rules(), newRule.day), conflicting)
    {
      var rules := GetAllAttendanceRules();
      var intervals: seq<Interval> := [];
      if newRule.day == Daily {
        intervals := GetIntervals(rules);
        ok := ValidateNonConflictingIntervalsArrays(newRule.intervals, intervals, conflicting);
        return;
      }
      // A weekday candidate has a weekday and no date; a date candidate has both.
      var weekday: WeekdayName;
      var date: Option<int> := None;
      if newRule.day.Weekday? {
        weekday := newRule.day.name;
      } else {
        weekday := WeekdayOf(newRule.day.date);
        date := Some(newRule.day.date);
      }
      ghost var keys := CandidateKeys(weekday, date);
      assert ComparisonFilter(newRule.day) == keys;
      for k := 0 to |rules|
        invariant intervals == Gather(rules[..k], keys)
      {
        assert rules[..k + 1][..k] == rules[..k];
        var rule := rules[k];
        if rule.day == Daily {
          intervals := intervals + rule.intervals;
        } else if rule.day == Weekday(weekday) || (rule.day.ExactDate? && date == Some(rule.day.date)) {
          intervals := intervals + rule.intervals;
        }
      }
      assert rules[..|rules|] == rules;
      ok := ValidateNonConflictingIntervalsArrays(newRule.intervals, intervals, conflicting);
    }

    method ValidateNonConflictingAttendanceRule(newRule: Rule) returns (ok: bool)
      ensures ok <==> PassesValidation(newRule, Rules(), conflicting)
    {
      ok := ValidateNonConflictingIntervals(newRule.intervals, conflicting);
      if ok {
        ok := ValidateNonConflictingIntervalsWithSavedRules(newRule);
      }
    }

    /** Reloads the list, appends the rule and writes the whole list back. */
    method SaveNewRuleToFile(newRule: Rule)
      modifies this
      ensures document == Some(old(Rules()) + [newRule])
    {
      var rules := GetAllAttendanceRules();
      rules := rules + [newRule];
      document := Some(rules);
    }

    /**
     * Builds a rule with the given fresh id and stores it when it passes
     * validation; on rejection the document is left exactly as it was.
     */
    method SaveNewAttendanceRule(request: RuleRequest, freshId: string) returns (saved: Option<Rule>)
      modifies this
      ensures var newRule := BuildNewAttendanceRuleObject(request, freshId);
        if PassesValidation(newRule, old(Rules()), conflicting)
        then saved == Some(newRule) && document == Some(old(Rules()) + [newRule])
        else saved == None && document == old(document)
      ensures Consistent(old(Rules()), conflicting) ==> Consistent(Rules(), conflicting)
      ensures UniqueIds(old(Rules())) && (forall k :: 0 <= k < |old(Rules())| ==> old(Rules())[k].id != freshId)
        ==> UniqueIds(Rules())
    {
      var newRule := BuildNewAttendanceRuleObject(request, freshId);
      var ok := ValidateNonConflictingAttendanceRule(newRule);
      if ok {
        ghost var before := Rules();
        SaveNewRuleToFile(newRule);
        if Consistent(before, conflicting) {
          ConsistentAppend(before, newRule, conflicting);
        }
        return Some(newRule);
      }
      return None;
    }

    /** Without both date parameters the stored list, otherwise its projection over the range. */
    method GetAttendanceRules(query: Query) returns (listing: Listing)
      ensures DateQueryParamsExist(query) ==>
        listing == ByDate(Projection(Rules(), query.startDate.value, query.endDate.value))
      ensures !DateQueryParamsExist(query) ==> listing == AllRules(Rules())
    {
      if DateQueryParamsExist(query) {
        var entries := FilterAttendanceRulesByDateRange(query.startDate.value, query.endDate.value);
        listing := ByDate(entries);
      } else {
        var rules := GetAllAttendanceRules();
        listing := AllRules(rules);
      }
    }

    /** Walks the dates from start to end and keeps each date that has intervals. */
    method FilterAttendanceRulesByDateRange(startDate: int, endDate: int) returns (entries: seq<DayEntry>)
      ensures entries == Projection(Rules(), startDate, endDate)
      ensures startDate > endDate ==> entries == []
    {
      var date := startDate;
      var allRules := GetAllAttendanceRules();
      entries := [];
      while date <= endDate
        invariant allRules == Rules()
        invariant entries + Projection(allRules, date, endDate) == Projection(allRules, startDate, endDate)
      {
        var entry := BuildNewFormattedRuleObject(date);
        var daily := GetDailyRulesIntervals(allRules);
        entry := entry.(intervals := entry.intervals + daily);
        var weekly := GetWeeklyRulesIntervals(date, allRules);
        entry := entry.(intervals := entry.intervals + weekly);
        var dated := GetDateRulesIntervals(date, allRules);
        entry := entry.(intervals := entry.intervals + dated);
        ghost var before := entries;
        if |entry.intervals| != 0 {
          entries := entries + [entry];
        }
        ProjectionStepFromParts(allRules, startDate, date, endDate, before, entry, entries, daily, weekly, dated);
        ghost var rest := Projection(allRules, date + 1, endDate);
        date := date + 1;
        assert Projection(allRules, date, endDate) == rest;
      }
      assert Projection(allRules, date, endDate) == [];
      assert entries + [] == entries;
    }

    /**
     * Removes the first rule with the given id, writes the list back and
     * returns the removed rule; when no rule has the id nothing is written.
     */
    method DeleteAttendanceRule(id: string) returns (deleted: Option<Rule>)
      modifies this
      ensures match IndexOfId(old(Rules()), id)
        case None => deleted == None && document == old(document)
        case Some(k) => deleted == Some(old(Rules())[k]) && document == Some(RemoveAt(old(Rules()), k))
      ensures Consistent(old(Rules()), conflicting) ==> Consistent(Rules(), conflicting)
      ensures UniqueIds(old(Rules())) ==>
        UniqueIds(Rules()) && forall m :: 0 <= m < |Rules()| ==> Rules()[m].id != id
    {
      var rules := GetAllAttendanceRules();
      var i := 0;
      while i < |rules|
        invariant 0 <= i <= |rules|
        invariant forall j :: 0 <= j < i ==> rules[j].id != id
      {
        if rules[i].id == id {
          assert IndexOfId(rules, id) == Some(i);
          deleted := Some(rules[i]);
          document := Some(RemoveAt(rules, i));
          if Consistent(rules, conflicting) {
            ConsistentAfterRemoval(rules, i, conflicting);
          }
          if UniqueIds(rules) {
            RemovedIdIsGone(rules, i, id);
          }
          return;
        }
        i := i + 1;
      }
      deleted := None;
    }
  }
}
