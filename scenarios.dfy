/**
 * Worked examples of the engine's behaviour on small stores, for any
 * conflict test that reports the stated pairs as conflicting or not.
 */
module Scenarios {
  import opened DateTimeUtils
  import opened RuleModel
  import opened RuleLemmas
  import opened AttendanceRule

  /** 2024-01-01, a Monday, as a day number. */
  const JAN_1_2024: int := 19723

  /** A stored Monday rule blocks a rule on a concrete Monday with a conflicting interval. */
  lemma {:induction false} MondayRuleBlocksMondayDate(c: ConflictTest, weekly: Rule, dated: Rule, i: nat, j: nat)
    requires weekly.day == Weekday(Monday) && dated.day == ExactDate(JAN_1_2024)
    requires i < |dated.intervals| && j < |weekly.intervals| && c(dated.intervals[i], weekly.intervals[j])
    ensures !PassesValidation(dated, [weekly], c)
  {
    assert WeekdayOf(JAN_1_2024) == Monday;
    assert [] + [weekly] == [weekly];
    GatherSnoc([], weekly, ComparisonFilter(dated.day));
    assert ComparisonSet([weekly], dated.day) == weekly.intervals;
  }

  /** What a filter collects from a store of two rules. */
  lemma {:induction false} GatherPair(r1: Rule, r2: Rule, f: Filter)
    ensures Gather([r1, r2], f) ==
      (if Keeps(f, r1.day) then r1.intervals else []) + (if Keeps(f, r2.day) then r2.intervals else [])
  {
    assert [] + [r1] == [r1] && [r1] + [r2] == [r1, r2];
    GatherSnoc([], r1, f);
    GatherSnoc([r1], r2, f);
  }

  /**
   * The other direction is not checked: a Monday rule is accepted over a
   * stored rule for a concrete Monday holding the same interval, after which
   * that date reports two conflicting intervals.
   */
  lemma {:induction false} WeekdayRuleMissesMondayDate(c: ConflictTest, dated: Rule, weekly: Rule, iv: Interval)
    requires dated.day == ExactDate(JAN_1_2024) && dated.intervals == [iv]
    requires weekly.day == Weekday(Monday) && weekly.intervals == [iv]
    requires c(iv, iv)
    ensures PassesValidation(weekly, [dated], c)
    ensures DayIntervals([dated, weekly], JAN_1_2024) == [iv, iv]
    ensures !NoSelfConflict(DayIntervals([dated, weekly], JAN_1_2024), c)
  {
    assert WeekdayOf(JAN_1_2024) == Monday;
    assert PassesValidation(weekly, [dated], c) by {
      assert [] + [dated] == [dated];
      GatherSnoc([], dated, ComparisonFilter(weekly.day));
      assert ComparisonSet([dated], weekly.day) == [];
    }
    var day := DayIntervals([dated, weekly], JAN_1_2024);
    assert day == [iv, iv] by {
      GatherPair(dated, weekly, SameDay(Daily));
      GatherPair(dated, weekly, SameDay(weekly.day));
      GatherPair(dated, weekly, SameDay(dated.day));
      assert day == [] + [iv] + [iv];
    }
    assert !NoSelfConflict(day, c) by {
      assert c(day[0], day[1]);
    }
  }

  /** Two non-conflicting daily rules are accepted; a third is accepted exactly when it conflicts with neither. */
  lemma {:induction false} ThirdDailyRuleRefused(c: ConflictTest, r1: Rule, r2: Rule, r3: Rule, a: Interval, b: Interval)
    requires r1 == Rule(r1.id, Daily, [a]) && r2 == Rule(r2.id, Daily, [b]) && r3.day == Daily
    requires !c(b, a) && NoSelfConflict(r3.intervals, c)
    ensures PassesValidation(r1, [], c)
    ensures PassesValidation(r2, [r1], c)
    ensures PassesValidation(r3, [r1, r2], c) <==>
      NoCrossConflict(r3.intervals, r1.intervals, c) && NoCrossConflict(r3.intervals, r2.intervals, c)
  {
    assert [] + [r1] == [r1] && [r1] + [r2] == [r1, r2];
    GatherSnoc([], r1, AnyDay);
    GatherSnoc([r1], r2, AnyDay);
    assert ComparisonSet([], Daily) == [];
    assert ComparisonSet([r1], Daily) == [a];
    assert ComparisonSet([r1, r2], Daily) == [a] + [b];
    NoCrossConflictConcat(r3.intervals, [a], [b], c);
  }

  /** One daily rule over three days gives three entries, none dropped. */
  lemma {:induction false} DailyRuleOverThreeDays(iv: Interval)
    ensures Projection([Rule("1", Daily, [iv])], JAN_1_2024, JAN_1_2024 + 2) ==
      [DayEntry(JAN_1_2024, [iv]), DayEntry(JAN_1_2024 + 1, [iv]), DayEntry(JAN_1_2024 + 2, [iv])]
  {
    var rules := [Rule("1", Daily, [iv])];
    assert [] + rules == rules;
    GatherSnoc([], rules[0], AnyDay);
    OnlyDailyProjection(rules, JAN_1_2024, JAN_1_2024 + 2);
    var p := Projection(rules, JAN_1_2024, JAN_1_2024 + 2);
    assert p[0] == DayEntry(JAN_1_2024, [iv]);
    assert p[1] == DayEntry(JAN_1_2024 + 1, [iv]);
    assert p[2] == DayEntry(JAN_1_2024 + 2, [iv]);
  }
}
