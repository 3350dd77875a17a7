/**
 * Properties of the specification functions: how the collected interval
 * lists relate to the stored rules, what validation guarantees, the store
 * invariant, and the shape of a date-range projection.
 */
module RuleLemmas {
  import opened DateTimeUtils
  import opened RuleModel

  // ---------------------------------------------------------------------
  // Collecting intervals

  /** Collecting over two consecutive parts of a list concatenates the results. */
  lemma {:induction false} GatherAppend(a: seq<Rule>, b: seq<Rule>, f: Filter)
    ensures Gather(a + b, f) == Gather(a, f) + Gather(b, f)
    decreases |b|
  {
    if b == [] {
      assert a + b == a;
    } else {
      var init := b[..|b| - 1];
      assert (a + b)[..|a + b| - 1] == a + init;
      assert (a + b)[|a + b| - 1] == b[|b| - 1];
      GatherAppend(a, init, f);
    }
  }

  /** Adding a rule at the end adds its intervals at the end when it is kept. */
  lemma {:induction false} GatherSnoc(rules: seq<Rule>, r: Rule, f: Filter)
    ensures Gather(rules + [r], f) == Gather(rules, f) + (if Keeps(f, r.day) then r.intervals else [])
  {
    assert (rules + [r])[..|rules|] == rules;
  }

  /** An interval is collected exactly when some kept rule holds it. */
  lemma {:induction false} GatherMember(rules: seq<Rule>, f: Filter, iv: Interval)
    ensures iv in Gather(rules, f) <==>
      exists k :: 0 <= k < |rules| && Keeps(f, rules[k].day) && iv in rules[k].intervals
    decreases |rules|
  {
    if rules != [] {
      var n := |rules| - 1;
      var init, last := rules[..n], rules[n];
      var piece := if Keeps(f, last.day) then last.intervals else [];
      assert Gather(rules, f) == Gather(init, f) + piece;
      assert iv in Gather(rules, f) <==> iv in Gather(init, f) || iv in piece;
      GatherMember(init, f, iv);
      if iv in Gather(init, f) {
        var k :| 0 <= k < n && Keeps(f, init[k].day) && iv in init[k].intervals;
        assert rules[k] == init[k];
      }
      if exists k :: 0 <= k < |rules| && Keeps(f, rules[k].day) && iv in rules[k].intervals {
        var k :| 0 <= k < |rules| && Keeps(f, rules[k].day) && iv in rules[k].intervals;
        if k < n {
          assert init[k] == rules[k];
        }
      }
    }
  }

  /** With no rule kept, nothing is collected. */
  lemma {:induction false} GatherNone(rules: seq<Rule>, f: Filter)
    requires forall k :: 0 <= k < |rules| ==> !Keeps(f, rules[k].day)
    ensures Gather(rules, f) == []
    decreases |rules|
  {
    if rules != [] {
      GatherNone(rules[..|rules| - 1], f);
    }
  }

  /** Two filters that agree on every stored rule collect the same list. */
  lemma {:induction false} GatherSameFilter(rules: seq<Rule>, f: Filter, g: Filter)
    requires forall k :: 0 <= k < |rules| ==> Keeps(f, rules[k].day) == Keeps(g, rules[k].day)
    ensures Gather(rules, f) == Gather(rules, g)
    decreases |rules|
  {
    if rules != [] {
      GatherSameFilter(rules[..|rules| - 1], f, g);
    }
  }

  // ---------------------------------------------------------------------
  // The conflict predicates

  lemma {:induction false} NoCrossConflictConcat(a: seq<Interval>, b1: seq<Interval>, b2: seq<Interval>, c: ConflictTest)
    ensures NoCrossConflict(a, b1 + b2, c) <==> NoCrossConflict(a, b1, c) && NoCrossConflict(a, b2, c)
  {
    if NoCrossConflict(a, b1, c) && NoCrossConflict(a, b2, c) {
      forall i, j | 0 <= i < |a| && 0 <= j < |b1 + b2| ensures !c(a[i], (b1 + b2)[j]) {
        if j >= |b1| {
          assert (b1 + b2)[j] == b2[j - |b1|];
        }
      }
    }
    if NoCrossConflict(a, b1 + b2, c) {
      forall i, j | 0 <= i < |a| && 0 <= j < |b1| ensures !c(a[i], b1[j]) {
        assert (b1 + b2)[j] == b1[j];
      }
      forall i, j | 0 <= i < |a| && 0 <= j < |b2| ensures !c(a[i], b2[j]) {
        assert (b1 + b2)[|b1| + j] == b2[j];
      }
    }
  }

  /** Under a symmetric conflict test the cross check does not depend on argument order. */
  lemma {:induction false} NoCrossConflictSymmetric(a: seq<Interval>, b: seq<Interval>, c: ConflictTest)
    requires Symmetric(c)
    ensures NoCrossConflict(a, b, c) <==> NoCrossConflict(b, a, c)
  {
  }

  /** Under a symmetric conflict test, checking each unordered pair once suffices. */
  lemma {:induction false} NoSelfConflictByPairs(ints: seq<Interval>, c: ConflictTest)
    requires Symmetric(c)
    ensures NoSelfConflict(ints, c) <==> forall i, j :: 0 <= i < j < |ints| ==> !c(ints[i], ints[j])
  {
  }

  /** Checking against a collected list is checking against each kept rule. */
  lemma {:induction false} NoCrossConflictWithGather(x: seq<Interval>, rules: seq<Rule>, f: Filter, c: ConflictTest)
    ensures NoCrossConflict(x, Gather(rules, f), c) <==>
      forall k :: 0 <= k < |rules| && Keeps(f, rules[k].day) ==> NoCrossConflict(x, rules[k].intervals, c)
    decreases |rules|
  {
    if rules != [] {
      var n := |rules| - 1;
      var init := rules[..n];
      NoCrossConflictWithGather(x, init, f, c);
      NoCrossConflictConcat(x, Gather(init, f), if Keeps(f, rules[n].day) then rules[n].intervals else [], c);
      assert forall k :: 0 <= k < n ==> init[k] == rules[k];
    }
  }

  // ---------------------------------------------------------------------
  // Validation

  /**
   * A candidate passes validation exactly when its own intervals do not
   * conflict and none of them conflicts with a rule it is compared with.
   */
  lemma {:induction false} PassesValidationByRules(candidate: Rule, stored: seq<Rule>, c: ConflictTest)
    ensures PassesValidation(candidate, stored, c) <==>
      NoSelfConflict(candidate.intervals, c)
      && forall k :: 0 <= k < |stored| && Keeps(ComparisonFilter(candidate.day), stored[k].day) ==>
           NoCrossConflict(candidate.intervals, stored[k].intervals, c)
  {
    NoCrossConflictWithGather(candidate.intervals, stored, ComparisonFilter(candidate.day), c);
  }

  /** A daily candidate is compared with every stored rule. */
  lemma {:induction false} DailyComparedWithAll(stored: seq<Rule>, iv: Interval)
    ensures iv in ComparisonSet(stored, Daily) <==> exists k :: 0 <= k < |stored| && iv in stored[k].intervals
  {
    GatherMember(stored, AnyDay, iv);
  }

  /** A weekday or date candidate is compared with daily, same-weekday and same-date rules. */
  lemma {:induction false} DatedComparedWithMatching(stored: seq<Rule>, day: Day, iv: Interval)
    requires !day.Daily?
    ensures var w := if day.Weekday? then day.name else WeekdayOf(day.date);
      iv in ComparisonSet(stored, day) <==>
      exists k :: 0 <= k < |stored| && iv in stored[k].intervals &&
        (stored[k].day == Daily || stored[k].day == Weekday(w) || (day.ExactDate? && stored[k].day == day))
  {
    GatherMember(stored, ComparisonFilter(day), iv);
  }

  // ---------------------------------------------------------------------
  // The store invariant

  /** Appending a rule that passed validation keeps the store consistent. */
  lemma {:induction false} ConsistentAppend(rules: seq<Rule>, r: Rule, c: ConflictTest)
    requires Consistent(rules, c) && PassesValidation(r, rules, c)
    ensures Consistent(rules + [r], c)
  {
    var grown := rules + [r];
    forall k | 0 <= k < |grown| ensures PassesValidation(grown[k], grown[..k], c) {
      if k < |rules| {
        assert grown[..k] == rules[..k];
      } else {
        assert grown[..k] == rules;
      }
    }
  }

  /** Removing any rule keeps the store consistent: later rules lose comparisons, never gain them. */
  lemma {:induction false} ConsistentAfterRemoval(rules: seq<Rule>, j: nat, c: ConflictTest)
    requires j < |rules| && Consistent(rules, c)
    ensures Consistent(RemoveAt(rules, j), c)
  {
    var rest := RemoveAt(rules, j);
    forall k | 0 <= k < |rest| ensures PassesValidation(rest[k], rest[..k], c) {
      if k < j {
        assert rest[..k] == rules[..k];
      } else {
        var before, after := rules[..k + 1], rest[..k];
        assert PassesValidation(rules[k + 1], before, c);
        forall m | 0 <= m < |after| ensures after[m] in before {
          var m' := if m < j then m else m + 1;
          assert after[m] == before[m'];
        }
        PassesValidationOnFewerRules(rules[k + 1], before, after, c);
      }
    }
  }

  /** A candidate that passes against a list passes against any list drawn from its rules. */
  lemma {:induction false} PassesValidationOnFewerRules(candidate: Rule, stored: seq<Rule>, fewer: seq<Rule>, c: ConflictTest)
    requires PassesValidation(candidate, stored, c)
    requires forall m :: 0 <= m < |fewer| ==> fewer[m] in stored
    ensures PassesValidation(candidate, fewer, c)
  {
    PassesValidationByRules(candidate, stored, c);
    PassesValidationByRules(candidate, fewer, c);
    forall m | 0 <= m < |fewer| && Keeps(ComparisonFilter(candidate.day), fewer[m].day)
      ensures NoCrossConflict(candidate.intervals, fewer[m].intervals, c)
    {
      var i :| 0 <= i < |stored| && stored[i] == fewer[m];
    }
  }

  /** In a consistent store, a rule does not conflict with an earlier rule it was compared with. */
  lemma {:induction false} ConsistentStoredPair(rules: seq<Rule>, i: nat, j: nat, c: ConflictTest)
    requires Consistent(rules, c)
    requires i < j < |rules| && Keeps(ComparisonFilter(rules[j].day), rules[i].day)
    ensures NoCrossConflict(rules[j].intervals, rules[i].intervals, c)
  {
    assert PassesValidation(rules[j], rules[..j], c);
    PassesValidationByRules(rules[j], rules[..j], c);
    assert rules[..j][i] == rules[i];
  }

  /** In a consistent store, two distinct daily rules never conflict, whichever comes first. */
  lemma {:induction false} ConsistentDailyRulesDisjoint(rules: seq<Rule>, i: nat, j: nat, c: ConflictTest)
    requires Consistent(rules, c) && Symmetric(c)
    requires i < |rules| && j < |rules| && i != j
    requires rules[i].day == Daily && rules[j].day == Daily
    ensures NoCrossConflict(rules[i].intervals, rules[j].intervals, c)
  {
    if i < j {
      ConsistentStoredPair(rules, i, j, c);
      NoCrossConflictSymmetric(rules[j].intervals, rules[i].intervals, c);
    } else {
      ConsistentStoredPair(rules, j, i, c);
    }
  }

  /** Taking out the rule with a unique id leaves unique ids and no rule with that id. */
  lemma {:induction false} RemovedIdIsGone(rules: seq<Rule>, k: nat, id: string)
    requires UniqueIds(rules) && k < |rules| && rules[k].id == id
    ensures UniqueIds(RemoveAt(rules, k))
    ensures forall m :: 0 <= m < |RemoveAt(rules, k)| ==> RemoveAt(rules, k)[m].id != id
  {
    var rest := RemoveAt(rules, k);
    forall a, b | 0 <= a < b < |rest| ensures rest[a].id != rest[b].id {
      var a' := if a < k then a else a + 1;
      var b' := if b < k then b else b + 1;
      assert rest[a] == rules[a'] && rest[b] == rules[b'];
    }
    forall m | 0 <= m < |rest| ensures rest[m].id != id {
      var m' := if m < k then m else m + 1;
      assert rest[m] == rules[m'];
    }
  }

  // ---------------------------------------------------------------------
  // The projection

  /** An interval is reported for a date exactly when a rule in force that day holds it. */
  lemma {:induction false} DayIntervalsMember(rules: seq<Rule>, date: int, iv: Interval)
    ensures iv in DayIntervals(rules, date) <==>
      exists k :: 0 <= k < |rules| && AppliesOn(rules[k].day, date) && iv in rules[k].intervals
  {
    GatherMember(rules, SameDay(Daily), iv);
    GatherMember(rules, SameDay(Weekday(WeekdayOf(date))), iv);
    GatherMember(rules, SameDay(ExactDate(date)), iv);
  }

  /** A date candidate's keys keep a rule exactly when one of the three per-date filters does. */
  lemma {:induction false} DateKeysSplit(rule: Rule, date: int)
    ensures multiset(if Keeps(SameDay(Daily), rule.day) then rule.intervals else [])
      + multiset(if Keeps(SameDay(Weekday(WeekdayOf(date))), rule.day) then rule.intervals else [])
      + multiset(if Keeps(SameDay(ExactDate(date)), rule.day) then rule.intervals else [])
      == multiset(if Keeps(ComparisonFilter(ExactDate(date)), rule.day) then rule.intervals else [])
  {
    match rule.day
    case Daily =>
    case Weekday(w) =>
    case ExactDate(d) =>
  }

  /**
   * The intervals reported for a date are, counted with repetition, the
   * intervals a candidate for that exact date is compared with.
   */
  lemma {:induction false} DayIntervalsMatchDateCandidate(rules: seq<Rule>, date: int)
    ensures multiset(DayIntervals(rules, date)) == multiset(ComparisonSet(rules, ExactDate(date)))
    decreases |rules|
  {
    if rules != [] {
      var n := |rules| - 1;
      var init, last := rules[..n], rules[n];
      assert rules == init + [last];
      var fd, fw, fx := SameDay(Daily), SameDay(Weekday(WeekdayOf(date))), SameDay(ExactDate(date));
      var fc := ComparisonFilter(ExactDate(date));
      var gd, gw, gx, gc := Gather(init, fd), Gather(init, fw), Gather(init, fx), Gather(init, fc);
      var pd := if Keeps(fd, last.day) then last.intervals else [];
      var pw := if Keeps(fw, last.day) then last.intervals else [];
      var px := if Keeps(fx, last.day) then last.intervals else [];
      var pc := if Keeps(fc, last.day) then last.intervals else [];
      assert multiset(gd) + multiset(gw) + multiset(gx) == multiset(gc) by {
        DayIntervalsMatchDateCandidate(init, date);
        assert DayIntervals(init, date) == gd + gw + gx;
      }
      assert multiset(pd) + multiset(pw) + multiset(px) == multiset(pc) by {
        DateKeysSplit(last, date);
      }
      assert DayIntervals(rules, date) == (gd + pd) + (gw + pw) + (gx + px) by {
        GatherSnoc(init, last, fd);
        GatherSnoc(init, last, fw);
        GatherSnoc(init, last, fx);
      }
      assert ComparisonSet(rules, ExactDate(date)) == gc + pc by {
        GatherSnoc(init, last, fc);
      }
      InterleavedMultiset(gd, gw, gx, gc, pd, pw, px, pc);
    }
  }

  /** Three lists extended piecewise hold what the one list extended by their pieces holds. */
  lemma {:induction false} InterleavedMultiset(gd: seq<Interval>, gw: seq<Interval>, gx: seq<Interval>, gc: seq<Interval>,
                                               pd: seq<Interval>, pw: seq<Interval>, px: seq<Interval>, pc: seq<Interval>)
    requires multiset(gd) + multiset(gw) + multiset(gx) == multiset(gc)
    requires multiset(pd) + multiset(pw) + multiset(px) == multiset(pc)
    ensures multiset((gd + pd) + (gw + pw) + (gx + px)) == multiset(gc + pc)
  {
  }

  /**
   * A rule that passed validation does not conflict with anything the
   * projection reports on a date it applies to. For a weekday rule this
   * needs the date to carry no date rules: a weekday candidate is never
   * compared with stored date rules.
   */
  lemma {:induction false} AcceptedRuleFitsProjectedDay(stored: seq<Rule>, candidate: Rule, date: int, c: ConflictTest)
    requires PassesValidation(candidate, stored, c) && AppliesOn(candidate.day, date)
    requires candidate.day.Weekday? ==> Gather(stored, SameDay(ExactDate(date))) == []
    ensures NoCrossConflict(candidate.intervals, DayIntervals(stored, date), c)
  {
    var x := candidate.intervals;
    var cmp := ComparisonSet(stored, candidate.day);
    var day := DayIntervals(stored, date);
    forall i, j | 0 <= i < |x| && 0 <= j < |day| ensures !c(x[i], day[j]) {
      var iv := day[j];
      DayIntervalsMember(stored, date, iv);
      var k :| 0 <= k < |stored| && AppliesOn(stored[k].day, date) && iv in stored[k].intervals;
      if candidate.day.Weekday? && stored[k].day == ExactDate(date) {
        GatherMember(stored, SameDay(ExactDate(date)), iv);
        assert false;
      }
      assert Keeps(ComparisonFilter(candidate.day), stored[k].day);
      GatherMember(stored, ComparisonFilter(candidate.day), iv);
      assert iv in cmp;
      var j' :| 0 <= j' < |cmp| && cmp[j'] == iv;
    }
  }

  /**
   * On any date of its weekday, an accepted weekday rule conflicts with none
   * of that date's daily and weekday intervals, whatever date rules it carries.
   */
  lemma {:induction false} AcceptedWeekdayRuleFitsDailyAndWeekly(stored: seq<Rule>, candidate: Rule, date: int, c: ConflictTest)
    requires PassesValidation(candidate, stored, c) && candidate.day == Weekday(WeekdayOf(date))
    ensures NoCrossConflict(candidate.intervals,
      Gather(stored, SameDay(Daily)) + Gather(stored, SameDay(Weekday(WeekdayOf(date)))), c)
  {
    var x, f := candidate.intervals, ComparisonFilter(candidate.day);
    PassesValidationByRules(candidate, stored, c);
    NoCrossConflictWithGather(x, stored, SameDay(Daily), c);
    NoCrossConflictWithGather(x, stored, SameDay(candidate.day), c);
    assert forall k :: 0 <= k < |stored| && Keeps(SameDay(Daily), stored[k].day) ==> Keeps(f, stored[k].day);
    assert forall k :: 0 <= k < |stored| && Keeps(SameDay(candidate.day), stored[k].day) ==> Keeps(f, stored[k].day);
    NoCrossConflictConcat(x, Gather(stored, SameDay(Daily)), Gather(stored, SameDay(candidate.day)), c);
  }

  /** One step of the date walk: the first date's entry, if any, then the rest of the range. */
  lemma {:induction false} ProjectionStep(rules: seq<Rule>, date: int, end: int, entries: seq<DayEntry>)
    requires date <= end
    ensures var intervals := DayIntervals(rules, date);
      (if intervals == [] then entries else entries + [DayEntry(date, intervals)])
      + Projection(rules, date + 1, end) == entries + Projection(rules, date, end)
  {
    var intervals := DayIntervals(rules, date);
    var head := if intervals == [] then [] else [DayEntry(date, intervals)];
    var rest := Projection(rules, date + 1, end);
    assert Projection(rules, date, end) == head + rest;
    assert (entries + head) + rest == entries + (head + rest);
    if intervals == [] {
      assert entries + head == entries;
    }
  }

  /** The same step for an entry built from the three per-date lists, as the range loop builds it. */
  lemma {:induction false} ProjectionStepFromParts(rules: seq<Rule>, start: int, date: int, end: int,
                                                   before: seq<DayEntry>, entry: DayEntry, after: seq<DayEntry>,
                                                   daily: seq<Interval>, weekly: seq<Interval>, dated: seq<Interval>)
    requires date <= end
    requires before + Projection(rules, date, end) == Projection(rules, start, end)
    requires daily == Gather(rules, SameDay(Daily))
    requires weekly == Gather(rules, SameDay(Weekday(WeekdayOf(date))))
    requires dated == Gather(rules, SameDay(ExactDate(date)))
    requires entry == DayEntry(date, [] + daily + weekly + dated)
    requires after == if |entry.intervals| != 0 then before + [entry] else before
    ensures after + Projection(rules, date + 1, end) == Projection(rules, start, end)
  {
    assert entry.intervals == DayIntervals(rules, date) by {
      assert [] + daily == daily;
    }
    assert |entry.intervals| != 0 <==> DayIntervals(rules, date) != [];
    ProjectionStep(rules, date, end, before);
  }

  /** Every entry lies in the range, is non-empty, and holds exactly its date's intervals. */
  lemma {:induction false} ProjectionEntries(rules: seq<Rule>, start: int, end: int)
    ensures forall k :: 0 <= k < |Projection(rules, start, end)| ==>
      var e := Projection(rules, start, end)[k];
      start <= e.date <= end && e.intervals != [] && e.intervals == DayIntervals(rules, e.date)
    decreases end - start
  {
    if start <= end {
      ProjectionEntries(rules, start + 1, end);
    }
  }

  /** Entries come in strictly ascending date order, so at most one per date. */
  lemma {:induction false} ProjectionAscending(rules: seq<Rule>, start: int, end: int)
    ensures forall i, j :: 0 <= i < j < |Projection(rules, start, end)| ==>
      Projection(rules, start, end)[i].date < Projection(rules, start, end)[j].date
    decreases end - start
  {
    if start <= end {
      ProjectionAscending(rules, start + 1, end);
      ProjectionEntries(rules, start + 1, end);
    }
  }

  /** Every date in the range with at least one applicable interval has an entry. */
  lemma {:induction false} ProjectionComplete(rules: seq<Rule>, start: int, end: int, date: int)
    requires start <= date <= end && DayIntervals(rules, date) != []
    ensures exists k :: 0 <= k < |Projection(rules, start, end)| && Projection(rules, start, end)[k].date == date
    decreases end - start
  {
    var p := Projection(rules, start, end);
    var rest := Projection(rules, start + 1, end);
    var intervals := DayIntervals(rules, start);
    var head := if intervals == [] then [] else [DayEntry(start, intervals)];
    assert p == head + rest;
    if date == start {
      assert p[0] == DayEntry(start, intervals);
    } else {
      ProjectionComplete(rules, start + 1, end, date);
      var k :| 0 <= k < |rest| && rest[k].date == date;
      assert p[|head| + k] == rest[k];
    }
  }

  /** A range in which no date has an applicable interval projects to nothing. */
  lemma {:induction false} ProjectionOfEmptyDays(rules: seq<Rule>, start: int, end: int)
    requires forall date :: start <= date <= end ==> DayIntervals(rules, date) == []
    ensures Projection(rules, start, end) == []
    decreases end - start
  {
    if start <= end {
      assert DayIntervals(rules, start) == [];
      ProjectionOfEmptyDays(rules, start + 1, end);
    }
  }

  /** When every stored rule is daily, every date reports all stored intervals. */
  lemma {:induction false} OnlyDailyDayIntervals(rules: seq<Rule>, date: int)
    requires forall k :: 0 <= k < |rules| ==> rules[k].day == Daily
    ensures DayIntervals(rules, date) == Gather(rules, AnyDay)
  {
    GatherSameFilter(rules, SameDay(Daily), AnyDay);
    GatherNone(rules, SameDay(Weekday(WeekdayOf(date))));
    GatherNone(rules, SameDay(ExactDate(date)));
    assert DayIntervals(rules, date) == Gather(rules, AnyDay) + [] + [];
  }

  /** With only daily rules holding some interval, no date of the range is dropped. */
  lemma {:induction false} OnlyDailyProjection(rules: seq<Rule>, start: int, end: int)
    requires forall k :: 0 <= k < |rules| ==> rules[k].day == Daily
    requires Gather(rules, AnyDay) != [] && start <= end + 1
    ensures |Projection(rules, start, end)| == end - start + 1
    ensures forall k :: 0 <= k < |Projection(rules, start, end)| ==>
      Projection(rules, start, end)[k] == DayEntry(start + k, Gather(rules, AnyDay))
    decreases end - start
  {
    if start <= end {
      var all := Gather(rules, AnyDay);
      OnlyDailyDayIntervals(rules, start);
      OnlyDailyProjection(rules, start + 1, end);
      var tail := Projection(rules, start + 1, end);
      var p := Projection(rules, start, end);
      assert p == [DayEntry(start, all)] + tail;
      forall k | 0 <= k < |p|
        ensures p[k] == DayEntry(start + k, all)
      {
        if k > 0 {
          assert p[k] == tail[k - 1];
        }
      }
    }
  }
}
