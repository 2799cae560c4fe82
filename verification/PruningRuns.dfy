/**
 Pruning past absolute events (src/aker_notification.c) and notifications: the periods of the
 pruned list may start later than those of the full one, but every notification that is due after
 the timeline was built is the same.
 */
module PruningRuns {
  import opened Time
  import opened Periods
  import opened PeriodProperties
  import opened PeriodExactness
  import opened TimelineProperties
  import opened Dispatch
  import opened DispatchLedger
  import opened DispatchRoom
  import opened DispatchRuns
  import opened RuleMatrix
  import opened Timeline
  import S = Schedule
  import Notifier

  /** New timelines of the first count MACs over one list of events. */
  ghost function RowsFrom(events: seq<TimelineEvent>, count: nat, now: int): (rows: seq<seq<Cell>>)
    ensures |rows| == count
  {
    Notifier.ClearRows(seq(count, m requires 0 <= m < count => Build(events, m, now)))
  }

  lemma RowIsBuilt(events: seq<TimelineEvent>, count: nat, now: int, m: nat)
    requires m < count
    ensures PeriodsIn(RowsFrom(events, count, now)[m]) == Build(events, m, now)
  {
    hide Build;
    assert PeriodsIn(RowsFrom(events, count, now)[m]) == Build(events, m, now);
  }

  lemma RowsHaveRoom(events: seq<TimelineEvent>, count: nat, now: int)
    requires Ordered(events) && count <= BATCH && forall m: nat :: m < count ==> Agree(events, m)
    ensures Roomy(RowsFrom(events, count, now)) && AllClear(RowsFrom(events, count, now))
  {
    hide Build, Ordered, Agree, WellFormed;
    forall m: nat | m < count
      ensures WellFormed(PeriodsIn(RowsFrom(events, count, now)[m]))
    {
      BuildIsWellFormed(events, m, now);
      RowIsBuilt(events, count, now, m);
    }
  }

  /** A period is a stretch of covered instants with none on either side. */
  lemma OwnStretch(periods: seq<Period>, j: nat)
    requires WellFormed(periods) && j < |periods|
    ensures !Covered(periods, periods[j].start - 1) && !Covered(periods, periods[j].end)
    ensures forall u :: Within(periods[j], u) ==> Covered(periods, u)
  {}

  /** Where from now on the same instants are covered, periods end alike, and start alike after now. */
  lemma SameStretch(periods: seq<Period>, others: seq<Period>, now: int, j: nat) returns (i: nat)
    requires WellFormed(periods) && WellFormed(others) && j < |periods| && now < periods[j].end
    requires forall u :: u >= now ==> Covered(periods, u) == Covered(others, u)
    ensures i < |others| && others[i].end == periods[j].end
    ensures periods[j].start > now ==> others[i].start == periods[j].start
    ensures periods[j].start <= now ==> others[i].start <= now
  {
    hide WellFormed, Covered;
    var p := periods[j];
    OwnStretch(periods, j);
    assert Within(p, p.end - 1) by {
      NotEmpty(periods, j);
    }
    i := Covering(others, p.end - 1);
    OwnStretch(others, i);
    NotEmpty(others, i);
    var q := others[i];
    assert Within(q, p.end) || q.end == p.end;
    if p.start > now {
      assert q.start < p.start ==> Within(q, p.start - 1);
      assert q.start > p.start ==> Within(p, q.start - 1);
    } else {
      assert q.start > now ==> Within(p, q.start - 1);
    }
  }

  lemma NotEmpty(periods: seq<Period>, j: nat)
    requires WellFormed(periods) && j < |periods|
    ensures periods[j].start < periods[j].end
  {}

  lemma Covering(periods: seq<Period>, u: int) returns (i: nat)
    requires Covered(periods, u)
    ensures i < |periods| && Within(periods[i], u)
  {
    i :| 0 <= i < |periods| && Within(periods[i], u);
  }

  /** The same period as far as what is due after now goes. */
  ghost predicate AlikeAfter(p: Period, q: Period, now: int) {
    && q.end == p.end && q.endAbsolute == p.endAbsolute
    && (p.start > now ==> q == p) && (p.start <= now ==> q.start <= now)
  }

  lemma PrunedPeriodsAlike(pruned: seq<TimelineEvent>, full: seq<TimelineEvent>, now: int, m: nat, swap: bool, j: nat)
    returns (i: nat)
    requires Ordered(full) && Ordered(pruned) && Agree(full, m) && TieFree(full) && PrunedFrom(pruned, full, now)
    requires j < |Build(if swap then full else pruned, m, now)|
    ensures var a, b := Build(if swap then full else pruned, m, now), Build(if swap then pruned else full, m, now);
            i < |b| && AlikeAfter(a[j], b[i], now)
  {
    hide Build, Ordered, Agree, TieFree, WellFormed, Covered, RunCloses, UnionAt;
    var first, second := if swap then full else pruned, if swap then pruned else full;
    PruningKeepsAgreement(pruned, full, now, m);
    PruningKeepsCoverage(pruned, full, now, m);
    BuildIsWellFormed(first, m, now);
    BuildIsWellFormed(second, m, now);
    PeriodsAreExact(first, m, now);
    PeriodsAreExact(second, m, now);
    i := SameStretch(Build(first, m, now), Build(second, m, now), now, j);
    var p := Build(first, m, now)[j];
    RecentAbsoluteEvents(pruned, full, now, p.end);
    if p.start > now {
      RecentAbsoluteEvents(pruned, full, now, p.start);
    }
  }

  /** The periods of one list that call for a kind, as far as the other list's are alike. */
  lemma AlikeCallsAlike(k: Kind, periods: seq<Period>, p: Period, others: seq<Period>, q: Period, now: int, x: int,
                        time: int)
    requires AlikeAfter(p, q, now) && Covered(periods, x) == Covered(others, x)
    requires DueTime(k, time) > now || (x - DueTime(k, time) <= LATE && x >= now && !k.Started? && !k.EndingSoon?)
    requires KindOf(SlotOf(k), p) == k && time == Scheduled(SlotOf(k), p)
    ensures KindOf(SlotOf(k), q) == k && time == Scheduled(SlotOf(k), q)
    ensures CallsFor(SlotOf(k), periods, p, x) == CallsFor(SlotOf(k), others, q, x)
  {
    hide Covered;
  }

  lemma PrunedCallsAlike(pruned: seq<TimelineEvent>, full: seq<TimelineEvent>, count: nat, now: int, swap: bool,
                         x: int, k: Kind, i: nat, time: int)
    requires Ordered(full) && Ordered(pruned) && TieFree(full) && PrunedFrom(pruned, full, now)
    requires i < count && Agree(full, i) && x >= now
    requires DueTime(k, time) > now || (x - DueTime(k, time) <= LATE && !k.Started? && !k.EndingSoon?)
    ensures var a := RowsFrom(if swap then full else pruned, count, now);
            var b := RowsFrom(if swap then pruned else full, count, now);
            StillCalls(a, x, k, i, time) ==> StillCalls(b, x, k, i, time)
  {
    hide Build, Ordered, Agree, TieFree, Covered, KindOf, Scheduled, DueTime, CallsFor, RowsFrom, AlikeAfter, UnionAt;
    var first, second := if swap then full else pruned, if swap then pruned else full;
    var a, b := RowsFrom(first, count, now), RowsFrom(second, count, now);
    RowIsBuilt(first, count, now, i);
    RowIsBuilt(second, count, now, i);
    PruningKeepsCoverage(pruned, full, now, i);
    if StillCalls(a, x, k, i, time) {
      var j :| 0 <= j < |a[i]| && KindOf(SlotOf(k), a[i][j].period) == k &&
               time == Scheduled(SlotOf(k), a[i][j].period) &&
               CallsFor(SlotOf(k), PeriodsIn(a[i]), a[i][j].period, x);
      assert PeriodsIn(a[i])[j] == a[i][j].period;
      var l := PrunedPeriodsAlike(pruned, full, now, i, swap, j);
      assert PeriodsIn(b[i])[l] == b[i][l].period;
      AlikeCallsAlike(k, PeriodsIn(a[i]), a[i][j].period, PeriodsIn(b[i]), b[i][l].period, now, x, time);
    }
  }

  // ---------- Before now the pruned list says less ----------

  /** The weekly events are all kept. */
  lemma WeeklyIsKept(pruned: seq<TimelineEvent>, full: seq<TimelineEvent>, now: int, u: int, m: nat)
    requires Ordered(full) && Ordered(pruned) && Agree(full, m) && PrunedFrom(pruned, full, now)
    ensures WeeklyAt(pruned, u, m) == WeeklyAt(full, u, m)
  {
    hide Listed, Ordered, Agree;
    PruningKeepsAgreement(pruned, full, now, m);
    if exists j :: 0 <= j < |full| && full[j].isAbsolute == false && full[j].time <= u {
      var e := SomeLatest(full, |full|, false, u);
      assert full[..|full|] == full;
      assert IsLatest(full, e, u) && IsLatest(pruned, e, u);
      LatestDecides(full, e, u, m);
      LatestDecides(pruned, e, u, m);
    } else {
      ListedByNone(full, |full|, false, u, m);
      assert forall j :: 0 <= j < |pruned| ==> pruned[j] in full;
      ListedByNone(pruned, |pruned|, false, u, m);
    }
  }

  /** What the pruned absolute list says, the full one says; what it misses was listed before the tolerance. */
  lemma AbsoluteIsLess(pruned: seq<TimelineEvent>, full: seq<TimelineEvent>, now: int, u: int, m: nat)
    requires Ordered(full) && Ordered(pruned) && Agree(full, m) && PrunedFrom(pruned, full, now)
    ensures AbsoluteAt(pruned, u, m) ==> AbsoluteAt(full, u, m)
    ensures AbsoluteAt(full, u, m) && !AbsoluteAt(pruned, u, m) ==>
              forall x :: now - TOLERANCE <= x <= u ==> AbsoluteAt(full, x, m)
  {
    hide Listed, Ordered, Agree;
    PruningKeepsAgreement(pruned, full, now, m);
    assert full[..|full|] == full && pruned[..|pruned|] == pruned;
    if exists j :: 0 <= j < |pruned| && pruned[j].isAbsolute == true && pruned[j].time <= u {
      var e := SomeLatest(pruned, |pruned|, true, u);
      assert IsLatest(pruned, e, u);
      forall f | f in full && f.isAbsolute && f.time <= u
        ensures f.time <= e.time
      {
        assert f in pruned || f.time <= e.time;
      }
      assert IsLatest(full, e, u);
      LatestDecides(full, e, u, m);
      LatestDecides(pruned, e, u, m);
    } else {
      ListedByNone(pruned, |pruned|, true, u, m);
      if exists j :: 0 <= j < |full| && full[j].isAbsolute == true && full[j].time <= u {
        var e := SomeLatest(full, |full|, true, u);
        assert IsLatest(full, e, u);
        LatestDecides(full, e, u, m);
        assert e !in pruned;
        forall x | now - TOLERANCE <= x <= u
          ensures AbsoluteAt(full, x, m) == AbsoluteAt(full, u, m)
        {
          assert IsLatest(full, e, x);
          LatestDecides(full, e, x, m);
        }
      } else {
        ListedByNone(full, |full|, true, u, m);
      }
    }
  }

  lemma UnionIsLess(pruned: seq<TimelineEvent>, full: seq<TimelineEvent>, now: int, u: int, m: nat)
    requires Ordered(full) && Ordered(pruned) && Agree(full, m) && PrunedFrom(pruned, full, now)
    ensures UnionAt(pruned, u, m) ==> UnionAt(full, u, m)
    ensures UnionAt(full, u, m) && !UnionAt(pruned, u, m) ==>
              forall x :: now - TOLERANCE <= x <= u ==> UnionAt(full, x, m)
  {
    hide AbsoluteAt, WeeklyAt, Ordered, Agree, PrunedFrom;
    WeeklyIsKept(pruned, full, now, u, m);
    AbsoluteIsLess(pruned, full, now, u, m);
  }

  // ---------- What was due just before now ----------

  /** A weekly start at a time up to now, in terms of the union. */
  ghost predicate StartsWeekly(events: seq<TimelineEvent>, time: int, now: int, m: nat) {
    && Covered(Build(events, m, now), now) && (forall u :: time <= u <= now ==> UnionAt(events, u, m))
    && !UnionAt(events, time - 1, m) && !AbsoluteEventAt(events, time)
  }

  lemma StartedCalls(events: seq<TimelineEvent>, count: nat, now: int, i: nat, time: int)
    requires Ordered(events) && Agree(events, i) && TieFree(events) && i < count && time <= now
    ensures StillCalls(RowsFrom(events, count, now), now, Started, i, time) <==> StartsWeekly(events, time, now, i)
  {
    hide Build, Ordered, Agree, TieFree, RowsFrom, UnionAt, AbsoluteEventAt;
    var rows: seq<seq<Cell>> := RowsFrom(events, count, now);
    var periods := Build(events, i, now);
    RowIsBuilt(events, count, now, i);
    PeriodsAreExact(events, i, now);
    BuildIsWellFormed(events, i, now);
    assert forall j :: 0 <= j < |rows[i]| ==> rows[i][j].period == periods[j];
    if StillCalls(rows, now, Started, i, time) {
      var j :| 0 <= j < |rows[i]| && rows[i][j].period.start == time && !rows[i][j].period.startAbsolute;
      assert MaximalRun(events, periods[j], i) && Within(periods[j], now);
    }
    if StartsWeekly(events, time, now, i) {
      var j :| 0 <= j < |periods| && Within(periods[j], now);
      var p := periods[j];
      assert MaximalRun(events, p, i);
      assert p.start < time ==> UnionAt(events, time - 1, i);
      assert p.start > time ==> UnionAt(events, p.start - 1, i);
      assert rows[i][j].period == p;
    }
  }

  /** The full list starts a period where the pruned one does and nothing was listed before. */
  lemma StartsAlike(pruned: seq<TimelineEvent>, full: seq<TimelineEvent>, now: int, time: int, m: nat)
    requires Ordered(full) && Ordered(pruned) && Agree(full, m) && TieFree(full) && PrunedFrom(pruned, full, now)
    requires now - LATE <= time <= now
    ensures StartsWeekly(full, time, now, m) <==> StartsWeekly(pruned, time, now, m) && !UnionAt(full, time - 1, m)
  {
    hide Build, Ordered, Agree, TieFree, Covered, UnionAt, PrunedFrom;
    PruningKeepsCoverage(pruned, full, now, m);
    RecentAbsoluteEvents(pruned, full, now, time);
    UnionIsLess(pruned, full, now, time - 1, m);
    forall u | time <= u <= now
      ensures UnionAt(pruned, u, m) ==> UnionAt(full, u, m)
      ensures UnionAt(full, u, m) && !UnionAt(full, time - 1, m) ==> UnionAt(pruned, u, m)
    {
      UnionIsLess(pruned, full, now, u, m);
    }
  }

  /** A weekly end that is announced in advance, in terms of the periods. */
  ghost predicate EndsWeekly(events: seq<TimelineEvent>, time: int, now: int, m: nat) {
    exists j :: 0 <= j < |Build(events, m, now)| &&
                var p := Build(events, m, now)[j];
                p.end == time && !p.endAbsolute && p.end - p.start >= ADVANCE
  }

  lemma EndingSoonCalls(events: seq<TimelineEvent>, count: nat, now: int, x: int, i: nat, time: int)
    requires i < count
    ensures StillCalls(RowsFrom(events, count, now), x, EndingSoon, i, time) <==> EndsWeekly(events, time, now, i)
  {
    hide Build, RowsFrom;
    var rows: seq<seq<Cell>> := RowsFrom(events, count, now);
    var periods := Build(events, i, now);
    RowIsBuilt(events, count, now, i);
    assert forall j :: 0 <= j < |rows[i]| ==> rows[i][j].period == PeriodsIn(rows[i])[j];
    assert forall j :: 0 <= j < |periods| ==> PeriodsIn(rows[i])[j] == periods[j];
  }

  /** The pruned list announces an end if its own run is as long as the notice takes. */
  lemma EndsAlike(pruned: seq<TimelineEvent>, full: seq<TimelineEvent>, now: int, time: int, m: nat)
    requires Ordered(full) && Ordered(pruned) && Agree(full, m) && TieFree(full) && PrunedFrom(pruned, full, now)
    ensures EndsWeekly(pruned, time, now, m) <==>
              EndsWeekly(full, time, now, m) && RunCloses(pruned, time - ADVANCE, time, m)
  {
    hide Build, Ordered, Agree, TieFree, UnionAt, PrunedFrom, Covered;
    PruningKeepsAgreement(pruned, full, now, m);
    PeriodsAreExact(pruned, m, now);
    PeriodsAreExact(full, m, now);
    if EndsWeekly(pruned, time, now, m) {
      var j :| 0 <= j < |Build(pruned, m, now)| && Build(pruned, m, now)[j].end == time &&
               !Build(pruned, m, now)[j].endAbsolute && time - Build(pruned, m, now)[j].start >= ADVANCE;
      var p := Build(pruned, m, now)[j];
      assert MaximalRun(pruned, p, m);
      var i := PrunedPeriodsAlike(pruned, full, now, m, false, j);
      var q := Build(full, m, now)[i];
      assert MaximalRun(full, q, m);
      UnionIsLess(pruned, full, now, q.start - 1, m);
    }
    if EndsWeekly(full, time, now, m) && RunCloses(pruned, time - ADVANCE, time, m) {
      var i :| 0 <= i < |Build(full, m, now)| && Build(full, m, now)[i].end == time &&
        !Build(full, m, now)[i].endAbsolute &&
               time - Build(full, m, now)[i].start >= ADVANCE;
      var j := PrunedPeriodsAlike(pruned, full, now, m, true, i);
      var p := Build(pruned, m, now)[j];
      assert MaximalRun(pruned, p, m);
    }
  }

  lemma RecentAbsoluteEvents(pruned: seq<TimelineEvent>, full: seq<TimelineEvent>, now: int, t: int)
    requires PrunedFrom(pruned, full, now) && t >= now - TOLERANCE
    ensures AbsoluteEventAt(pruned, t) == AbsoluteEventAt(full, t)
  {
    if i :| 0 <= i < |pruned| && pruned[i].isAbsolute && pruned[i].time == t {
      assert pruned[i] in full;
    }
    if i :| 0 <= i < |full| && full[i].isAbsolute && full[i].time == t {
      assert full[i] in pruned;
    }
  }

  /**
   Exactly what pruning changes of a notification, by its kind.  STARTED is sent needlessly if a
   schedule listed the MAC before its start already; ENDING_SOON is missed if the pruned run is too
   short for the notice.  Both concern only what was due by now; nothing else changes.
   */
  ghost predicate PruningChanges(pruned: seq<TimelineEvent>, full: seq<TimelineEvent>, now: int, k: Kind, i: nat,
                                 time: int,
                                 inPruned: bool, inFull: bool) {
    match k
    case Started => inFull <==> inPruned && (time > now || !UnionAt(full, time - 1, i))
    case EndingSoon => inPruned <==> inFull && (time - ADVANCE > now || RunCloses(pruned, time - ADVANCE, time, i))
    case _ => inPruned <==> inFull
  }

  lemma PrunedCalls(pruned: seq<TimelineEvent>, full: seq<TimelineEvent>, count: nat, now: int, x: int, k: Kind,
                    i: nat, time: int)
    requires Ordered(full) && Ordered(pruned) && TieFree(full) && PrunedFrom(pruned, full, now)
    requires i < count && Agree(full, i) && x == Max(now, DueTime(k, time)) && x - DueTime(k, time) <= LATE
    ensures PruningChanges(pruned, full, now, k, i, time,
                           StillCalls(RowsFrom(pruned, count, now), x, k, i, time),
                           StillCalls(RowsFrom(full, count, now), x, k, i, time))
  {
    hide Build, Ordered, Agree, TieFree, PrunedFrom, RowsFrom, StillCalls, UnionAt, RunCloses, StartsWeekly, EndsWeekly;
    if DueTime(k, time) > now || (!k.Started? && !k.EndingSoon?) {
      PrunedCallsAlike(pruned, full, count, now, false, x, k, i, time);
      PrunedCallsAlike(pruned, full, count, now, true, x, k, i, time);
    } else {
      PruningKeepsAgreement(pruned, full, now, i);
      if k.Started? {
        StartedCalls(pruned, count, now, i, time);
        StartedCalls(full, count, now, i, time);
        StartsAlike(pruned, full, now, time, i);
      } else {
        EndingSoonCalls(pruned, count, now, x, i, time);
        EndingSoonCalls(full, count, now, x, i, time);
        EndsAlike(pruned, full, now, time, i);
      }
    }
  }

  /** Over runs from now on, that is all that pruning changes, at every second. */
  lemma PruningReports(pruned: seq<TimelineEvent>, full: seq<TimelineEvent>, count: nat, now: int,
                       h: int, x: int, k: Kind, i: nat, time: int)
    requires Ordered(full) && Ordered(pruned) && TieFree(full) && PrunedFrom(pruned, full, now)
    requires count <= BATCH && now < h <= INT_MAX && forall m: nat :: m < count ==> Agree(full, m)
    ensures Roomy(RowsFrom(pruned, count, now)) && Roomy(RowsFrom(full, count, now))
    ensures PruningChanges(pruned, full, now, k, i, time,
                           Reported(WakeLog(RowsFrom(pruned, count, now), now, h), x, k, i, time),
                           Reported(WakeLog(RowsFrom(full, count, now), now, h), x, k, i, time))
  {
    hide Build, Ordered, Agree, TieFree, PrunedFrom, Reported, WakeLog, RowsFrom, StillCalls, DueTime, Roomy, AllClear;
    forall m: nat | m < count
      ensures Agree(pruned, m)
    {
      PruningKeepsAgreement(pruned, full, now, m);
    }
    RowsHaveRoom(pruned, count, now);
    RowsHaveRoom(full, count, now);
    ReportedAtDueTime(RowsFrom(pruned, count, now), now, h, x, k, i, time);
    ReportedAtDueTime(RowsFrom(full, count, now), now, h, x, k, i, time);
    if i < count && x == Max(now, DueTime(k, time)) && x - DueTime(k, time) <= LATE {
      PrunedCalls(pruned, full, count, now, x, k, i, time);
    }
  }

  /** For the list that the scheduler builds, against the one it would build without pruning. */
  lemma MergedReports(absolute: seq<S.Event>, weekly: seq<S.Event>, count: nat, offset: int, now: int, weeks: nat,
                      h: int, x: int, k: Kind, i: nat, time: int)
    requires count <= BATCH && now < h <= INT_MAX
    requires var full := MergedUnpruned(absolute, weekly, now, weeks, offset);
             TieFree(full) && forall m: nat :: m < count ==> Agree(full, m)
    ensures var merged := Merged(absolute, weekly, now, weeks, offset);
            var full := MergedUnpruned(absolute, weekly, now, weeks, offset);
            && Roomy(RowsFrom(merged, count, now)) && Roomy(RowsFrom(full, count, now))
            && PruningChanges(merged, full, now, k, i, time,
                              Reported(WakeLog(RowsFrom(merged, count, now), now, h), x, k, i, time),
                              Reported(WakeLog(RowsFrom(full, count, now), now, h), x, k, i, time))
  {
    hide Merged, MergedUnpruned, Ordered, Agree, TieFree, PrunedFrom, RowsFrom, Reported, WakeLog, Roomy,
      PruningChanges;
    MergedMembers(absolute, weekly, now, weeks, offset);
    MergedIsPruned(absolute, weekly, now, weeks, offset);
    PruningReports(Merged(absolute, weekly, now, weeks, offset), MergedUnpruned(absolute, weekly, now, weeks, offset),
                   count, now, h, x, k, i, time);
  }

  // ---------- Two cases ----------

  const PAUSE := TimelineEvent(-1000, [0], true)
  const NIGHT := TimelineEvent(-2, [0], false)
  const RESUME := TimelineEvent(-1, [], true)
  const MORNING := TimelineEvent(897, [], false)

  /**
   A pause begins, a weekly period begins during it, and one second later the pause is called off.
   Pruned of the pause's begin, the list has the period start by the weekly schedule two seconds
   ago, and STARTED goes out; the full list knows that the MAC was blocked before.
   */
  lemma PruningAnnouncesStart()
    ensures var pruned, full := [NIGHT, RESUME, MORNING], [PAUSE, NIGHT, RESUME, MORNING];
            && Ordered(full) && Ordered(pruned) && Agree(full, 0) && TieFree(full) && PrunedFrom(pruned, full, 0)
            && Roomy(RowsFrom(pruned, 1, 0)) && Roomy(RowsFrom(full, 1, 0))
            && Mentions(LogOf(RowsFrom(pruned, 1, 0), 0), Started, 0, -2)
            && !Mentions(LogOf(RowsFrom(full, 1, 0), 0), Started, 0, -2)
  {
    hide LogOf, Mentions, RowsFrom, Roomy, AllClear, StillCalls, Build, Agree;
    var pruned, full := [NIGHT, RESUME, MORNING], [PAUSE, NIGHT, RESUME, MORNING];
    PauseEventsAgree();
    RowsHaveRoom(pruned, 1, 0);
    RowsHaveRoom(full, 1, 0);
    PrunedPeriods();
    FullPeriods();
    FirstDispatch(RowsFrom(pruned, 1, 0), 0, Started, 0, -2);
    FirstDispatch(RowsFrom(full, 1, 0), 0, Started, 0, -2);
    OnePeriodCalls(pruned);
    OnePeriodCalls(full);
  }

  /** The same pause: the shortened period is a second too short for the notice that it ends in 897 s. */
  lemma PruningSilencesEnd()
    ensures var pruned, full := [NIGHT, RESUME, MORNING], [PAUSE, NIGHT, RESUME, MORNING];
            && Ordered(full) && Ordered(pruned) && Agree(full, 0) && TieFree(full) && PrunedFrom(pruned, full, 0)
            && Roomy(RowsFrom(pruned, 1, 0)) && Roomy(RowsFrom(full, 1, 0))
            && !Mentions(LogOf(RowsFrom(pruned, 1, 0), 0), EndingSoon, 0, 897)
            && Mentions(LogOf(RowsFrom(full, 1, 0), 0), EndingSoon, 0, 897)
  {
    hide LogOf, Mentions, RowsFrom, Roomy, AllClear, StillCalls, Build, Agree;
    var pruned, full := [NIGHT, RESUME, MORNING], [PAUSE, NIGHT, RESUME, MORNING];
    PauseEventsAgree();
    RowsHaveRoom(pruned, 1, 0);
    RowsHaveRoom(full, 1, 0);
    PrunedPeriods();
    FullPeriods();
    FirstDispatch(RowsFrom(pruned, 1, 0), 0, EndingSoon, 0, 897);
    FirstDispatch(RowsFrom(full, 1, 0), 0, EndingSoon, 0, 897);
    EndingSoonCalls(pruned, 1, 0, 0, 0, 897);
    EndingSoonCalls(full, 1, 0, 0, 0, 897);
    assert Build(full, 0, 0)[0] == Period(-1000, 897, true, false);
    assert Build(pruned, 0, 0)[0] == Period(-2, 897, false, false);
    assert EndsWeekly(full, 897, 0, 0) && !EndsWeekly(pruned, 897, 0, 0);
  }

  lemma PauseEventsAgree()
    ensures forall m: nat :: Agree([NIGHT, RESUME, MORNING], m) && Agree([PAUSE, NIGHT, RESUME, MORNING], m)
    ensures PrunedFrom([NIGHT, RESUME, MORNING], [PAUSE, NIGHT, RESUME, MORNING], 0)
  {
    var pruned, full := [NIGHT, RESUME, MORNING], [PAUSE, NIGHT, RESUME, MORNING];
    assert RESUME in full && full[1] == pruned[0] && full[2] == pruned[1] && full[3] == pruned[2];
  }

  lemma OnePeriodCalls(events: seq<TimelineEvent>)
    requires |Build(events, 0, 0)| == 1
    ensures var p := Build(events, 0, 0)[0];
            StillCalls(RowsFrom(events, 1, 0), 0, Started, 0, -2) <==> p.start == -2 && !p.startAbsolute && 0 < p.end
  {
    hide Build, RowsFrom;
    RowIsBuilt(events, 1, 0, 0);
    var rows := RowsFrom(events, 1, 0);
    assert PeriodsIn(rows[0])[0] == rows[0][0].period;
  }

  lemma PrunedPeriods()
    ensures Build([NIGHT, RESUME, MORNING], 0, 0) == [Period(-2, 897, false, false)]
  {
    hide Step;
    var events := [NIGHT, RESUME, MORNING];
    NoTies(events[1..], -2);
    NoTies(events[2..], -1);
    NoTies(events[3..], 897);
    var s1 := Step(INITIAL, NIGHT, [], 0, 0);
    var s2 := Step(s1, RESUME, [], 0, 0);
    assert After(events, 1, 0, 0) == s1;
    assert After(events, 2, 0, 0) == s2;
    assert After(events, 3, 0, 0) == Step(s2, MORNING, [], 0, 0);
    PrunedSteps();
  }

  lemma PrunedSteps()
    ensures Step(Step(Step(INITIAL, NIGHT, [], 0, 0), RESUME, [], 0, 0), MORNING, [], 0, 0).periods ==
              [Period(-2, 897, false, false)]
  {}

  lemma FullPeriods()
    ensures Build([PAUSE, NIGHT, RESUME, MORNING], 0, 0) == [Period(-1000, 897, true, false)]
  {
    hide Step;
    var events := [PAUSE, NIGHT, RESUME, MORNING];
    NoTies(events[1..], -1000);
    NoTies(events[2..], -2);
    NoTies(events[3..], -1);
    NoTies(events[4..], 897);
    var s1 := Step(INITIAL, PAUSE, [], 0, 0);
    var s2 := Step(s1, NIGHT, [], 0, 0);
    var s3 := Step(s2, RESUME, [], 0, 0);
    assert After(events, 1, 0, 0) == s1;
    assert After(events, 2, 0, 0) == s2;
    assert After(events, 3, 0, 0) == s3;
    assert After(events, 4, 0, 0) == Step(s3, MORNING, [], 0, 0);
    FullSteps();
  }

  lemma FullSteps()
    ensures var s3 := Step(Step(Step(INITIAL, PAUSE, [], 0, 0), NIGHT, [], 0, 0), RESUME, [], 0, 0);
            Step(s3, MORNING, [], 0, 0).periods
              == [Period(-1000, 897, true, false)]
  {}
}
