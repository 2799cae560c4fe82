/** What the timeline built from a schedule says, against the schedule and against enforcement. */
module TimelineProperties {
  import opened Time
  import opened Periods
  import opened PeriodProperties
  import opened PeriodExactness
  import opened Timeline
  import S = Schedule

  // ---------- Membership by the latest event ----------

  lemma {:induction false} ListedByLatest(events: seq<TimelineEvent>, n: nat, i: nat, u: int, m: nat)
    requires Ordered(events) && Agree(events, m) && i < n <= |events| && events[i].time <= u
    requires forall j :: 0 <= j < |events| && events[j].isAbsolute == events[i].isAbsolute && events[j].time <= u ==>
               events[j].time <= events[i].time
    ensures Listed(events, n, events[i].isAbsolute, u, m) == Has(events[i], m)
  {
    if i + 1 < n {
      ListedByLatest(events, n - 1, i, u, m);
      assert InOrder(events[i], events[n - 1]);
      assert SameMoment(events[i], events[n - 1]) ==> Has(events[i], m) == Has(events[n - 1], m);
    }
  }

  lemma {:induction false} ListedByNone(events: seq<TimelineEvent>, n: nat, absolute: bool, u: int, m: nat)
    requires n <= |events|
    requires forall j :: 0 <= j < n && events[j].isAbsolute == absolute ==> events[j].time > u
    ensures !Listed(events, n, absolute, u, m)
  {
    if n > 0 {
      ListedByNone(events, n - 1, absolute, u, m);
    }
  }

  /** e is the latest event of its kind at or before u. */
  ghost predicate IsLatest(events: seq<TimelineEvent>, e: TimelineEvent, u: int) {
    && e in events && e.time <= u
    && forall f :: f in events && f.isAbsolute == e.isAbsolute && f.time <= u ==> f.time <= e.time
  }

  lemma LatestDecides(events: seq<TimelineEvent>, e: TimelineEvent, u: int, m: nat)
    requires Ordered(events) && Agree(events, m) && IsLatest(events, e, u)
    ensures Listed(events, |events|, e.isAbsolute, u, m) == Has(e, m)
  {
    var i :| 0 <= i < |events| && events[i] == e;
    ListedByLatest(events, |events|, i, u, m);
  }

  lemma {:induction false} SomeLatest(events: seq<TimelineEvent>, n: nat, absolute: bool, u: int)
    returns (e: TimelineEvent)
    requires n <= |events|
    requires exists j :: 0 <= j < n && events[j].isAbsolute == absolute && events[j].time <= u
    ensures e in events[..n] && e.isAbsolute == absolute && e.time <= u
    ensures forall j :: 0 <= j < n && events[j].isAbsolute == absolute && events[j].time <= u ==>
              events[j].time <= e.time
  {
    var last := events[n - 1];
    if exists j :: 0 <= j < n - 1 && events[j].isAbsolute == absolute && events[j].time <= u {
      e := SomeLatest(events, n - 1, absolute, u);
      if last.isAbsolute == absolute && e.time < last.time <= u {
        e := last;
      }
    } else {
      e := last;
    }
  }

  // ---------- Pruning past absolute events ----------

  /** Events within the tolerance, and those of the greatest time at or before now. */
  ghost predicate StillMatters(e: TimelineEvent, full: seq<TimelineEvent>, now: int) {
    || e.time >= now - TOLERANCE
    || (e.time <= now && forall f :: f in full && f.isAbsolute && f.time <= now ==> f.time <= e.time)
  }

  ghost predicate PrunedFrom(pruned: seq<TimelineEvent>, full: seq<TimelineEvent>, now: int) {
    forall e :: e in pruned <==> e in full && (e.isAbsolute ==> StillMatters(e, full, now))
  }

  lemma PruningKeepsAgreement(pruned: seq<TimelineEvent>, full: seq<TimelineEvent>, now: int, m: nat)
    requires PrunedFrom(pruned, full, now)
    ensures Agree(full, m) ==> Agree(pruned, m)
    ensures TieFree(full) ==> TieFree(pruned)
  {
    forall i, j | 0 <= i < j < |pruned| && pruned[i] != pruned[j]
      ensures exists i', j' :: 0 <= i' < |full| && 0 <= j' < |full| && i' != j' && full[i'] == pruned[i] &&
                full[j'] == pruned[j]
    {
      assert pruned[i] in full && pruned[j] in full;
    }
  }

  /** From now on the pruned list gives the same two step functions. */
  lemma PruningKeepsMembership(pruned: seq<TimelineEvent>, full: seq<TimelineEvent>, now: int, absolute: bool,
                               u: int, m: nat)
    requires Ordered(full) && Ordered(pruned) && Agree(full, m) && PrunedFrom(pruned, full, now) && u >= now
    ensures Listed(pruned, |pruned|, absolute, u, m) == Listed(full, |full|, absolute, u, m)
  {
    hide Listed, Ordered, Agree;
    PruningKeepsAgreement(pruned, full, now, m);
    if exists j :: 0 <= j < |full| && full[j].isAbsolute == absolute && full[j].time <= u {
      var e := SomeLatest(full, |full|, absolute, u);
      assert IsLatest(full, e, u);
      assert e.isAbsolute ==> StillMatters(e, full, now);
      assert IsLatest(pruned, e, u);
      LatestDecides(full, e, u, m);
      LatestDecides(pruned, e, u, m);
    } else {
      ListedByNone(full, |full|, absolute, u, m);
      forall j | 0 <= j < |pruned| && pruned[j].isAbsolute == absolute
        ensures pruned[j].time > u
      {
        assert pruned[j] in full;
      }
      ListedByNone(pruned, |pruned|, absolute, u, m);
    }
  }

  lemma PruningKeepsCoverage(pruned: seq<TimelineEvent>, full: seq<TimelineEvent>, now: int, m: nat)
    requires Ordered(full) && Ordered(pruned) && Agree(full, m) && TieFree(full) && PrunedFrom(pruned, full, now)
    ensures forall u :: u >= now ==> UnionAt(pruned, u, m) == UnionAt(full, u, m)
    ensures forall u :: u >= now ==> Covered(Build(pruned, m, now), u) == Covered(Build(full, m, now), u)
  {
    hide Listed, Ordered, Agree, TieFree, PrunedFrom, Build, Covered, MaximalRun;
    PruningKeepsAgreement(pruned, full, now, m);
    PeriodsAreExact(pruned, m, now);
    PeriodsAreExact(full, m, now);
    forall u | u >= now
      ensures UnionAt(pruned, u, m) == UnionAt(full, u, m)
    {
      PruningKeepsMembership(pruned, full, now, true, u, m);
      PruningKeepsMembership(pruned, full, now, false, u, m);
    }
    assert forall u, v :: u >= now ==> RunCloses(pruned, u, v, m) == RunCloses(full, u, v, m);
  }

  // ---------- The merged list ----------

  /** The absolute events up to the limit, none pruned. */
  ghost function Unpruned(absolute: seq<S.Event>, limit: int): seq<TimelineEvent> {
    if absolute == [] then []
    else
      var front, e := Unpruned(absolute[..|absolute| - 1], limit), absolute[|absolute| - 1];
      if e.time <= limit then front + [AbsoluteEvent(e)] else front
  }

  ghost function MergedUnpruned(absolute: seq<S.Event>, weekly: seq<S.Event>, now: int, weeks: nat,
                                offset: int): seq<TimelineEvent> {
    InsertAll(InsertAll([], Expansion(weekly, weeks, now, weeks, offset)), Unpruned(absolute, now + weeks * WEEK))
  }

  lemma {:induction false} CurrentStateIsGreatest(absolute: seq<S.Event>, now: int)
    ensures var current := CurrentState(absolute, now);
            && (current.Some? <==> exists i :: 0 <= i < |absolute| && absolute[i].time <= now)
            && (current.Some? ==>
                  && current.value <= now
                  && (exists i :: 0 <= i < |absolute| && absolute[i].time == current.value)
                  && (forall i :: 0 <= i < |absolute| && absolute[i].time <= now ==> absolute[i].time <= current.value))
  {
    if absolute != [] {
      var front, last := absolute[..|absolute| - 1], absolute[|absolute| - 1];
      CurrentStateIsGreatest(front, now);
      assert absolute == front + [last];
      if i :| 0 <= i < |front| && CurrentState(front, now) == S.Some(front[i].time) {
        assert absolute[i] == front[i];
      }
    }
  }

  lemma PrunedGrows(absolute: seq<S.Event>, current: S.Option<int>, now: int, limit: int)
    requires absolute != []
    ensures var front, last := absolute[..|absolute| - 1], AbsoluteEvent(absolute[|absolute| - 1]);
            Pruned(absolute, current, now, limit) ==
              Pruned(front, current, now, limit) + if Kept(last.time, current, now, limit) then [last] else []
  {
    hide Kept;
  }

  lemma {:induction false} KeptMembers(absolute: seq<S.Event>, current: S.Option<int>, now: int, limit: int,
                                       e: TimelineEvent)
    ensures e in Pruned(absolute, current, now, limit) <==>
              exists i :: 0 <= i < |absolute| && e == AbsoluteEvent(absolute[i]) && Kept(e.time, current, now, limit)
  {
    hide Kept;
    if absolute != [] {
      hide Pruned;
      var n := |absolute| - 1;
      var front := absolute[..n];
      KeptMembers(front, current, now, limit, e);
      PrunedGrows(absolute, current, now, limit);
      if e in Pruned(front, current, now, limit) {
        var i :| 0 <= i < |front| && e == AbsoluteEvent(front[i]) && Kept(e.time, current, now, limit);
        assert e == AbsoluteEvent(absolute[i]);
      } else if e in Pruned(absolute, current, now, limit) {
        assert e == AbsoluteEvent(absolute[n]);
      }
      if i :| 0 <= i < |absolute| && e == AbsoluteEvent(absolute[i]) && Kept(e.time, current, now, limit) {
        if i < n {
          assert e == AbsoluteEvent(front[i]);
        }
      }
    }
  }

  lemma {:induction false} UnprunedMembers(absolute: seq<S.Event>, limit: int, e: TimelineEvent)
    ensures e in Unpruned(absolute, limit) <==>
              exists i :: 0 <= i < |absolute| && e == AbsoluteEvent(absolute[i]) && e.time <= limit
  {
    if absolute != [] {
      var n := |absolute| - 1;
      var front := absolute[..n];
      UnprunedMembers(front, limit, e);
      if e in Unpruned(absolute, limit) {
        if e in Unpruned(front, limit) {
          var i :| 0 <= i < |front| && e == AbsoluteEvent(front[i]) && e.time <= limit;
          assert e == AbsoluteEvent(absolute[i]);
        } else {
          assert e == AbsoluteEvent(absolute[n]);
        }
      }
      if i :| 0 <= i < |absolute| && e == AbsoluteEvent(absolute[i]) && e.time <= limit {
        if i < n {
          assert e == AbsoluteEvent(front[i]);
        }
      }
    }
  }

  lemma PrunedMembers(absolute: seq<S.Event>, current: S.Option<int>, now: int, limit: int, e: TimelineEvent)
    ensures e in Pruned(absolute, current, now, limit) <==>
              exists i :: 0 <= i < |absolute| && e == AbsoluteEvent(absolute[i]) && Kept(e.time, current, now, limit)
    ensures e in Unpruned(absolute, limit) <==>
              exists i :: 0 <= i < |absolute| && e == AbsoluteEvent(absolute[i]) && e.time <= limit
  {
    KeptMembers(absolute, current, now, limit, e);
    UnprunedMembers(absolute, limit, e);
  }

  lemma {:induction false} ExpansionIsWeekly(weekly: seq<S.Event>, count: nat, now: int, weeks: nat, offset: int,
                                             e: TimelineEvent)
    ensures e in Expansion(weekly, count, now, weeks, offset) <==>
              exists week: nat, i :: week < count && 0 <= i < |weekly| &&
                  Included(weekly[i], week, now, weeks, offset) &&
                                e == WeeklyEvent(weekly[i], week, now, offset)
  {
    hide Included, WeeklyEvent;
    if count > 0 {
      ExpansionIsWeekly(weekly, count - 1, now, weeks, offset, e);
      WeekMembers(weekly, |weekly|, count - 1, now, weeks, offset, e);
    }
  }

  lemma {:induction false} WeekMembers(weekly: seq<S.Event>, n: nat, week: nat, now: int, weeks: nat, offset: int,
                                       e: TimelineEvent)
    requires n <= |weekly|
    ensures e in OfWeek(weekly, n, week, now, weeks, offset) <==>
              exists i :: 0 <= i < n && Included(weekly[i], week, now, weeks, offset) &&
                          e == WeeklyEvent(weekly[i], week, now, offset)
  {
    hide Included, WeeklyEvent;
    if n > 0 {
      WeekMembers(weekly, n - 1, week, now, weeks, offset, e);
    }
  }

  /** Merging sorts; what is in the list is what was expanded or kept. */
  lemma MergedMembers(absolute: seq<S.Event>, weekly: seq<S.Event>, now: int, weeks: nat, offset: int)
    ensures var merged := Merged(absolute, weekly, now, weeks, offset);
            var full := MergedUnpruned(absolute, weekly, now, weeks, offset);
            var expansion, limit := Expansion(weekly, weeks, now, weeks, offset), now + weeks * WEEK;
            && Ordered(merged) && Ordered(full)
            && (forall e :: e in merged <==>
                  e in expansion || e in Pruned(absolute, CurrentState(absolute, now), now, limit))
            && (forall e :: e in full <==> e in expansion || e in Unpruned(absolute, limit))
  {
    hide InsertAll;
    var expansion, limit := Expansion(weekly, weeks, now, weeks, offset), now + weeks * WEEK;
    var kept := Pruned(absolute, CurrentState(absolute, now), now, limit);
    InsertAllKeepsOrdered([], expansion);
    InsertAllKeepsOrdered(InsertAll([], expansion), kept);
    InsertAllKeepsOrdered(InsertAll([], expansion), Unpruned(absolute, limit));
    var merged := Merged(absolute, weekly, now, weeks, offset);
    var full := MergedUnpruned(absolute, weekly, now, weeks, offset);
    forall e
      ensures e in merged <==> e in expansion || e in kept
      ensures e in full <==> e in expansion || e in Unpruned(absolute, limit)
    {
      InMultiset(merged, e);
      InMultiset(full, e);
    }
  }

  /** The event is entry i of the weekly list, in a week ahead: this week from its start, later ones from now on. */
  ghost predicate InWeek(weekly: seq<S.Event>, i: int, week: int, now: int, weeks: nat, offset: int, e: TimelineEvent) {
    && 0 <= i < |weekly| && 0 <= week < weeks
    && e == TimelineEvent(WeekStart(now, offset) + week * WEEK + weekly[i].time, weekly[i].block, false)
    && (if week == 0 then WeekStart(now, offset) <= e.time else now < e.time)
    && e.time <= now + weeks * WEEK
  }

  /** The event is entry i of the absolute list: at most a minute old, or the latest until now. */
  ghost predicate InWindow(absolute: seq<S.Event>, i: int, now: int, weeks: nat, e: TimelineEvent) {
    && 0 <= i < |absolute| && e == TimelineEvent(absolute[i].time, absolute[i].block, true)
    && (|| now - 60 <= e.time
        || forall j :: 0 <= j < |absolute| && absolute[j].time <= now ==> absolute[j].time <= e.time)
    && e.time <= now + weeks * WEEK
  }

  /** What is in the merged list, by the two schedules. */
  lemma MergedFromSchedules(absolute: seq<S.Event>, weekly: seq<S.Event>, now: int, weeks: nat, offset: int,
                            e: TimelineEvent)
    ensures e in Merged(absolute, weekly, now, weeks, offset) <==>
              || (exists i, week :: InWeek(weekly, i, week, now, weeks, offset, e))
              || (exists i :: InWindow(absolute, i, now, weeks, e))
  {
    hide Merged, Expansion, Pruned, CurrentState, InWeek, InWindow, Included, WeeklyEvent;
    var current, limit := CurrentState(absolute, now), now + weeks * WEEK;
    MergedMembers(absolute, weekly, now, weeks, offset);
    ExpansionIsWeekly(weekly, weeks, now, weeks, offset, e);
    PrunedMembers(absolute, current, now, limit, e);
    forall i, week: nat | 0 <= i < |weekly| && week < weeks
      ensures InWeek(weekly, i, week, now, weeks, offset, e) <==>
                Included(weekly[i], week, now, weeks, offset) && e == WeeklyEvent(weekly[i], week, now, offset)
    {
      IncludedIsInWeek(weekly, i, week, now, weeks, offset, e);
    }
    forall i | 0 <= i < |absolute|
      ensures InWindow(absolute, i, now, weeks, e) <==>
                e == AbsoluteEvent(absolute[i]) && Kept(e.time, current, now, limit)
    {
      KeptIsInWindow(absolute, i, now, weeks, e);
    }
    assert forall i, week :: InWeek(weekly, i, week, now, weeks, offset, e) ==> 0 <= i < |weekly| && 0 <= week < weeks
    by {
      InWeekBounds(weekly, now, weeks, offset, e);
    }
    assert forall i :: InWindow(absolute, i, now, weeks, e) ==> 0 <= i < |absolute| by {
      InWindowBounds(absolute, now, weeks, e);
    }
  }

  lemma InWeekBounds(weekly: seq<S.Event>, now: int, weeks: nat, offset: int, e: TimelineEvent)
    ensures forall i, week :: InWeek(weekly, i, week, now, weeks, offset, e) ==> 0 <= i < |weekly| && 0 <= week < weeks
  {}

  lemma InWindowBounds(absolute: seq<S.Event>, now: int, weeks: nat, e: TimelineEvent)
    ensures forall i :: InWindow(absolute, i, now, weeks, e) ==> 0 <= i < |absolute|
  {}

  lemma IncludedIsInWeek(weekly: seq<S.Event>, i: int, week: nat, now: int, weeks: nat, offset: int, e: TimelineEvent)
    requires 0 <= i < |weekly| && week < weeks
    ensures InWeek(weekly, i, week, now, weeks, offset, e) <==>
              Included(weekly[i], week, now, weeks, offset) && e == WeeklyEvent(weekly[i], week, now, offset)
  {
    hide ConvertUnixTimeToWeekly, WeeklyToUnixTime;
    WeeklyToUnixIsWeekStart(weekly[i].time, now + week * WEEK, offset);
    WeeklyToUnixIsWeekStart(0, now, offset);
    NextWeek(now, week, offset);
  }

  lemma KeptIsInWindow(absolute: seq<S.Event>, i: int, now: int, weeks: nat, e: TimelineEvent)
    requires 0 <= i < |absolute|
    ensures InWindow(absolute, i, now, weeks, e) <==>
              e == AbsoluteEvent(absolute[i]) && Kept(e.time, CurrentState(absolute, now), now, now + weeks * WEEK)
  {
    hide CurrentState;
    CurrentStateIsGreatest(absolute, now);
  }

  lemma InMultiset(s: seq<TimelineEvent>, e: TimelineEvent)
    ensures e in s <==> e in multiset(s)
  {}

  lemma MergedIsPruned(absolute: seq<S.Event>, weekly: seq<S.Event>, now: int, weeks: nat, offset: int)
    ensures PrunedFrom(Merged(absolute, weekly, now, weeks, offset),
              MergedUnpruned(absolute, weekly, now, weeks, offset), now)
  {
    hide Merged, MergedUnpruned, Expansion, Pruned, Unpruned, CurrentState, Included;
    MergedMembers(absolute, weekly, now, weeks, offset);
    CurrentStateIsGreatest(absolute, now);
    var current, limit := CurrentState(absolute, now), now + weeks * WEEK;
    var merged := Merged(absolute, weekly, now, weeks, offset);
    var full := MergedUnpruned(absolute, weekly, now, weeks, offset);
    forall e
      ensures e in merged <==> e in full && (e.isAbsolute ==> StillMatters(e, full, now))
    {
      ExpansionIsWeekly(weekly, weeks, now, weeks, offset, e);
      PrunedMembers(absolute, current, now, limit, e);
      if e in full && e.isAbsolute {
        KeptMatters(absolute, weekly, now, weeks, offset, e);
      }
    }
  }

  /** What the source keeps is what still matters. */
  lemma KeptMatters(absolute: seq<S.Event>, weekly: seq<S.Event>, now: int, weeks: nat, offset: int, e: TimelineEvent)
    requires e in MergedUnpruned(absolute, weekly, now, weeks, offset) && e.isAbsolute
    ensures var current, limit := CurrentState(absolute, now), now + weeks * WEEK;
            Kept(e.time, current, now, limit) <==>
              StillMatters(e, MergedUnpruned(absolute, weekly, now, weeks, offset), now)
  {
    hide Merged, MergedUnpruned, Expansion, Pruned, Unpruned, CurrentState, Included;
    MergedMembers(absolute, weekly, now, weeks, offset);
    CurrentStateIsGreatest(absolute, now);
    var current, limit := CurrentState(absolute, now), now + weeks * WEEK;
    var full := MergedUnpruned(absolute, weekly, now, weeks, offset);
    ExpansionIsWeekly(weekly, weeks, now, weeks, offset, e);
    PrunedMembers(absolute, current, now, limit, e);
    forall f | f in full && f.isAbsolute && f.time <= now
      ensures current.Some? && f.time <= current.value
    {
      ExpansionIsWeekly(weekly, weeks, now, weeks, offset, f);
      PrunedMembers(absolute, current, now, limit, f);
    }
    if current.Some? {
      var i :| 0 <= i < |absolute| && absolute[i].time == current.value;
      var f := AbsoluteEvent(absolute[i]);
      PrunedMembers(absolute, current, now, limit, f);
      assert f in full;
    }
  }

  /**
   Dropping the past absolute events other than the one in force is invisible from now on: the
   same union of the two schedules, and the same instants covered by periods.
   */
  lemma PruningIsInvisible(absolute: seq<S.Event>, weekly: seq<S.Event>, now: int, weeks: nat, offset: int, m: nat)
    requires var full := MergedUnpruned(absolute, weekly, now, weeks, offset); Agree(full, m) && TieFree(full)
    ensures var merged := Merged(absolute, weekly, now, weeks, offset);
            var full := MergedUnpruned(absolute, weekly, now, weeks, offset);
            forall u :: u >= now ==>
              && UnionAt(merged, u, m) == UnionAt(full, u, m)
              && Covered(Build(merged, m, now), u) == Covered(Build(full, m, now), u)
  {
    hide Merged, MergedUnpruned, Expansion, Pruned, Unpruned, CurrentState, UnionAt, Covered, Build;
    MergedMembers(absolute, weekly, now, weeks, offset);
    MergedIsPruned(absolute, weekly, now, weeks, offset);
    PruningKeepsCoverage(Merged(absolute, weekly, now, weeks, offset),
      MergedUnpruned(absolute, weekly, now, weeks, offset), now, m);
  }
}
