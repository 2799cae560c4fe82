/**
 The notification side (src/aker_notification.c) and the enforcement side (src/schedule.c) read
 the same schedule independently.  For a weekly schedule they agree on who is blocked.
 */
module Agreement {
  import opened Time
  import opened Periods
  import opened PeriodProperties
  import opened PeriodExactness
  import opened ScheduleProperties
  import opened Timeline
  import opened TimelineProperties
  import S = Schedule
  import Oversleeping

  ghost function WeeklyTimeline(base: seq<S.Event>, now: int, weeks: nat, offset: int): seq<TimelineEvent> {
    Merged([], S.Finalized(base), now, weeks, offset)
  }

  /** Every weekly event of the merged list is an occurrence of a weekly entry within the limit. */
  lemma ExpandedOccurs(absolute: seq<S.Event>, base: seq<S.Event>, now: int, weeks: nat, offset: int, e: TimelineEvent)
    returns (week: nat, i: nat)
    requires e in Merged(absolute, S.Finalized(base), now, weeks, offset) && !e.isAbsolute
    ensures week < weeks && i < |S.Finalized(base)|
    ensures e.time == WeekStart(now, offset) + week * WEEK + S.Finalized(base)[i].time
    ensures e.macs == S.Finalized(base)[i].block && WeekStart(now, offset) <= e.time <= now + weeks * WEEK
  {
    hide ConvertUnixTimeToWeekly, WeeklyToUnixTime, Expansion, Pruned, CurrentState, S.Finalized, Merged;
    var weekly := S.Finalized(base);
    MergedMembers(absolute, weekly, now, weeks, offset);
    PrunedMembers(absolute, CurrentState(absolute, now), now, now + weeks * WEEK, e);
    ExpansionIsWeekly(weekly, weeks, now, weeks, offset, e);
    week, i :| week < weeks && 0 <= i < |weekly| && Included(weekly[i], week, now, weeks, offset) &&
               e == WeeklyEvent(weekly[i], week, now, offset);
    WeeklyToUnixIsWeekStart(weekly[i].time, now + week * WEEK, offset);
    WeeklyToUnixIsWeekStart(0, now, offset);
    WeeksAreAligned(now, now, offset);
    NextWeek(now, week, offset);
  }

  /** The weekly entry i, in the given week, is in the timeline if it is due from this week on and within the limit. */
  lemma OccurrenceExpanded(base: seq<S.Event>, now: int, weeks: nat, offset: int, week: nat, i: nat)
    requires week < weeks && i < |S.Finalized(base)| && S.Finalized(base)[i].time >= 0
    requires WeekStart(now, offset) + week * WEEK + S.Finalized(base)[i].time <= now + weeks * WEEK
    ensures TimelineEvent(WeekStart(now, offset) + week * WEEK + S.Finalized(base)[i].time,
              S.Finalized(base)[i].block, false)
              in WeeklyTimeline(base, now, weeks, offset)
  {
    hide ConvertUnixTimeToWeekly, WeeklyToUnixTime, Expansion, S.Finalized, Merged;
    var weekly := S.Finalized(base);
    WeeklyToUnixIsWeekStart(weekly[i].time, now + week * WEEK, offset);
    WeeklyToUnixIsWeekStart(0, now, offset);
    NextWeek(now, week, offset);
    WeeksAreAligned(now, now, offset);
    assert Included(weekly[i], week, now, weeks, offset);
    MergedMembers([], weekly, now, weeks, offset);
    ExpansionIsWeekly(weekly, weeks, now, weeks, offset, WeeklyEvent(weekly[i], week, now, offset));
  }

  /** Entry i of the finalized list, in the given week, is an occurrence of an entry of the weekly schedule. */
  lemma EntryOccurs(base: seq<S.Event>, now: int, week: nat, i: nat, offset: int, time: int) returns (j: nat)
    requires WeeklyTimes(base) && base != [] && i < |S.Finalized(base)|
    requires time == WeekStart(now, offset) + week * WEEK + S.Finalized(base)[i].time
    ensures j < |base| && Occurs(base, j, time, offset) && S.Finalized(base)[i].block == base[j].block
  {
    hide ConvertUnixTimeToWeekly, S.Finalized;
    FinalizedAddsLastWeek(base);
    var weekly := S.Finalized(base);
    j := if weekly == base then i else if i == 0 then |base| - 1 else i - 1;
    var shift := if weekly[i].time < 0 then week - 1 else week;
    assert time == WeekStart(now, offset) + shift * WEEK + base[j].time;
    NextWeek(now, shift, offset);
    WeeksAreAligned(now + shift * WEEK, time, offset);
  }

  /** So it happens at that entry's time of the week and blocks what the entry blocks. */
  lemma ExpandedIsOccurrence(absolute: seq<S.Event>, base: seq<S.Event>, now: int, weeks: nat, offset: int,
                             e: TimelineEvent) returns (j: nat)
    requires WeeklyTimes(base) && base != []
    requires e in Merged(absolute, S.Finalized(base), now, weeks, offset) && !e.isAbsolute
    ensures j < |base| && Occurs(base, j, e.time, offset) && e.macs == base[j].block
  {
    hide ConvertUnixTimeToWeekly, S.Finalized, Merged, WeeklyTimes, Occurs;
    var week, i := ExpandedOccurs(absolute, base, now, weeks, offset, e);
    j := EntryOccurs(base, now, week, i, offset, e.time);
  }

  lemma AbsoluteMember(absolute: seq<S.Event>, weekly: seq<S.Event>, now: int, weeks: nat, offset: int,
                       e: TimelineEvent) returns (i: nat)
    requires e in Merged(absolute, weekly, now, weeks, offset) && e.isAbsolute
    ensures i < |absolute| && e == AbsoluteEvent(absolute[i])
  {
    hide Merged, Expansion, Pruned, CurrentState;
    MergedMembers(absolute, weekly, now, weeks, offset);
    ExpansionIsWeekly(weekly, weeks, now, weeks, offset, e);
    PrunedMembers(absolute, CurrentState(absolute, now), now, now + weeks * WEEK, e);
    i :| 0 <= i < |absolute| && e == AbsoluteEvent(absolute[i]);
  }

  /** Merged events of one kind at one time come from the same entry of the schedule. */
  lemma SameMomentSameEntry(absolute: seq<S.Event>, base: seq<S.Event>, now: int, weeks: nat, offset: int,
                            e: TimelineEvent, f: TimelineEvent)
    requires S.StrictlySorted(absolute) && WeeklyTimes(base)
    requires var events := Merged(absolute, S.Finalized(base), now, weeks, offset); e in events && f in events
    requires SameMoment(e, f)
    ensures e.macs == f.macs
  {
    hide ConvertUnixTimeToWeekly, S.Finalized, Merged;
    if e.isAbsolute {
      var i := AbsoluteMember(absolute, S.Finalized(base), now, weeks, offset, e);
      var j := AbsoluteMember(absolute, S.Finalized(base), now, weeks, offset, f);
    } else if base == [] {
      EmptyStaysEmpty();
      var week, i := ExpandedOccurs(absolute, base, now, weeks, offset, e);
    } else {
      var i := ExpandedIsOccurrence(absolute, base, now, weeks, offset, e);
      var j := ExpandedIsOccurrence(absolute, base, now, weeks, offset, f);
    }
  }

  lemma EmptyStaysEmpty()
    ensures S.Finalized([]) == []
  {}

  /** A schedule whose absolute times, and whose weekly times, are distinct never contradicts itself at one moment. */
  lemma MergedAgrees(absolute: seq<S.Event>, base: seq<S.Event>, now: int, weeks: nat, offset: int, m: nat)
    requires S.StrictlySorted(absolute) && WeeklyTimes(base)
    ensures var events := Merged(absolute, S.Finalized(base), now, weeks, offset); Ordered(events) && Agree(events, m)
  {
    hide S.Finalized, Merged, Ordered;
    var events := Merged(absolute, S.Finalized(base), now, weeks, offset);
    MergedMembers(absolute, S.Finalized(base), now, weeks, offset);
    forall i, j | 0 <= i < j < |events| && SameMoment(events[i], events[j])
      ensures Has(events[i], m) == Has(events[j], m)
    {
      SameMomentSameEntry(absolute, base, now, weeks, offset, events[i], events[j]);
    }
  }

  /** The periods built from such a schedule are nonempty, apart from each other, in order, and end after now. */
  lemma BuiltPeriodsAreWellFormed(absolute: seq<S.Event>, base: seq<S.Event>, now: int, weeks: nat, offset: int, m: nat)
    requires S.StrictlySorted(absolute) && WeeklyTimes(base)
    ensures var periods := PeriodsOf(absolute, S.Finalized(base), m, now, weeks, offset);
            WellFormed(periods) && forall i :: 0 <= i < |periods| ==> now < periods[i].end
  {
    hide S.Finalized, Merged, Build;
    MergedAgrees(absolute, base, now, weeks, offset, m);
    BuildIsWellFormed(Merged(absolute, S.Finalized(base), now, weeks, offset), m, now);
  }

  /** A weekly schedule that always blocks a MAC yields no period for it, so skipping it loses nothing. */
  lemma SkippingIndefiniteIsHarmless(base: seq<S.Event>, now: int, weeks: nat, offset: int, m: nat)
    requires IndefinitelyBlocked(S.Finalized(base), m)
    ensures Build(WeeklyTimeline(base, now, weeks, offset), m, now) == []
  {
    hide S.Finalized, Merged, After;
    var events := WeeklyTimeline(base, now, weeks, offset);
    forall k | 0 <= k < |events|
      ensures !events[k].isAbsolute && Has(events[k], m)
    {
      assert events[k] in events;
      if events[k].isAbsolute {
        var i := AbsoluteMember([], S.Finalized(base), now, weeks, offset, events[k]);
      }
      var week, i := ExpandedOccurs([], base, now, weeks, offset, events[k]);
    }
    NeverReleased(events, |events|, m, now);
  }

  /** Every event of the weekly schedule lists the MAC. */
  ghost predicate AlwaysListed(base: seq<S.Event>, m: nat) {
    base != [] && forall i :: 0 <= i < |base| ==> m in base[i].block
  }

  /** The MACs that are skipped are those that every event of the schedule as it arrived lists. */
  lemma SkipsAlwaysListed(base: seq<S.Event>, m: nat)
    requires WeeklyTimes(base)
    ensures IndefinitelyBlocked(S.Finalized(base), m) <==> AlwaysListed(base, m)
  {
    hide S.Finalized, WeeklyTimes;
    if base == [] {
      NothingToFinalize();
    } else {
      FinalizedAddsLastWeek(base);
      if base[0].time != 0 {
        LastWeekListsNoMore(base, base[|base| - 1].time - WEEK, m);
      }
    }
  }

  lemma LastWeekListsNoMore(base: seq<S.Event>, t: int, m: nat)
    requires base != []
    ensures IndefinitelyBlocked([S.Event(t, base[|base| - 1].block)] + base, m) <==> AlwaysListed(base, m)
  {
    var weekly := [S.Event(t, base[|base| - 1].block)] + base;
    assert weekly[1..] == base && weekly[|weekly| - 1] == base[|base| - 1];
    assert forall i :: 0 <= i < |base| ==> weekly[i + 1] == base[i];
  }

  lemma NothingToFinalize()
    ensures S.Finalized([]) == []
  {}

  /** A MAC gets no period exactly if every weekly event lists it or no blocked stretch of it closes after now. */
  lemma WhoGetsNoPeriod(absolute: seq<S.Event>, base: seq<S.Event>, now: int, weeks: nat, offset: int, m: nat)
    requires S.StrictlySorted(absolute) && WeeklyTimes(base)
    requires forall t :: !Lossy(Merged(absolute, S.Finalized(base), now, weeks, offset), t, m)
    ensures var events := Merged(absolute, S.Finalized(base), now, weeks, offset);
            PeriodsOf(absolute, S.Finalized(base), m, now, weeks, offset) == [] <==>
              AlwaysListed(base, m) || forall u, v :: now < v ==> !RunCloses(events, u, v, m)
  {
    hide S.Finalized, Merged, Build, Lossy, RunCloses, UnionAt, Ordered, Agree, AlwaysListed, IndefinitelyBlocked;
    var events := Merged(absolute, S.Finalized(base), now, weeks, offset);
    MergedAgrees(absolute, base, now, weeks, offset, m);
    SkipsAlwaysListed(base, m);
    LosslessIsExact(events, m, now);
    BuildIsWellFormed(events, m, now);
    var periods := Build(events, m, now);
    if periods != [] {
      assert Within(periods[0], periods[0].start) && Covered(periods, periods[0].start);
    }
    if u, v :| now < v && RunCloses(events, u, v, m) {
      assert Covered(periods, u);
    }
  }

  lemma {:induction false} NeverReleased(events: seq<TimelineEvent>, k: nat, m: nat, now: int)
    requires k <= |events| && forall i :: 0 <= i < |events| ==> Has(events[i], m)
    ensures After(events, k, m, now).periods == []
  {
    hide Step;
    if k > 0 {
      NeverReleased(events, k - 1, m, now);
      ListedKeepsPeriods(After(events, k - 1, m, now), events[k - 1], Tied(events[k..], events[k - 1].time), m, now);
    }
  }

  lemma ListedKeepsPeriods(st: State, e: TimelineEvent, tied: seq<TimelineEvent>, m: nat, now: int)
    requires Has(e, m)
    ensures Step(st, e, tied, m, now).periods == st.periods
  {
    hide WeeklyLists, WeeklyOmits, WeeklyHolds;
  }

  /** With no absolute events nothing ties. */
  lemma WeeklyOnly(base: seq<S.Event>, now: int, weeks: nat, offset: int, m: nat)
    requires WeeklyTimes(base)
    ensures var events := WeeklyTimeline(base, now, weeks, offset);
            Ordered(events) && Agree(events, m) && TieFree(events) && forall e :: e in events ==> !e.isAbsolute
  {
    hide S.Finalized, Merged, Ordered, Agree;
    MergedAgrees([], base, now, weeks, offset, m);
    var events := WeeklyTimeline(base, now, weeks, offset);
    forall e | e in events
      ensures !e.isAbsolute
    {
      if e.isAbsolute {
        var i := AbsoluteMember([], S.Finalized(base), now, weeks, offset, e);
      }
    }
    assert forall i :: 0 <= i < |events| ==> events[i] in events;
  }

  /** A time before some expanded event lies in one of the expanded weeks. */
  lemma WeekIsExpanded(base: seq<S.Event>, now: int, weeks: nat, offset: int, u: int, later: TimelineEvent)
    returns (week: nat)
    requires WeeklyTimes(base) && base != []
    requires later in WeeklyTimeline(base, now, weeks, offset) && now <= u < later.time
    ensures week < weeks && WeekStart(u, offset) == WeekStart(now, offset) + week * WEEK
    ensures u < now + weeks * WEEK
  {
    hide ConvertUnixTimeToWeekly, S.Finalized, Merged, Ordered, Agree, TieFree, WeeklyTimes;
    WeeklyOnly(base, now, weeks, offset, 0);
    var lastWeek, i := ExpandedOccurs([], base, now, weeks, offset, later);
    FinalizedInWeek(base, i);
    WeeksAreAligned(u, u, offset);
    week := WeekNumber(now, u, offset);
  }

  lemma FinalizedInWeek(base: seq<S.Event>, i: nat)
    requires WeeklyTimes(base) && i < |S.Finalized(base)|
    ensures S.Finalized(base)[i].time < WEEK
  {
    hide S.Finalized;
    if base == [] {
      NothingToFinalize();
    } else {
      FinalizedAddsLastWeek(base);
    }
  }

  /** The rule in force at u, as an event of the timeline. */
  lemma RuleIsExpanded(base: seq<S.Event>, now: int, weeks: nat, offset: int, u: int, later: TimelineEvent)
    requires WeeklyTimes(base) && base != [] && S.Finalized(base) != []
    requires now <= u && WeekStart(now, offset) + base[0].time <= u
    requires later in WeeklyTimeline(base, now, weeks, offset) && u < later.time
    ensures var rule := Rule(base, u, offset);
            TimelineEvent(WeekStart(u, offset) + rule.time, rule.block, false)
              in WeeklyTimeline(base, now, weeks, offset)
  {
    hide ConvertUnixTimeToWeekly, S.Finalized, Merged, S.Scan, WeeklyTimeline;
    FinalizedAddsLastWeek(base);
    var weekly := S.Finalized(base);
    var k := S.Scan(weekly, 0, ConvertUnixTimeToWeekly(u, offset));
    var week := WeekIsExpanded(base, now, weeks, offset, u, later);
    WeeksAreAligned(u, u, offset);
    if weekly[k].time >= 0 {
      OccurrenceExpanded(base, now, weeks, offset, week, k);
    } else {
      // before the first event of its week the last event of the week before is in force
      assert weekly[1] == base[0] && weekly[|weekly| - 1] == base[|base| - 1];
      OccurrenceExpanded(base, now, weeks, offset, week - 1, |weekly| - 1);
    }
  }

  /** In the timeline the weekly schedule lists a MAC at u exactly if the rule in force does. */
  lemma TimelineFollowsRule(base: seq<S.Event>, now: int, weeks: nat, offset: int, u: int, later: TimelineEvent, m: nat)
    requires WeeklyTimes(base) && base != [] && S.Finalized(base) != []
    requires now <= u && WeekStart(now, offset) + base[0].time <= u
    requires later in WeeklyTimeline(base, now, weeks, offset) && u < later.time
    ensures UnionAt(WeeklyTimeline(base, now, weeks, offset), u, m) <==> m in Rule(base, u, offset).block
  {
    hide ConvertUnixTimeToWeekly, S.Finalized, Merged, Rule, Occurs, Listed;
    var events := WeeklyTimeline(base, now, weeks, offset);
    WeeklyOnly(base, now, weeks, offset, m);
    RuleIsExpanded(base, now, weeks, offset, u, later);
    var rule := Rule(base, u, offset);
    var e := TimelineEvent(WeekStart(u, offset) + rule.time, rule.block, false);
    var i := WeeklyRepeats(base, u, offset);
    forall f | f in events && f.time <= u
      ensures f.time <= e.time
    {
      var j := ExpandedIsOccurrence([], base, now, weeks, offset, f);
    }
    assert IsLatest(events, e, u);
    LatestDecides(events, e, u, m);
    ListedByNone(events, |events|, true, u, m);
  }

  /** A blocked instant before an event that omits the MAC is in a run that closes. */
  lemma {:induction false} RunCloser(events: seq<TimelineEvent>, u: int, last: int, m: nat) returns (v: int)
    requires u < last && UnionAt(events, u, m) && !UnionAt(events, last, m)
    ensures RunCloses(events, u, v, m)
    decreases last - u
  {
    hide UnionAt;
    if UnionAt(events, u + 1, m) {
      v := RunCloser(events, u + 1, last, m);
    } else {
      v := u + 1;
    }
  }

  lemma OmittedAt(base: seq<S.Event>, now: int, weeks: nat, offset: int, e: TimelineEvent, m: nat)
    requires WeeklyTimes(base) && base != []
    requires e in WeeklyTimeline(base, now, weeks, offset) && !Has(e, m)
    ensures !UnionAt(WeeklyTimeline(base, now, weeks, offset), e.time, m)
    ensures !IndefinitelyBlocked(S.Finalized(base), m)
  {
    hide S.Finalized, Merged, Listed;
    var events := WeeklyTimeline(base, now, weeks, offset);
    WeeklyOnly(base, now, weeks, offset, m);
    LatestDecides(events, e, e.time, m);
    ListedByNone(events, |events|, true, e.time, m);
    var week, i := ExpandedOccurs([], base, now, weeks, offset, e);
  }

  /**
   At every second from now on, from this week's first event until some expanded event that omits
   the MAC, the timeline has the MAC in a period exactly if the event that decides for the
   firewall lists it.
   */
  lemma TimelineAgreesWithEnforcement(base: seq<S.Event>, now: int, weeks: nat, offset: int, u: int,
                                      later: TimelineEvent, m: nat)
    requires WeeklyTimes(base) && base != []
    requires now <= u && WeekStart(now, offset) + base[0].time <= u
    requires later in WeeklyTimeline(base, now, weeks, offset) && u < later.time && !Has(later, m)
    ensures var weekly := S.Finalized(base);
            var choice := S.Choose([], weekly, u, offset);
            && choice.FromWeekly?
            && (Covered(PeriodsOf([], weekly, m, now, weeks, offset), u) <==> m in choice.event.block)
  {
    hide ConvertUnixTimeToWeekly, S.Finalized, Merged, UnionAt, Build, S.Scan, Covered;
    FinalizedAddsLastWeek(base);
    var events := WeeklyTimeline(base, now, weeks, offset);
    WeeklyOnly(base, now, weeks, offset, m);
    OmittedAt(base, now, weeks, offset, later, m);
    TimelineFollowsRule(base, now, weeks, offset, u, later, m);
    PeriodsAreExact(events, m, now);
    if UnionAt(events, u, m) {
      var v := RunCloser(events, u, later.time, m);
    }
  }

  /** The event before this week's first one is not expanded: until then the timeline lists nothing. */
  lemma NothingBeforeFirst(base: seq<S.Event>, now: int, weeks: nat, offset: int, e: TimelineEvent)
    requires WeeklyTimes(base) && base != [] && e in WeeklyTimeline(base, now, weeks, offset)
    ensures WeekStart(now, offset) + base[0].time <= e.time
  {
    hide ConvertUnixTimeToWeekly, S.Finalized, Merged, Ordered, Agree, TieFree;
    WeeklyOnly(base, now, weeks, offset, 0);
    var week, i := ExpandedOccurs([], base, now, weeks, offset, e);
    var j := ExpandedIsOccurrence([], base, now, weeks, offset, e);
    WeeksAreAligned(now, now, offset);
    WeeksAreAligned(now, e.time, offset);
    if e.time < WeekStart(now, offset) + WEEK {
      assert WeekStart(e.time, offset) == WeekStart(now, offset);
    }
  }

  lemma CarryOverIsLost(base: seq<S.Event>, now: int, weeks: nat, offset: int, u: int, m: nat)
    requires WeeklyTimes(base) && base != [] && u < WeekStart(now, offset) + base[0].time
    ensures !Covered(PeriodsOf([], S.Finalized(base), m, now, weeks, offset), u)
  {
    hide ConvertUnixTimeToWeekly, S.Finalized, Merged, Build, Listed, Ordered, Agree, TieFree;
    var events := WeeklyTimeline(base, now, weeks, offset);
    WeeklyOnly(base, now, weeks, offset, m);
    forall j | 0 <= j < |events|
      ensures events[j].time > u
    {
      NothingBeforeFirst(base, now, weeks, offset, events[j]);
    }
    ListedByNone(events, |events|, true, u, m);
    ListedByNone(events, |events|, false, u, m);
    PeriodsAreSound(events, m, now);
  }

  /** On a Sunday morning the firewall still blocks since Friday; the timeline built then shows no period. */
  lemma CarryOverMissed()
    ensures var sunday, base := 3 * DAY, [S.Event(DAY, []), S.Event(5 * DAY, [0])];
            && S.Choose([], S.Finalized(base), sunday + 1000, 0) == S.FromWeekly(S.Event(5 * DAY - WEEK, [0]))
            && !Covered(PeriodsOf([], S.Finalized(base), 0, sunday + 1000, 2, 0), sunday + 1000)
  {
    hide S.Finalized, PeriodsOf, Rule, Covered;
    var sunday, base := 3 * DAY, [S.Event(DAY, []), S.Event(5 * DAY, [0])];
    FinalizedAddsLastWeek(base);
    Oversleeping.RuleBeforeFirst(base, sunday + 1000, 0);
    assert Rule(base, sunday + 1000, 0) == S.Event(5 * DAY - WEEK, [0]);
    ChooseIsRule(base, sunday + 1000, 0);
    CarryOverIsLost(base, sunday + 1000, 2, 0, sunday + 1000, 0);
  }

  lemma ChooseIsRule(base: seq<S.Event>, u: int, offset: int)
    requires base != [] && S.Finalized(base) != []
    ensures S.Choose([], S.Finalized(base), u, offset) == S.FromWeekly(Rule(base, u, offset))
  {
    hide S.Finalized, ConvertUnixTimeToWeekly, S.Scan;
  }

  /** A run that closes is closed by an event that omits the MAC. */
  lemma CloserOmits(events: seq<TimelineEvent>, u: int, v: int, m: nat) returns (e: TimelineEvent)
    requires Ordered(events) && Agree(events, m) && RunCloses(events, u, v, m)
    requires forall f :: f in events ==> !f.isAbsolute
    ensures e in events && u < e.time && !Has(e, m)
  {
    hide Listed, Ordered, Agree;
    assert UnionAt(events, u, m);
    assert forall j :: 0 <= j < |events| ==> events[j] in events && !events[j].isAbsolute;
    ListedByNone(events, |events|, true, u, m);
    if forall j :: 0 <= j < |events| && events[j].isAbsolute == false ==> events[j].time > u {
      ListedByNone(events, |events|, false, u, m);
    }
    e := SomeLatest(events, |events|, false, v);
    assert events[..|events|] == events;
    assert IsLatest(events, e, v);
    LatestDecides(events, e, v, m);
    if e.time <= u {
      assert IsLatest(events, e, u);
      LatestDecides(events, e, u, m);
    }
  }

  /**
   Exactly how far the two sides agree.  From now on the timeline has the MAC in a period if and
   only if the event that decides for the firewall lists it, this week's first event is past, and
   an expanded event still to come omits the MAC.
   */
  lemma TimelineIsEnforcementWithEnd(base: seq<S.Event>, now: int, weeks: nat, offset: int, u: int, m: nat)
    requires WeeklyTimes(base) && base != [] && now <= u
    ensures var weekly := S.Finalized(base);
            var choice := S.Choose([], weekly, u, offset);
            && choice.FromWeekly?
            && (Covered(PeriodsOf([], weekly, m, now, weeks, offset), u) <==>
                  && m in choice.event.block
                  && WeekStart(now, offset) + base[0].time <= u
                  && exists later :: later in WeeklyTimeline(base, now, weeks, offset) && u < later.time &&
                       !Has(later, m))
  {
    hide ConvertUnixTimeToWeekly, S.Finalized, Merged, Build, S.Scan, Ordered, Agree, TieFree, UnionAt, Covered;
    FinalizedAddsLastWeek(base);
    var events := WeeklyTimeline(base, now, weeks, offset);
    if u < WeekStart(now, offset) + base[0].time {
      CarryOverIsLost(base, now, weeks, offset, u, m);
    } else if later :| later in events && u < later.time && !Has(later, m) {
      TimelineAgreesWithEnforcement(base, now, weeks, offset, u, later, m);
    } else {
      UnclosedIsUncovered(base, now, weeks, offset, u, m);
    }
  }

  /** A blocked stretch that no expanded event ends is in no period. */
  lemma UnclosedIsUncovered(base: seq<S.Event>, now: int, weeks: nat, offset: int, u: int, m: nat)
    requires WeeklyTimes(base) && base != []
    requires forall e :: e in WeeklyTimeline(base, now, weeks, offset) && u < e.time ==> Has(e, m)
    ensures !Covered(PeriodsOf([], S.Finalized(base), m, now, weeks, offset), u)
  {
    hide ConvertUnixTimeToWeekly, S.Finalized, Merged, Build, MaximalRun, RunCloses;
    var events := WeeklyTimeline(base, now, weeks, offset);
    WeeklyOnly(base, now, weeks, offset, m);
    PeriodsAreExact(events, m, now);
    if v :| v > now && RunCloses(events, u, v, m) {
      var e := CloserOmits(events, u, v, m);
    }
  }

  // ---------- With absolute events ----------

  /** Between two absolute events the firewall follows the earlier one, whatever the weekly schedule. */
  lemma AbsoluteDecides(absolute: seq<S.Event>, weekly: seq<S.Event>, i: nat, u: int, offset: int)
    requires S.StrictlySorted(absolute) && i + 1 < |absolute| && absolute[i].time <= u < absolute[i + 1].time
    ensures S.Choose(absolute, weekly, u, offset) == S.FromAbsolute(absolute[i])
  {
    hide ConvertUnixTimeToWeekly, S.Scan;
    assert S.Scan(absolute, 0, u) == i;
  }

  lemma CurrentIsLatest(absolute: seq<S.Event>, now: int, i: nat)
    requires S.StrictlySorted(absolute) && i + 1 < |absolute| && absolute[i].time <= now < absolute[i + 1].time
    ensures CurrentState(absolute, now) == S.Some(absolute[i].time)
  {
    hide CurrentState;
    CurrentStateIsGreatest(absolute, now);
  }

  /** That event is kept in the timeline. */
  lemma AbsoluteIsKept(absolute: seq<S.Event>, weekly: seq<S.Event>, now: int, weeks: nat, offset: int, i: nat)
    requires S.StrictlySorted(absolute) && i + 1 < |absolute| && now < absolute[i + 1].time
    requires absolute[i].time <= now + weeks * WEEK
    ensures AbsoluteEvent(absolute[i]) in Merged(absolute, weekly, now, weeks, offset)
  {
    hide Merged, Expansion, Pruned, Unpruned, CurrentState, Ordered, S.StrictlySorted;
    var e, limit := AbsoluteEvent(absolute[i]), now + weeks * WEEK;
    MergedMembers(absolute, weekly, now, weeks, offset);
    if absolute[i].time <= now {
      CurrentIsLatest(absolute, now, i);
    }
    PrunedMembers(absolute, CurrentState(absolute, now), now, limit, e);
    assert Kept(e.time, CurrentState(absolute, now), now, limit);
  }

  /** It is the latest absolute event of the timeline until the next one. */
  lemma AbsoluteIsListed(absolute: seq<S.Event>, weekly: seq<S.Event>, now: int, weeks: nat, offset: int,
                         i: nat, u: int, m: nat)
    requires S.StrictlySorted(absolute) && i + 1 < |absolute| && absolute[i].time <= u < absolute[i + 1].time
    requires now <= u && absolute[i].time <= now + weeks * WEEK
    requires var events := Merged(absolute, weekly, now, weeks, offset); Ordered(events) && Agree(events, m)
    ensures AbsoluteAt(Merged(absolute, weekly, now, weeks, offset), u, m) <==> m in absolute[i].block
  {
    hide Merged, Listed, Ordered, Agree;
    var events, e := Merged(absolute, weekly, now, weeks, offset), AbsoluteEvent(absolute[i]);
    AbsoluteIsKept(absolute, weekly, now, weeks, offset, i);
    forall f | f in events && f.isAbsolute && f.time <= u
      ensures f.time <= e.time
    {
      var j := AbsoluteMember(absolute, weekly, now, weeks, offset, f);
      assert j <= i + 1;
    }
    LatestDecides(events, e, u, m);
  }

  /** The weekly events of a timeline do not depend on the absolute ones. */
  lemma SameWeeklyEvents(absolute: seq<S.Event>, weekly: seq<S.Event>, now: int, weeks: nat, offset: int,
                         e: TimelineEvent)
    requires !e.isAbsolute
    ensures e in Merged(absolute, weekly, now, weeks, offset) <==> e in Merged([], weekly, now, weeks, offset)
  {
    hide Merged, Expansion, Pruned, CurrentState;
    MergedMembers(absolute, weekly, now, weeks, offset);
    MergedMembers([], weekly, now, weeks, offset);
    PrunedMembers(absolute, CurrentState(absolute, now), now, now + weeks * WEEK, e);
    PrunedMembers([], CurrentState([], now), now, now + weeks * WEEK, e);
  }

  lemma WeeklyIsRule(absolute: seq<S.Event>, base: seq<S.Event>, now: int, weeks: nat, offset: int, u: int,
                     later: TimelineEvent, m: nat)
    requires S.StrictlySorted(absolute) && WeeklyTimes(base) && base != [] && S.Finalized(base) != []
    requires now <= u && WeekStart(now, offset) + base[0].time <= u
    requires later in WeeklyTimeline(base, now, weeks, offset) && u < later.time
    ensures WeeklyAt(Merged(absolute, S.Finalized(base), now, weeks, offset), u, m) <==>
              m in Rule(base, u, offset).block
  {
    hide ConvertUnixTimeToWeekly, S.Finalized, Merged, Rule, Occurs, Listed, Ordered, Agree;
    var events := Merged(absolute, S.Finalized(base), now, weeks, offset);
    MergedAgrees(absolute, base, now, weeks, offset, m);
    RuleIsExpanded(base, now, weeks, offset, u, later);
    var rule := Rule(base, u, offset);
    var e := TimelineEvent(WeekStart(u, offset) + rule.time, rule.block, false);
    SameWeeklyEvents(absolute, S.Finalized(base), now, weeks, offset, e);
    var i := WeeklyRepeats(base, u, offset);
    forall f | f in events && !f.isAbsolute && f.time <= u
      ensures f.time <= e.time
    {
      var j := ExpandedIsOccurrence(absolute, base, now, weeks, offset, f);
    }
    LatestDecides(events, e, u, m);
  }

  /** After u there is a time at which neither schedule lists the MAC. */
  ghost predicate Released(events: seq<TimelineEvent>, u: int, m: nat) {
    exists v :: v > u && !UnionAt(events, v, m)
  }

  /** If nothing is lost a MAC is in a period at u exactly if a schedule lists it at u and it is released later. */
  lemma CoveredIsReleased(events: seq<TimelineEvent>, u: int, m: nat, now: int)
    requires Ordered(events) && Agree(events, m) && now <= u && forall t :: !Lossy(events, t, m)
    ensures Covered(Build(events, m, now), u) <==> UnionAt(events, u, m) && Released(events, u, m)
  {
    hide Ordered, Agree, Lossy, UnionAt, Build, Covered;
    LosslessIsExact(events, m, now);
    if UnionAt(events, u, m) && Released(events, u, m) {
      var last :| last > u && !UnionAt(events, last, m);
      var v := RunCloser(events, u, last, m);
    }
  }

  /**
   Between two absolute events the two sides differ on purpose: the timeline shows the union of the
   schedules.  If no tie loses a run, they say the same of a MAC at any second exactly if the
   absolute event lists it and it is released later, or omits it and the weekly list does not hold
   it or never releases it.
   */
  lemma DifferBetweenAbsolutes(absolute: seq<S.Event>, base: seq<S.Event>, now: int, weeks: nat, offset: int,
                               i: nat, u: int, m: nat)
    requires S.StrictlySorted(absolute) && WeeklyTimes(base) && now <= u
    requires i + 1 < |absolute| && absolute[i].time <= u < absolute[i + 1].time &&
                absolute[i].time <= now + weeks * WEEK
    requires forall t :: !Lossy(Merged(absolute, S.Finalized(base), now, weeks, offset), t, m)
    ensures S.Choose(absolute, S.Finalized(base), u, offset) == S.FromAbsolute(absolute[i])
    ensures var events, listed := Merged(absolute, S.Finalized(base), now, weeks, offset), m in absolute[i].block;
            var ends := Released(events, u, m) && !AlwaysListed(base, m);
            (Covered(PeriodsOf(absolute, S.Finalized(base), m, now, weeks, offset), u) <==> listed) <==>
              if listed then ends else !(WeeklyAt(events, u, m) && ends)
  {
    hide ConvertUnixTimeToWeekly, S.Finalized, Merged, Listed, Ordered, Agree, Lossy, Build, Released, S.Choose,
      AlwaysListed, IndefinitelyBlocked;
    SkipsAlwaysListed(base, m);
    AbsoluteDecides(absolute, S.Finalized(base), i, u, offset);
    MergedAgrees(absolute, base, now, weeks, offset, m);
    AbsoluteIsListed(absolute, S.Finalized(base), now, weeks, offset, i, u, m);
    CoveredIsReleased(Merged(absolute, S.Finalized(base), now, weeks, offset), u, m, now);
  }

  /** Before this week's first event the weekly list is empty, and after the last expanded event it stays. */
  lemma WeeklyAtEnds(absolute: seq<S.Event>, base: seq<S.Event>, now: int, weeks: nat, offset: int, u: int, m: nat)
    requires S.StrictlySorted(absolute) && WeeklyTimes(base) && base != []
    ensures u < WeekStart(now, offset) + base[0].time ==>
              !WeeklyAt(Merged(absolute, S.Finalized(base), now, weeks, offset), u, m)
    ensures forall e :: IsLatest(Merged(absolute, S.Finalized(base), now, weeks, offset), e, u) && !e.isAbsolute ==>
              (WeeklyAt(Merged(absolute, S.Finalized(base), now, weeks, offset), u, m) <==> Has(e, m))
  {
    hide ConvertUnixTimeToWeekly, S.Finalized, Merged, Listed, Ordered, Agree, Has, IsLatest;
    var events := Merged(absolute, S.Finalized(base), now, weeks, offset);
    MergedAgrees(absolute, base, now, weeks, offset, m);
    forall e | IsLatest(events, e, u) && !e.isAbsolute
      ensures WeeklyAt(events, u, m) <==> Has(e, m)
    {
      LatestDecides(events, e, u, m);
    }
    if u < WeekStart(now, offset) + base[0].time {
      forall j | 0 <= j < |events| && events[j].isAbsolute == false
        ensures events[j].time > u
      {
        SameWeeklyEvents(absolute, S.Finalized(base), now, weeks, offset, events[j]);
        NothingBeforeFirst(base, now, weeks, offset, events[j]);
      }
      ListedByNone(events, |events|, false, u, m);
    }
  }
}
