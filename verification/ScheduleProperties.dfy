/** What the lists and lookups of src/schedule.c amount to. */
module ScheduleProperties {
  import opened Schedule
  import opened Time

  // ---------- Building the lists ----------

  lemma InsertKeepsOrder(s: seq<Event>, e: Event)
    requires Sorted(s)
    ensures Sorted(Inserted(s, e))
    ensures multiset(Inserted(s, e)) == multiset(s) + (if Refused(s, e.time) then multiset{} else multiset{e})
  {
    hide Rank;
  }

  /** A list without repeated times stays so exactly if the new time is not that of a later event. */
  lemma DuplicateCheck(s: seq<Event>, e: Event)
    requires StrictlySorted(s)
    ensures StrictlySorted(Inserted(s, e)) <==> forall i :: 1 <= i < |s| ==> s[i].time != e.time
  {
    var k := Rank(s, e.time);
    if !Refused(s, e.time) {
      var r := Inserted(s, e);
      if k < |s| && s[k].time == e.time {
        assert r[k] == e && r[k + 1] == s[k];
      }
    }
  }

  /** A repeated time that is not the head's is accepted: the check of the source misses it. */
  lemma DuplicateAccepted()
    ensures var s := [Event(1, []), Event(5, [])];
            !Refused(s, 5) && Inserted(s, Event(5, [0])) == [Event(1, []), Event(5, [0]), Event(5, [])]
  {
    RankIs([Event(1, []), Event(5, [])], 1, 5);
  }

  // ---------- The endless weekly repetition ----------

  ghost predicate WeeklyTimes(base: seq<Event>) {
    StrictlySorted(base) && forall i :: 0 <= i < |base| ==> 0 <= base[i].time < WEEK
  }

  lemma FinalizedAddsLastWeek(base: seq<Event>)
    requires WeeklyTimes(base) && base != []
    ensures var last := base[|base| - 1];
            Finalized(base) == if base[0].time == 0 then base else [Event(last.time - WEEK, last.block)] + base
    ensures StrictlySorted(Finalized(base)) && Finalized(base)[0].time <= 0
    ensures Finalized(Finalized(base)) == Finalized(base)
  {
    if base[0].time > 0 {
      RankIs(base, 0, base[|base| - 1].time - WEEK);
    }
  }

  /** The weekly event in force at time u. */
  ghost function Rule(base: seq<Event>, u: int, offset: int): Event
    requires base != [] && Finalized(base) != []
  {
    var weekly := Finalized(base);
    weekly[Scan(weekly, 0, ConvertUnixTimeToWeekly(u, offset))]
  }

  /** Event i of the weekly list happens at time y: in every week, at its weekly time. */
  ghost predicate Occurs(base: seq<Event>, i: nat, y: int, offset: int)
    requires i < |base|
  {
    ConvertUnixTimeToWeekly(y, offset) == base[i].time
  }

  /** The rule in force at u is the latest occurrence at or before u. */
  lemma WeeklyRepeats(base: seq<Event>, u: int, offset: int) returns (i: nat)
    requires WeeklyTimes(base) && base != []
    ensures Finalized(base) != [] && i < |base|
    ensures var x := WeekStart(u, offset) + Rule(base, u, offset).time;
            && x <= u && Occurs(base, i, x, offset)
            && Rule(base, u, offset).block == base[i].block
            && forall y, j: nat :: x < y <= u && j < |base| ==> !Occurs(base, j, y, offset)
  {
    hide ConvertUnixTimeToWeekly, Finalized, Scan;
    FinalizedAddsLastWeek(base);
    var weekly := Finalized(base);
    var w := ConvertUnixTimeToWeekly(u, offset);
    WeeksAreAligned(u, u, offset);
    var k := Scan(weekly, 0, w);
    var rule := weekly[k];
    var x := WeekStart(u, offset) + rule.time;
    i := if rule.time < 0 then |base| - 1 else if weekly == base then k else k - 1;
    WeeksAreAligned(u, x, offset);
    if rule.time < 0 {
      NextWeek(u, -1, offset);
      WeeksAreAligned(u - WEEK, x, offset);
    }
    forall y, j: nat | x < y <= u && j < |base|
      ensures !Occurs(base, j, y, offset)
    {
      NothingBetween(base, u, y, j, offset);
    }
  }

  lemma NothingBetween(base: seq<Event>, u: int, y: int, j: nat, offset: int)
    requires WeeklyTimes(base) && j < |base| && Finalized(base) != []
    requires WeekStart(u, offset) + Rule(base, u, offset).time < y <= u
    ensures !Occurs(base, j, y, offset)
  {
    hide ConvertUnixTimeToWeekly, Finalized, Scan;
    FinalizedAddsLastWeek(base);
    var weekly := Finalized(base);
    var k := Scan(weekly, 0, ConvertUnixTimeToWeekly(u, offset));
    WeeksAreAligned(u, y, offset);
    if y >= WeekStart(u, offset) {
      var jj := if weekly == base then j else j + 1;
      assert jj <= k ==> weekly[jj].time <= weekly[k].time;
      assert jj > k ==> weekly[jj].time >= weekly[k + 1].time;
    } else {
      NextWeek(u, -1, offset);
      WeeksAreAligned(u - WEEK, y, offset);
      assert weekly[k].time == base[|base| - 1].time - WEEK;
    }
  }

  // ---------- Sleeping until the next event ----------

  lemma {:induction false} LeastAfterIsLeast(s: seq<Event>, w: int, weekStart: int)
    ensures var least := LeastAfter(s, w, weekStart);
            && (forall i :: 0 <= i < |s| && s[i].time > w ==> least <= weekStart + s[i].time)
            && (least == INT_MAX || exists i :: 0 <= i < |s| && s[i].time > w && least == weekStart + s[i].time)
  {
    if s != [] {
      LeastAfterIsLeast(s[..|s| - 1], w, weekStart);
    }
  }

  lemma {:induction false} FirstPositiveIsFirst(s: seq<Event>)
    ensures var first := FirstPositive(s);
            && (first == None <==> forall i :: 0 <= i < |s| ==> s[i].time <= 0)
            && (first.Some? ==> exists i :: 0 <= i < |s| && 0 < s[i].time == first.value &&
                                            forall j :: 0 <= j < i ==> s[j].time <= 0)
  {
    if s != [] {
      FirstPositiveIsFirst(s[..|s| - 1]);
    }
  }

  ghost function BlockList(c: Choice): Option<seq<nat>> {
    if c.Nothing? then None else Some(c.event.block)
  }

  /** Looking at t and then not before until misses no change. */
  ghost predicate Steady(absolute: seq<Event>, weekly: seq<Event>, t: int, until: int, offset: int) {
    && t < until
    && forall x :: t <= x < until ==>
         BlockList(Choose(absolute, weekly, x, offset)) == BlockList(Choose(absolute, weekly, t, offset))
  }

  /** With no absolute events, in weeks that end by INT_MAX. */
  ghost predicate NeverOversleeps(base: seq<Event>, offset: int) {
    forall t :: WeekStart(t, offset) + WEEK <= INT_MAX ==>
      Steady([], Finalized(base), t, NextUnixtime([], Finalized(base), t, offset), offset)
  }

  /** With an absolute event ahead the wake-up is the next one, whatever the weekly events are. */
  lemma NextAbsoluteWake(absolute: seq<Event>, weekly: seq<Event>, u: int, offset: int, i: nat)
    requires Sorted(absolute) && i < |absolute| && IsAhead(absolute[i], u)
    requires i > 0 ==> absolute[i - 1].time <= u
    ensures NextUnixtime(absolute, weekly, u, offset) == absolute[i].time
  {
    FirstAfterIsNext(absolute, u);
  }

  /** Without one and without a positive weekly time there is nothing to wake for. */
  lemma NothingToWakeFor(absolute: seq<Event>, weekly: seq<Event>, u: int, offset: int)
    requires forall i :: 0 <= i < |absolute| ==> !IsAhead(absolute[i], u)
    requires forall i :: 0 <= i < |weekly| ==> weekly[i].time <= 0
    ensures NextUnixtime(absolute, weekly, u, offset) == INT_MAX
  {
    hide ConvertUnixTimeToWeekly, LeastAfter, FirstPositive;
    FirstAfterIsNext(absolute, u);
    FirstPositiveIsFirst(weekly);
  }

  predicate IsAhead(e: Event, t: int) {
    t < e.time < INT_MAX
  }

  lemma {:induction false} FirstAfterIsNext(s: seq<Event>, t: int)
    ensures var next := FirstAfter(s, t);
            && (next.Some? ==> exists i :: 0 <= i < |s| && IsAhead(s[i], t) && s[i].time == next.value &&
                                           forall j :: 0 <= j < i ==> !IsAhead(s[j], t))
            && (next == None ==> forall i :: 0 <= i < |s| ==> !IsAhead(s[i], t))
  {
    if s != [] && !IsAhead(s[0], t) {
      FirstAfterIsNext(s[1..], t);
      if FirstAfter(s, t).Some? {
        var i :| 0 <= i < |s[1..]| && IsAhead(s[1..][i], t) && s[1..][i].time == FirstAfter(s, t).value &&
                 forall j :: 0 <= j < i ==> !IsAhead(s[1..][j], t);
        assert s[i + 1].time == FirstAfter(s, t).value;
        assert forall j :: 1 <= j < i + 1 ==> s[j] == s[1..][j - 1];
      }
      assert forall j :: 1 <= j < |s| ==> s[j] == s[1..][j - 1];
    }
  }

  /** The weekly rule at t, and the same rule at every later time of the week before its successor. */
  lemma SameRule(weekly: seq<Event>, t: int, x: int, offset: int)
    requires StrictlySorted(weekly) && weekly != []
    requires t <= x && WeekStart(t, offset) == WeekStart(x, offset)
    requires var k := Scan(weekly, 0, ConvertUnixTimeToWeekly(t, offset));
             k + 1 < |weekly| ==> x < WeekStart(t, offset) + weekly[k + 1].time
    ensures Scan(weekly, 0, ConvertUnixTimeToWeekly(t, offset)) == Scan(weekly, 0, ConvertUnixTimeToWeekly(x, offset))
  {
    hide ConvertUnixTimeToWeekly, Scan;
  }

  lemma LeastIsSuccessor(weekly: seq<Event>, w: int, weekStart: int)
    requires StrictlySorted(weekly) && weekly != [] && weekly[0].time <= w
    requires weekStart + weekly[|weekly| - 1].time < INT_MAX
    ensures var k := Scan(weekly, 0, w);
            LeastAfter(weekly, w, weekStart) == if k + 1 < |weekly| then weekStart + weekly[k + 1].time else INT_MAX
  {
    hide Scan, LeastAfter;
    LeastAfterIsLeast(weekly, w, weekStart);
    var k := Scan(weekly, 0, w);
    assert forall i :: 0 <= i < |weekly| && weekly[i].time > w ==> i > k;
  }

  /** The wake-up time: the next event of this week or, after the last, the first positive one of the next. */
  lemma NextWeeklyWake(base: seq<Event>, t: int, offset: int)
    requires WeeklyTimes(base) && base != [] && Finalized(base) != []
    requires WeekStart(t, offset) + WEEK <= INT_MAX
    ensures var weekly, start := Finalized(base), WeekStart(t, offset);
            var k := Scan(weekly, 0, ConvertUnixTimeToWeekly(t, offset));
            var first := if base[0].time > 0 then 0 else 1;
            NextUnixtime([], weekly, t, offset) ==
              if k + 1 < |weekly| then start + weekly[k + 1].time
              else if first < |base| then start + base[first].time + WEEK
              else INT_MAX
  {
    hide ConvertUnixTimeToWeekly, Finalized, Scan, LeastAfter, FirstPositive;
    FinalizedAddsLastWeek(base);
    WeeksAreAligned(t, t, offset);
    var weekly := Finalized(base);
    var w := ConvertUnixTimeToWeekly(t, offset);
    var k := Scan(weekly, 0, w);
    LeastIsSuccessor(weekly, w, t - w);
    FirstPositiveIsFirst(weekly);
    assert weekly[|weekly| - 1] == base[|base| - 1];
    assert |weekly| > 1 ==> weekly[1] == base[if base[0].time > 0 then 0 else 1];
  }

  /** In the next week, before its first positive event, the list's first event is the rule. */
  lemma RuleInNextWeek(base: seq<Event>, t: int, x: int, offset: int)
    requires WeeklyTimes(base) && base != [] && |Finalized(base)| > 1
    requires WeekStart(t, offset) + WEEK <= x < WeekStart(t, offset) + WEEK + Finalized(base)[1].time
    ensures Rule(base, x, offset) == Finalized(base)[0]
  {
    hide ConvertUnixTimeToWeekly, Finalized, Scan;
    FinalizedAddsLastWeek(base);
    NextWeek(t, 1, offset);
    WeeksAreAligned(t + WEEK, x, offset);
    assert Finalized(base)[1] == base[if base[0].time > 0 then 0 else 1];
  }

  lemma SteadyUntilWake(base: seq<Event>, t: int, x: int, offset: int)
    requires WeeklyTimes(base) && base != [] && Finalized(base) != []
    requires WeekStart(t, offset) + WEEK <= INT_MAX
    requires base[0].time > 0 || base[0].block == base[|base| - 1].block
    requires t <= x < NextUnixtime([], Finalized(base), t, offset)
    ensures Rule(base, t, offset).block == Rule(base, x, offset).block
  {
    hide ConvertUnixTimeToWeekly, Finalized, Scan, NextUnixtime;
    FinalizedAddsLastWeek(base);
    NextWeeklyWake(base, t, offset);
    WeeksAreAligned(t, t, offset);
    WeeksAreAligned(t, x, offset);
    var weekly := Finalized(base);
    var w := ConvertUnixTimeToWeekly(t, offset);
    assert weekly[|weekly| - 1] == base[|base| - 1];
    if WeekStart(t, offset) == WeekStart(x, offset) {
      SameRule(weekly, t, x, offset);
    } else if |weekly| > 1 {
      assert weekly[1] == base[if base[0].time > 0 then 0 else 1];
      RuleInNextWeek(base, t, x, offset);
      assert Rule(base, t, offset) == weekly[|weekly| - 1];
    }
  }

  /**
   The scheduler wakes for every change of a weekly schedule exactly when either no event is at
   Sunday 00:00:00 or that event blocks what the last one of the week does: an event at time 0
   is never waited for.
   */
  lemma WakesAreOnTime(base: seq<Event>, offset: int)
    requires WeeklyTimes(base) && base != []
    ensures NeverOversleeps(base, offset) <==> base[0].time > 0 || base[0].block == base[|base| - 1].block
  {
    FinalizedAddsLastWeek(base);
    var weekly := Finalized(base);
    if base[0].time > 0 || base[0].block == base[|base| - 1].block {
      forall t | WeekStart(t, offset) + WEEK <= INT_MAX
        ensures Steady([], weekly, t, NextUnixtime([], weekly, t, offset), offset)
      {
        WakesOnTimeAt(base, t, offset);
      }
    } else {
      OversleepsMidnight(base, offset);
    }
  }

  lemma WakesOnTimeAt(base: seq<Event>, t: int, offset: int)
    requires WeeklyTimes(base) && base != []
    requires WeekStart(t, offset) + WEEK <= INT_MAX
    requires base[0].time > 0 || base[0].block == base[|base| - 1].block
    ensures Steady([], Finalized(base), t, NextUnixtime([], Finalized(base), t, offset), offset)
  {
    hide ConvertUnixTimeToWeekly, Finalized, Scan, NextUnixtime;
    FinalizedAddsLastWeek(base);
    NextWeeklyWake(base, t, offset);
    WeeksAreAligned(t, t, offset);
    forall x | t <= x < NextUnixtime([], Finalized(base), t, offset)
      ensures BlockList(Choose([], Finalized(base), x, offset)) == BlockList(Choose([], Finalized(base), t, offset))
    {
      SteadyUntilWake(base, t, x, offset);
    }
  }

  lemma OversleepsMidnight(base: seq<Event>, offset: int)
    requires WeeklyTimes(base) && base != []
    requires base[0].time == 0 && base[0].block != base[|base| - 1].block
    ensures !NeverOversleeps(base, offset)
  {
    hide ConvertUnixTimeToWeekly, Finalized, Scan, NextUnixtime;
    FinalizedAddsLastWeek(base);
    var last := base[|base| - 1];
    var t := WeekStart(0, offset) + last.time;
    WeeksAreAligned(0, 0, offset);
    WeeksAreAligned(0, t, offset);
    NextWeek(t, 1, offset);
    var midnight := WeekStart(t, offset) + WEEK;
    WeeksAreAligned(t + WEEK, midnight, offset);
    NextWeeklyWake(base, t, offset);
    assert Rule(base, t, offset) == last;
    assert Rule(base, midnight, offset) == base[0];
    assert BlockList(Choose([], base, midnight, offset)) != BlockList(Choose([], base, t, offset));
    assert !Steady([], base, t, NextUnixtime([], base, t, offset), offset);
  }

  // ---------- Outside the absolute schedule ----------

  /**
   The choice that the source's comments describe for times before the first or after the last
   absolute event: the most recent event decides, as long as it is in the past.
   */
  ghost function MostRecent(last: Event, rule: Event, u: int, offset: int): Choice {
    if WeekStart(u, offset) + rule.time < last.time <= u then FromAbsolute(last) else FromWeekly(rule)
  }

  /**
   The source compares week-relative times.  That is right whenever the absolute event lies in
   the local week of u; for an event of any other week, past or future, it is right exactly if
   the event's time of the week is not between the weekly rule's and now, and it is not an event
   of the end of last week, later than the last weekly one.
   */
  lemma TailIsMostRecent(absolute: seq<Event>, base: seq<Event>, u: int, offset: int)
    requires Sorted(absolute) && absolute != [] && WeeklyTimes(base) && base != [] && Finalized(base) != []
    requires var a := Scan(absolute, 0, u); a + 1 == |absolute| || u < absolute[0].time
    ensures var last, rule := absolute[Scan(absolute, 0, u)], Rule(base, u, offset);
            var w, l := ConvertUnixTimeToWeekly(u, offset), ConvertUnixTimeToWeekly(last.time, offset);
            Choose(absolute, Finalized(base), u, offset) == MostRecent(last, rule, u, offset) <==>
              || WeekStart(last.time, offset) == WeekStart(u, offset)
              || (&& !(rule.time < l <= w)
                  && !(WeekStart(last.time, offset) == WeekStart(u, offset) - WEEK && rule.time + WEEK < l))
  {
    hide ConvertUnixTimeToWeekly, Finalized, Scan;
    FinalizedAddsLastWeek(base);
    var last, rule := absolute[Scan(absolute, 0, u)], Rule(base, u, offset);
    WeeksAreAligned(last.time, u, offset);
    WeeksAreAligned(u, u, offset);
    if rule.time < 0 {
      assert Finalized(base)[1] == base[0];
    }
    CompareWeeks(WeekStart(u, offset), ConvertUnixTimeToWeekly(u, offset),
                 WeekStart(last.time, offset), ConvertUnixTimeToWeekly(last.time, offset), rule.time);
    assert Choose(absolute, Finalized(base), u, offset) ==
      if rule.time < ConvertUnixTimeToWeekly(last.time, offset) <= ConvertUnixTimeToWeekly(u, offset)
      then FromAbsolute(last) else FromWeekly(rule);
  }

  /** Comparing two times of the week p and l instead of the instants they stand for. */
  lemma CompareWeeks(weekOfU: int, w: int, weekOfL: int, l: int, p: int)
    requires (weekOfU - weekOfL) % WEEK == 0
    requires 0 <= w < WEEK && 0 <= l < WEEK && -WEEK <= p <= w && (p < 0 ==> w < p + WEEK)
    ensures ((p < l <= w) <==> (weekOfU + p < weekOfL + l <= weekOfU + w)) <==>
              weekOfL == weekOfU || (!(p < l <= w) && !(weekOfL == weekOfU - WEEK && p + WEEK < l))
  {
    var k := (weekOfU - weekOfL) / WEEK;
    assert weekOfU - weekOfL == k * WEEK;
  }

  /** Event i is the last one at or before u. */
  ghost predicate IsLastDue(events: seq<Event>, i: nat, u: int) {
    i < |events| && events[i].time <= u && forall j :: i < j < |events| ==> u < events[j].time
  }

  /**
   Without weekly events the last absolute event at or before u decides, after the end of the list
   too, and nothing is blocked exactly if there is none yet.
   */
  lemma LatestAbsoluteDecides(absolute: seq<Event>, u: int, offset: int)
    requires Sorted(absolute)
    ensures var choice := Choose(absolute, [], u, offset);
            && (choice == Nothing <==> forall i :: 0 <= i < |absolute| ==> u < absolute[i].time)
            && (choice == Nothing || exists i: nat :: IsLastDue(absolute, i, u) && choice == FromAbsolute(absolute[i]))
  {
    hide ConvertUnixTimeToWeekly, Scan;
    if absolute != [] {
      var a := Scan(absolute, 0, u);
      assert forall j :: a < j < |absolute| ==> absolute[a + 1].time <= absolute[j].time;
      assert absolute[a].time <= u ==> IsLastDue(absolute, a, u);
    }
  }

  /** A pause that starts next Sunday at 00:03:20 already blocks this Sunday from 00:03:20 on. */
  lemma FutureAbsoluteDecidesNow()
    ensures var sunday := 3 * DAY;
            var pause := Event(sunday + WEEK + 200, [0]);
            Choose([pause, Event(sunday + WEEK + 300, [])], Finalized([Event(100, [])]), sunday + 250, 0)
              == FromAbsolute(pause)
  {
    hide Finalized;
    var base := [Event(100, [])];
    FinalizedAddsLastWeek(base);
    var now := 3 * DAY + 250;
    var pause := Event(3 * DAY + WEEK + 200, [0]);
    assert ConvertUnixTimeToWeekly(now, 0) == 250;
    assert ConvertUnixTimeToWeekly(pause.time, 0) == 200;
    assert Scan(Finalized(base), 0, 250) == 1;
    assert Scan([pause, Event(3 * DAY + WEEK + 300, [])], 0, now) == 0;
  }

  // ---------- Telling block lists apart ----------

  const MAC_LENGTH := 17

  ghost predicate Named(macs: seq<string>, block: seq<nat>) {
    block != [] && forall i :: 0 <= i < |block| ==> block[i] < |macs| && |macs[block[i]]| == MAC_LENGTH
  }

  ghost function Names(macs: seq<string>, block: seq<nat>): seq<string>
    requires Named(macs, block)
  {
    seq(|block|, i requires 0 <= i < |block| => macs[block[i]])
  }

  lemma {:induction false} JoinedLength(macs: seq<string>, block: seq<nat>)
    requires Named(macs, block)
    ensures |Joined(macs, block)| == |block| * (MAC_LENGTH + 1) - 1
  {
    if |block| > 1 {
      JoinedLength(macs, block[..|block| - 1]);
    }
  }

  /** A block list gives a string exactly if it is not empty and every index in it is known. */
  lemma TextExists(macs: seq<string>, c: Choice)
    ensures Blocked(macs, c) != None <==>
              c != Nothing && c.event.block != [] &&
                forall i :: 0 <= i < |c.event.block| ==> c.event.block[i] < |macs|
  {}

  /** MAC i of the list fills the 17 characters from 18 * i on, and a space separates it from the next. */
  lemma TextIsMacs(macs: seq<string>, c: Choice, i: nat)
    requires c != Nothing && Named(macs, c.event.block) && i < |c.event.block|
    ensures var text := Blocked(macs, c);
            && text != None && |text.value| == 18 * |c.event.block| - 1
            && text.value[18 * i..18 * i + 17] == macs[c.event.block[i]]
            && (i + 1 < |c.event.block| ==> text.value[18 * i + 17] == ' ')
  {
    JoinedLength(macs, c.event.block);
    JoinedAt(macs, c.event.block, i);
  }

  lemma {:induction false} JoinedAt(macs: seq<string>, block: seq<nat>, i: nat)
    requires Named(macs, block) && i < |block|
    ensures |Joined(macs, block)| == |block| * (MAC_LENGTH + 1) - 1
    ensures Joined(macs, block)[18 * i..18 * i + 17] == macs[block[i]]
    ensures i + 1 < |block| ==> Joined(macs, block)[18 * i + 17] == ' '
  {
    JoinedLength(macs, block);
    if |block| > 1 {
      var front, last := block[..|block| - 1], macs[block[|block| - 1]];
      JoinedLength(macs, front);
      var text, head := Joined(macs, block), Joined(macs, front);
      assert text == head + " " + last && text[..|head|] == head;
      if i < |front| {
        JoinedAt(macs, front, i);
        assert text[18 * i..18 * i + 17] == head[18 * i..18 * i + 17];
      } else {
        assert text[18 * i..] == last;
      }
    }
  }

  /**
   The scheduler compares block lists by their joined strings, even those of two schedules with
   different MAC tables: the strings are equal exactly if the same MACs are blocked in the same order.
   */
  lemma {:induction false} JoinedIsInjective(macs: seq<string>, block: seq<nat>, others: seq<string>, other: seq<nat>)
    requires Named(macs, block) && Named(others, other)
    ensures Joined(macs, block) == Joined(others, other) <==> Names(macs, block) == Names(others, other)
  {
    JoinedLength(macs, block);
    JoinedLength(others, other);
    var n := |block|;
    if |other| == n > 1 {
      var front, otherFront := block[..n - 1], other[..n - 1];
      JoinedLength(macs, front);
      JoinedIsInjective(macs, front, others, otherFront);
      SameParts(Joined(macs, front), macs[block[n - 1]], Joined(others, otherFront), others[other[n - 1]]);
      var names, otherNames := Names(macs, block), Names(others, other);
      assert names == Names(macs, front) + [macs[block[n - 1]]];
      assert otherNames == Names(others, otherFront) + [others[other[n - 1]]];
      assert Names(macs, front) == names[..n - 1] && Names(others, otherFront) == otherNames[..n - 1];
      assert names[n - 1] == macs[block[n - 1]] && otherNames[n - 1] == others[other[n - 1]];
    } else {
      assert |Names(macs, block)| == n && |Names(others, other)| == |other|;
      assert Names(macs, block)[0] == macs[block[0]] && Names(others, other)[0] == others[other[0]];
      assert n == 1 ==> Names(macs, block) == [macs[block[0]]];
      assert |other| == 1 ==> Names(others, other) == [others[other[0]]];
    }
  }

  lemma SameParts(a: string, x: string, b: string, y: string)
    requires |x| == |y|
    ensures a + " " + x == b + " " + y <==> a == b && x == y
  {
    var s, t := a + " " + x, b + " " + y;
    if s == t {
      assert s[..|a|] == a && t[..|b|] == b;
      assert s[|a| + 1..] == x && t[|b| + 1..] == y;
    }
  }
}
