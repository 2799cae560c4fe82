/**
 Sleeping until get_next_unixtime (src/schedule.c) when there are absolute events.  Between two of
 them nothing is missed.  Before the first and after the last the source compares that event with
 the weekly rule by times of the week only, so it comes into force again every week, and the
 scheduler does not wake for that.
 */
module Oversleeping {
  import opened Schedule
  import opened ScheduleProperties
  import opened Time

  // ---------- Between absolute events ----------

  /** Between two consecutive absolute events the earlier one decides, and the later one is the wake-up. */
  lemma SteadyBetweenAbsolutes(absolute: seq<Event>, weekly: seq<Event>, i: nat, t: int, offset: int)
    requires Sorted(absolute) && i + 1 < |absolute|
    requires absolute[i].time <= t < absolute[i + 1].time < INT_MAX
    ensures NextUnixtime(absolute, weekly, t, offset) == absolute[i + 1].time
    ensures Choose(absolute, weekly, t, offset) == FromAbsolute(absolute[i])
    ensures Steady(absolute, weekly, t, NextUnixtime(absolute, weekly, t, offset), offset)
  {
    hide ConvertUnixTimeToWeekly, Scan;
    FirstAfterIsSuccessor(absolute, i, t);
    forall x | t <= x < absolute[i + 1].time
      ensures Choose(absolute, weekly, x, offset) == FromAbsolute(absolute[i])
    {
      assert Scan(absolute, 0, x) == i;
    }
  }

  lemma {:induction false} FirstAfterIsSuccessor(s: seq<Event>, i: nat, t: int)
    requires Sorted(s) && i + 1 < |s| && s[i].time <= t < s[i + 1].time < INT_MAX
    ensures FirstAfter(s, t) == Some(s[i + 1].time)
  {
    if i > 0 {
      FirstAfterIsSuccessor(s[1..], i - 1, t);
    } else {
      assert s[1..][0] == s[1];
    }
  }

  lemma {:induction false} NoneAfter(s: seq<Event>, t: int)
    requires forall i :: 0 <= i < |s| ==> s[i].time <= t
    ensures FirstAfter(s, t) == None
  {
    if s != [] {
      NoneAfter(s[1..], t);
    }
  }

  // ---------- Outside them ----------

  /** The choice before the first or after the last absolute event, which is the pause. */
  ghost function Outside(pause: Event, base: seq<Event>, u: int, offset: int): (c: Choice)
    requires base != [] && Finalized(base) != []
    ensures !c.Nothing?
  {
    var rule := Rule(base, u, offset);
    if rule.time < ConvertUnixTimeToWeekly(pause.time, offset) <= ConvertUnixTimeToWeekly(u, offset)
    then FromAbsolute(pause) else FromWeekly(rule)
  }

  lemma ChooseOutside(absolute: seq<Event>, base: seq<Event>, u: int, offset: int)
    requires Sorted(absolute) && absolute != [] && base != [] && Finalized(base) != []
    requires u < absolute[0].time || absolute[|absolute| - 1].time <= u
    ensures var pause := absolute[if u < absolute[0].time then 0 else |absolute| - 1];
            Choose(absolute, Finalized(base), u, offset) == Outside(pause, base, u, offset)
  {
    hide ConvertUnixTimeToWeekly, Finalized;
    assert Scan(absolute, 0, u) == if u < absolute[0].time then 0 else |absolute| - 1;
  }

  /** The first instant after t at this time of the week. */
  function NextAt(t: int, w: int, offset: int): int {
    WeekStart(t, offset) + w + if w <= ConvertUnixTimeToWeekly(t, offset) then WEEK else 0
  }

  lemma NextAtIsNext(t: int, w: int, x: int, offset: int)
    requires 0 <= w < WEEK
    ensures t < NextAt(t, w, offset) && ConvertUnixTimeToWeekly(NextAt(t, w, offset), offset) == w
    ensures t < x && ConvertUnixTimeToWeekly(x, offset) == w ==> NextAt(t, w, offset) <= x
  {
    hide ConvertUnixTimeToWeekly;
    WeeksAreAligned(t, t, offset);
    WeeksAreAligned(t, NextAt(t, w, offset), offset);
    NextWeek(t, 1, offset);
    WeeksAreAligned(t + WEEK, NextAt(t, w, offset), offset);
    if t < x && ConvertUnixTimeToWeekly(x, offset) == w {
      var week := WeekNumber(t, x, offset);
    }
  }

  ghost predicate NoneAt(base: seq<Event>, w: int) {
    forall j :: 0 <= j < |base| ==> base[j].time != w
  }

  /**
   Before until nothing happens that changes a block list from block: a weekly event, the pause
   coming into force at its time of the week, or its end at midnight, where last week's rule returns.
   */
  ghost predicate Undisturbed(pause: Event, base: seq<Event>, t: int, until: int, block: seq<nat>, offset: int)
    requires base != []
  {
    var l, last := ConvertUnixTimeToWeekly(pause.time, offset), base[|base| - 1];
    && (forall j :: 0 <= j < |base| && NextAt(t, base[j].time, offset) < until ==> base[j].block == block)
    && (NoneAt(base, l) && NextAt(t, l, offset) < until ==> pause.block == block)
    && (last.time < l && base[0].time > 0 && NextAt(t, 0, offset) < until ==> last.block == block)
  }

  // ---------- What decides at the instants that matter ----------

  lemma RuleAtEvent(base: seq<Event>, j: nat, u: int, offset: int)
    requires WeeklyTimes(base) && j < |base| && Finalized(base) != []
    requires ConvertUnixTimeToWeekly(u, offset) == base[j].time
    ensures Rule(base, u, offset) == base[j]
  {
    hide ConvertUnixTimeToWeekly, Finalized, Scan;
    FinalizedAddsLastWeek(base);
    var weekly := Finalized(base);
    var jj := if weekly == base then j else j + 1;
    assert weekly[jj] == base[j];
  }

  /** Before the first event of its week the last event of the week before is the rule. */
  lemma RuleBeforeFirst(base: seq<Event>, u: int, offset: int)
    requires WeeklyTimes(base) && base != [] && Finalized(base) != []
    requires 0 <= ConvertUnixTimeToWeekly(u, offset) < base[0].time
    ensures var last := base[|base| - 1]; Rule(base, u, offset) == Event(last.time - WEEK, last.block)
  {
    hide ConvertUnixTimeToWeekly, Finalized, Scan;
    FinalizedAddsLastWeek(base);
    assert Finalized(base)[1] == base[0];
  }

  lemma RuleBeforeMidnight(base: seq<Event>, u: int, offset: int)
    requires WeeklyTimes(base) && base != [] && Finalized(base) != []
    requires ConvertUnixTimeToWeekly(u, offset) == WEEK - 1
    ensures Rule(base, u, offset) == base[|base| - 1]
  {
    hide ConvertUnixTimeToWeekly, Finalized, Scan;
    FinalizedAddsLastWeek(base);
    var weekly := Finalized(base);
    assert weekly[|weekly| - 1] == base[|base| - 1];
  }

  lemma {:induction false} ScanStays(s: seq<Event>, i: nat, w: int)
    requires i < |s| && forall j :: 0 <= j < |s| ==> s[j].time != w + 1
    ensures Scan(s, i, w + 1) == Scan(s, i, w)
    decreases |s| - i
  {
    if i + 1 < |s| && s[i + 1].time <= w {
      ScanStays(s, i + 1, w);
    }
  }

  lemma NoneAtFinalized(base: seq<Event>, w: int)
    requires WeeklyTimes(base) && base != [] && NoneAt(base, w) && w >= 0
    ensures NoneAt(Finalized(base), w)
  {
    hide Finalized;
    FinalizedAddsLastWeek(base);
  }

  /** From one second to the next within a week, with no weekly event there, the rule stays. */
  lemma RuleStays(base: seq<Event>, u: int, offset: int)
    requires WeeklyTimes(base) && base != [] && Finalized(base) != []
    requires ConvertUnixTimeToWeekly(u + 1, offset) == ConvertUnixTimeToWeekly(u, offset) + 1
    requires NoneAt(base, ConvertUnixTimeToWeekly(u + 1, offset))
    ensures Rule(base, u + 1, offset) == Rule(base, u, offset)
  {
    hide ConvertUnixTimeToWeekly, Finalized, Scan, WeeklyTimes;
    WeeksAreAligned(u, u, offset);
    NoneAtFinalized(base, ConvertUnixTimeToWeekly(u + 1, offset));
    ScanStays(Finalized(base), 0, ConvertUnixTimeToWeekly(u, offset));
  }

  lemma Tick(u: int, offset: int)
    ensures var w := ConvertUnixTimeToWeekly(u, offset);
            0 <= w < WEEK && ConvertUnixTimeToWeekly(u + 1, offset) == if w == WEEK - 1 then 0 else w + 1
  {
    hide ConvertUnixTimeToWeekly;
    WeeksAreAligned(u, u + 1, offset);
    WeeksAreAligned(u, u, offset);
    NextWeek(u, 1, offset);
    WeeksAreAligned(u + WEEK, u + 1, offset);
  }

  lemma OutsideAtEvent(pause: Event, base: seq<Event>, j: nat, u: int, offset: int)
    requires WeeklyTimes(base) && j < |base| && Finalized(base) != []
    requires ConvertUnixTimeToWeekly(u, offset) == base[j].time
    ensures Outside(pause, base, u, offset) == FromWeekly(base[j])
  {
    hide ConvertUnixTimeToWeekly, Finalized, Rule;
    RuleAtEvent(base, j, u, offset);
  }

  lemma OutsideAtPause(pause: Event, base: seq<Event>, u: int, offset: int)
    requires WeeklyTimes(base) && base != [] && Finalized(base) != []
    requires ConvertUnixTimeToWeekly(u, offset) == ConvertUnixTimeToWeekly(pause.time, offset)
    requires NoneAt(base, ConvertUnixTimeToWeekly(u, offset))
    ensures Outside(pause, base, u, offset) == FromAbsolute(pause)
  {
    hide ConvertUnixTimeToWeekly, Finalized, Scan;
    FinalizedAddsLastWeek(base);
    WeeksAreAligned(u, u, offset);
    var weekly := Finalized(base);
    var k := Scan(weekly, 0, ConvertUnixTimeToWeekly(u, offset));
    assert weekly[k].time >= 0 ==> weekly[k] == base[if weekly == base then k else k - 1];
  }

  lemma OutsideAtMidnight(pause: Event, base: seq<Event>, u: int, offset: int)
    requires WeeklyTimes(base) && base != [] && Finalized(base) != []
    requires ConvertUnixTimeToWeekly(u, offset) == 0 && base[0].time > 0
    requires base[|base| - 1].time < ConvertUnixTimeToWeekly(pause.time, offset)
    ensures Outside(pause, base, u, offset).event.block == base[|base| - 1].block
  {
    hide ConvertUnixTimeToWeekly, Finalized, Rule;
    RuleBeforeFirst(base, u, offset);
  }

  /** Second by second: the block list stays as long as none of the three things happens. */
  lemma StaysAtTick(pause: Event, base: seq<Event>, u: int, block: seq<nat>, offset: int)
    requires WeeklyTimes(base) && base != [] && Finalized(base) != []
    requires Outside(pause, base, u, offset).event.block == block
    requires var w, l, last := ConvertUnixTimeToWeekly(u + 1, offset), ConvertUnixTimeToWeekly(pause.time, offset),
                base[|base| - 1];
             && (forall j :: 0 <= j < |base| && base[j].time == w ==> base[j].block == block)
             && (NoneAt(base, l) && w == l ==> pause.block == block)
             && (last.time < l && base[0].time > 0 && w == 0 ==> last.block == block)
    ensures Outside(pause, base, u + 1, offset).event.block == block
  {
    hide ConvertUnixTimeToWeekly, Finalized, Rule;
    var w, l := ConvertUnixTimeToWeekly(u + 1, offset), ConvertUnixTimeToWeekly(pause.time, offset);
    Tick(u, offset);
    WeeksAreAligned(pause.time, pause.time, offset);
    if j :| 0 <= j < |base| && base[j].time == w {
      OutsideAtEvent(pause, base, j, u + 1, offset);
    } else if w == l {
      OutsideAtPause(pause, base, u + 1, offset);
    } else if w == 0 {
      RuleBeforeMidnight(base, u, offset);
      RuleBeforeFirst(base, u + 1, offset);
    } else {
      RuleStays(base, u, offset);
    }
  }

  lemma {:induction false} UndisturbedStays(pause: Event, base: seq<Event>, t: int, until: int, x: int, offset: int)
    requires WeeklyTimes(base) && base != [] && Finalized(base) != []
    requires Undisturbed(pause, base, t, until, Outside(pause, base, t, offset).event.block, offset)
    requires t <= x < until
    ensures Outside(pause, base, x, offset).event.block == Outside(pause, base, t, offset).event.block
    decreases x - t
  {
    hide ConvertUnixTimeToWeekly, Finalized, Outside, NextAt;
    if t < x {
      UndisturbedStays(pause, base, t, until, x - 1, offset);
      var w := ConvertUnixTimeToWeekly(x, offset);
      WeeksAreAligned(x, x, offset);
      NextAtIsNext(t, w, x, offset);
      StaysAtTick(pause, base, x - 1, Outside(pause, base, t, offset).event.block, offset);
    }
  }

  /** The block list is the same at every second of [t, until) exactly if nothing disturbs it. */
  lemma OutsideIsSteady(pause: Event, base: seq<Event>, t: int, until: int, offset: int)
    requires WeeklyTimes(base) && base != [] && Finalized(base) != []
    ensures var block := Outside(pause, base, t, offset).event.block;
            (forall x :: t <= x < until ==> Outside(pause, base, x, offset).event.block == block)
              <==> Undisturbed(pause, base, t, until, block, offset)
  {
    hide ConvertUnixTimeToWeekly, Finalized, Outside, NextAt;
    var block := Outside(pause, base, t, offset).event.block;
    if Undisturbed(pause, base, t, until, block, offset) {
      forall x | t <= x < until
        ensures Outside(pause, base, x, offset).event.block == block
      {
        UndisturbedStays(pause, base, t, until, x, offset);
      }
    } else {
      DisturbanceShows(pause, base, t, until, block, offset);
    }
  }

  lemma DisturbanceShows(pause: Event, base: seq<Event>, t: int, until: int, block: seq<nat>, offset: int)
    requires WeeklyTimes(base) && base != [] && Finalized(base) != []
    requires !Undisturbed(pause, base, t, until, block, offset)
    ensures exists x :: t < x < until && Outside(pause, base, x, offset).event.block != block
  {
    hide ConvertUnixTimeToWeekly, Finalized, Outside, NextAt;
    var l := ConvertUnixTimeToWeekly(pause.time, offset);
    WeeksAreAligned(pause.time, pause.time, offset);
    if j :| 0 <= j < |base| && NextAt(t, base[j].time, offset) < until && base[j].block != block {
      NextAtIsNext(t, base[j].time, t, offset);
      OutsideAtEvent(pause, base, j, NextAt(t, base[j].time, offset), offset);
    } else if NoneAt(base, l) && NextAt(t, l, offset) < until && pause.block != block {
      NextAtIsNext(t, l, t, offset);
      OutsideAtPause(pause, base, NextAt(t, l, offset), offset);
    } else {
      NextAtIsNext(t, 0, t, offset);
      OutsideAtMidnight(pause, base, NextAt(t, 0, offset), offset);
    }
  }

  // ---------- Before the first and after the last absolute event ----------

  /**
   Before the first absolute event the scheduler sleeps until that event, however far away.  It
   misses no change exactly if nothing disturbs the block list until then.
   */
  lemma SteadyBeforeAbsolutes(absolute: seq<Event>, base: seq<Event>, t: int, offset: int)
    requires Sorted(absolute) && absolute != [] && WeeklyTimes(base) && base != [] && Finalized(base) != []
    requires t < absolute[0].time < INT_MAX
    ensures NextUnixtime(absolute, Finalized(base), t, offset) == absolute[0].time
    ensures Steady(absolute, Finalized(base), t, NextUnixtime(absolute, Finalized(base), t, offset), offset) <==>
              Undisturbed(absolute[0], base, t, absolute[0].time, Outside(absolute[0], base, t, offset).event.block,
                offset)
  {
    hide ConvertUnixTimeToWeekly, Finalized, Outside, Undisturbed, Choose;
    var pause := absolute[0];
    forall u | t <= u < pause.time
      ensures Choose(absolute, Finalized(base), u, offset) == Outside(pause, base, u, offset)
    {
      ChooseOutside(absolute, base, u, offset);
    }
    SteadyIsOutside(absolute, pause, base, t, pause.time, offset);
  }

  /**
   After the last absolute event the wake-up is that of the weekly schedule alone.  It misses no
   change exactly if nothing disturbs the block list until then.
   */
  lemma SteadyAfterAbsolutes(absolute: seq<Event>, base: seq<Event>, t: int, offset: int)
    requires Sorted(absolute) && absolute != [] && WeeklyTimes(base) && base != [] && Finalized(base) != []
    requires absolute[|absolute| - 1].time <= t && WeekStart(t, offset) + WEEK <= INT_MAX
    ensures var until, last := NextUnixtime(absolute, Finalized(base), t, offset), absolute[|absolute| - 1];
            && until == NextUnixtime([], Finalized(base), t, offset)
            && (Steady(absolute, Finalized(base), t, until, offset) <==>
                  Undisturbed(last, base, t, until, Outside(last, base, t, offset).event.block, offset))
  {
    hide ConvertUnixTimeToWeekly, Finalized, Outside, Undisturbed, Choose, Scan, LeastAfter, FirstPositive;
    var last := absolute[|absolute| - 1];
    NoneAfter(absolute, t);
    var until := NextUnixtime([], Finalized(base), t, offset);
    WeeklyWakeIsAhead(base, t, offset);
    forall u | t <= u < until
      ensures Choose(absolute, Finalized(base), u, offset) == Outside(last, base, u, offset)
    {
      ChooseOutside(absolute, base, u, offset);
    }
    SteadyIsOutside(absolute, last, base, t, until, offset);
  }

  lemma WeeklyWakeIsAhead(base: seq<Event>, t: int, offset: int)
    requires WeeklyTimes(base) && base != [] && Finalized(base) != [] && WeekStart(t, offset) + WEEK <= INT_MAX
    ensures t < NextUnixtime([], Finalized(base), t, offset)
  {
    hide ConvertUnixTimeToWeekly, Finalized, Scan, NextUnixtime;
    NextWeeklyWake(base, t, offset);
    WeeksAreAligned(t, t, offset);
  }

  lemma SteadyIsOutside(absolute: seq<Event>, pause: Event, base: seq<Event>, t: int, until: int, offset: int)
    requires WeeklyTimes(base) && base != [] && Finalized(base) != [] && t < until
    requires forall u :: t <= u < until ==>
               Choose(absolute, Finalized(base), u, offset) == Outside(pause, base, u, offset)
    ensures Steady(absolute, Finalized(base), t, until, offset) <==>
              Undisturbed(pause, base, t, until, Outside(pause, base, t, offset).event.block, offset)
  {
    hide ConvertUnixTimeToWeekly, Finalized, Outside, Undisturbed, Choose;
    OutsideIsSteady(pause, base, t, until, offset);
  }

  /** Without weekly events nothing is ever missed. */
  lemma SteadyWithoutWeekly(absolute: seq<Event>, t: int, offset: int)
    requires Sorted(absolute) && t < INT_MAX
    requires forall i :: 0 <= i < |absolute| ==> absolute[i].time < INT_MAX
    ensures Steady(absolute, [], t, NextUnixtime(absolute, [], t, offset), offset)
  {
    hide ConvertUnixTimeToWeekly, Scan;
    FirstAfterIsNext(absolute, t);
    if absolute != [] {
      var i := Scan(absolute, 0, t);
      forall x | t <= x < NextUnixtime(absolute, [], t, offset)
        ensures Scan(absolute, 0, x) == i
      {}
    }
  }

  // ---------- Where it goes wrong ----------

  /** Asleep until a pause in a week, the scheduler misses that the pause is in force this week already. */
  lemma FuturePauseOversleeps()
    ensures var sunday, base := 3 * DAY, [Event(100, [])];
            var absolute := [Event(sunday + WEEK + 300, [0]), Event(sunday + WEEK + 400, [])];
            !Steady(absolute, Finalized(base), sunday + 150,
              NextUnixtime(absolute, Finalized(base), sunday + 150, 0), 0)
  {
    hide Finalized, Outside, Choose, Steady, NextUnixtime;
    var sunday, base := 3 * DAY, [Event(100, [])];
    var absolute := [Event(sunday + WEEK + 300, [0]), Event(sunday + WEEK + 400, [])];
    AtSunday150(absolute[0], base);
    SteadyBeforeAbsolutes(absolute, base, sunday + 150, 0);
  }

  /** Asleep until a pause tonight, the scheduler misses the weekly event before it. */
  lemma WeeklyEventMissed()
    ensures var sunday, base := 3 * DAY, [Event(100, []), Event(200, [1])];
            var absolute := [Event(sunday + 300, [0]), Event(sunday + 400, [])];
            !Steady(absolute, Finalized(base), sunday + 150,
              NextUnixtime(absolute, Finalized(base), sunday + 150, 0), 0)
  {
    hide Finalized, Outside, Choose, Steady, NextUnixtime;
    var sunday, base := 3 * DAY, [Event(100, []), Event(200, [1])];
    var absolute := [Event(sunday + 300, [0]), Event(sunday + 400, [])];
    AtSunday150(absolute[0], base);
    SteadyBeforeAbsolutes(absolute, base, sunday + 150, 0);
    assert NextAt(sunday + 150, base[1].time, 0) == sunday + 200;
  }

  /** A pause of last week decides again this week, and the scheduler sleeps through its return. */
  lemma PastPauseOversleeps()
    ensures var sunday, base := 3 * DAY, [Event(100, [])];
            var absolute, t := [Event(sunday - WEEK + 300, [0])], sunday + 150;
            !Steady(absolute, Finalized(base), t, NextUnixtime(absolute, Finalized(base), t, 0), 0)
  {
    hide Finalized, Outside, Choose, Steady, NextUnixtime;
    var sunday, base := 3 * DAY, [Event(100, [])];
    var absolute, t := [Event(sunday - WEEK + 300, [0])], sunday + 150;
    AtSunday150(absolute[0], base);
    SteadyAfterAbsolutes(absolute, base, t, 0);
    NextWakeAtSunday150();
  }

  lemma NextWakeAtSunday150()
    ensures NextUnixtime([], Finalized([Event(100, [])]), 3 * DAY + 150, 0) == 3 * DAY + WEEK + 100
  {
    hide Finalized, NextUnixtime;
    var base := [Event(100, [])];
    FinalizedAddsLastWeek(base);
    assert Scan(Finalized(base), 0, 150) == 1;
    NextWeeklyWake(base, 3 * DAY + 150, 0);
  }

  lemma AtSunday150(pause: Event, base: seq<Event>)
    requires WeeklyTimes(base) && base != [] && base[0] == Event(100, []) && (|base| > 1 ==> base[1].time > 150)
    requires ConvertUnixTimeToWeekly(pause.time, 0) == 300
    ensures Finalized(base) != [] && ConvertUnixTimeToWeekly(3 * DAY + 150, 0) == 150
    ensures Outside(pause, base, 3 * DAY + 150, 0) == FromWeekly(base[0])
    ensures NextAt(3 * DAY + 150, 300, 0) == 3 * DAY + 300
  {
    hide Finalized;
    FinalizedAddsLastWeek(base);
    assert Finalized(base)[1] == base[0];
    assert Scan(Finalized(base), 0, 150) == 1;
  }
}
