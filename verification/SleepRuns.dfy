/**
 Runs of the thread as it sleeps (src/scheduler.c): the times that a pass sleeps until are early
 enough for what the runs of SchedulerRuns and EnforcementRuns ask for.
 */
module SleepRuns {
  import opened Time
  import opened ScheduleProperties
  import opened Dispatch
  import opened DispatchRoom
  import opened DispatchRuns
  import opened Scheduler
  import opened SchedulerRuns
  import opened EnforcementRuns
  import S = Schedule
  import Notifier
  import Oversleeping

  /** One pass over the schedule in force. */
  ghost function AfterPass(m: Machine, now: int): (r: Machine)
    reads if m.current == null then {} else {m.current.absolute, m.current.weekly}
    ensures r.current == m.current
  {
    hide LogOf, RowsAfter, VerdictAt, TimelineAt;
    Next(m, Wake(now, VerdictAt(m.current, now), TimelineAt(m.current, now)))
  }

  /** A thread that goes to sleep in state m still sleeps just before this time, unless something wakes it. */
  ghost predicate SleepsTo(m: Machine, now: int, until: int)
    reads if m.current == null then {} else {m.current.absolute, m.current.weekly}
  {
    exists nextReport, wake :: SleepsUntil(m, now, nextReport, wake) && until <= wake
  }

  /**
   The thread passes over the schedule in force at these times: each comes no later than the time
   that the pass before it computed, whatever wakes the thread, and up to h no other is needed.
   */
  ghost predicate InTime(m: Machine, times: seq<int>, h: int)
    reads if m.current == null then {} else {m.current.absolute, m.current.weekly}
    decreases |times|
  {
    && times != []
    && var r := AfterPass(m, times[0]);
       if |times| == 1 then times[0] < h && SleepsTo(r, times[0], h)
       else times[0] <= times[1] && SleepsTo(r, times[0], times[1]) && InTime(r, times[1..], h)
  }

  lemma {:induction false} InTimeEnds(m: Machine, times: seq<int>, h: int)
    requires InTime(m, times, h)
    ensures times != [] && forall i :: 0 <= i < |times| ==> times[0] <= times[i] < h
    decreases |times|
  {
    hide AfterPass, SleepsTo;
    if |times| > 1 {
      InTimeEnds(AfterPass(m, times[0]), times[1..], h);
      assert forall i :: 1 <= i < |times| ==> times[i] == times[1..][i - 1];
    }
  }

  // ---------- The firewall ----------

  lemma {:induction false} InTimeIsPromptFor(m: Machine, s: S.Schedule, times: seq<int>, h: int)
    requires m.current == s && InTime(m, times, h)
    requires forall i :: 0 <= i < |times| ==> SteadySchedule(s, times[i])
    ensures PromptFor(s, times, h)
    decreases |times|
  {
    hide AfterPass, SteadySchedule, NextTime, NextEvent;
    if |times| > 1 {
      InTimeIsPromptFor(AfterPass(m, times[0]), s, times[1..], h);
    }
  }

  /** So the firewall is told what a thread that never sleeps tells it, at the same seconds. */
  lemma SleepingTellsWhatPollingTells(m: Machine, s: S.Schedule, times: seq<int>, h: int)
    requires m.current == s && InTime(m, times, h)
    requires forall i :: 0 <= i < |times| ==> SteadySchedule(s, times[i])
    ensures RunFrom(m, Passes(s, times)).firewall == RunFrom(m, Passes(s, Seconds(times[0], h))).firewall
    ensures Told(s, m.blocked, times) == Told(s, m.blocked, Seconds(times[0], h))
  {
    hide RunFrom, Passes, Told, SteadySchedule, InTime, PromptFor;
    InTimeIsPromptFor(m, s, times, h);
    FirewallLogIsPolled(m, s, times, h);
  }

  /** A schedule of weekly events that are woken for on time, or of absolute events alone. */
  ghost predicate AlwaysSteady(s: S.Schedule, base: seq<S.Event>)
    reads s.absolute, s.weekly
  {
    || (&& WeeklyTimes(base) && base != [] && s.weekly.Contents() == S.Finalized(base) && s.absolute.Contents() == []
        && (base[0].time > 0 || base[0].block == base[|base| - 1].block))
    || (&& s.weekly.Contents() == [] && S.Sorted(s.absolute.Contents())
        && forall e :: e in s.absolute.Contents() ==> e.time < INT_MAX)
  }

  /** For these schedules nothing more is needed. */
  lemma SleepingEnforcesSteadySchedules(m: Machine, s: S.Schedule, base: seq<S.Event>, times: seq<int>, h: int)
    requires m.current == s && InTime(m, times, h) && AlwaysSteady(s, base)
    requires h + WEEK <= INT_MAX
    ensures RunFrom(m, Passes(s, times)).firewall == RunFrom(m, Passes(s, Seconds(times[0], h))).firewall
    ensures Told(s, m.blocked, times) == Told(s, m.blocked, Seconds(times[0], h))
  {
    hide RunFrom, Passes, Told, InTime, PromptFor, S.Finalized, Steady, ConvertUnixTimeToWeekly, S.NextUnixtime;
    InTimeEnds(m, times, h);
    forall i | 0 <= i < |times|
      ensures SteadySchedule(s, times[i])
    {
      WeeksAreAligned(times[i], times[i], s.offset);
      if s.weekly.Contents() == [] {
        Oversleeping.SteadyWithoutWeekly(s.absolute.Contents(), times[i], s.offset);
      } else {
        WakesOnTimeAt(base, times[i], s.offset);
      }
    }
    SleepingTellsWhatPollingTells(m, s, times, h);
  }

  // ---------- The notifications ----------

  /** A schedule as the decoder leaves it: distinct times, finalized, and at most 256 MACs. */
  ghost predicate WellMade(s: S.Schedule, base: seq<S.Event>)
    reads s.absolute, s.weekly
  {
    && S.StrictlySorted(s.absolute.Contents())
    && WeeklyTimes(base) && s.weekly.Contents() == S.Finalized(base)
    && |s.macs| <= 256
  }

  lemma WellMadeHasRoom(s: S.Schedule, base: seq<S.Event>, now: int)
    requires WellMade(s, base)
    ensures Roomy(TimelineAt(s, now))
  {
    hide TimelineOf, S.Finalized, Roomy;
    BuiltTimelineHasRoom(s.absolute.Contents(), base, |s.macs|, s.offset, now);
  }

  /** Passes in time over one timeline are prompt for it, and the passes after them are in time too. */
  lemma {:induction false} InTimeIsPrompt(m: Machine, s: S.Schedule, rows: seq<seq<Cell>>, createdAt: int,
                                          times: seq<int>, n: nat, h: int)
    requires InForce(m, s, rows, createdAt) && Roomy(rows) && InTime(m, times, h) && h <= INT_MAX
    requires 0 < n <= |times| && forall i :: 0 <= i < n - 1 ==> times[i] - createdAt <= REBUILD_AFTER
    ensures times[n - 1] - createdAt > REBUILD_AFTER ==> Prompt(rows, times[..n], times[n - 1] + 1)
    ensures n == |times| && times[n - 1] - createdAt <= REBUILD_AFTER ==> Prompt(rows, times, h)
    ensures n < |times| ==> InTime(RunFrom(m, Passes(s, times[..n])), times[n..], h)
    decreases n
  {
    hide RunFrom, LogOf, RowsAfter, Roomy, NextTime, Next, VerdictAt, TimelineAt, NextEvent, Passes;
    var t, r := times[0], AfterPass(m, times[0]);
    InTimeEnds(m, times, h);
    DispatchIsComplete(rows, t);
    WakesAdvance(rows, t);
    if t - createdAt <= REBUILD_AFTER {
      OnePass(m, s, rows, createdAt, t);
    }
    PassThenPasses(m, s, t, times[1..n]);
    assert times[..n] == [t] + times[1..n];
    if n > 1 {
      InTimeIsPrompt(r, s, RowsAfter(rows, t), createdAt, times[1..], n - 1, h);
      assert times[1..][..n - 1] == times[1..n] && times[1..][n - 1..] == times[n..];
    } else {
      assert times[1..n] == [];
      NoPasses(r, s);
    }
  }

  /** How many passes there are until the timeline built at builtAt is replaced, that one included. */
  lemma {:induction false} LengthOfLife(builtAt: int, times: seq<int>) returns (n: nat)
    requires times != []
    ensures 0 < n <= |times| && forall i :: 0 <= i < n - 1 ==> times[i] - builtAt <= REBUILD_AFTER
    ensures times[n - 1] - builtAt > REBUILD_AFTER || n == |times|
    decreases |times|
  {
    n := 1;
    if times[0] - builtAt <= REBUILD_AFTER && |times| > 1 {
      var k := LengthOfLife(builtAt, times[1..]);
      assert forall i :: 1 <= i < k + 1 ==> times[i] == times[1..][i - 1];
      n := k + 1;
    }
  }

  /** Passes in time are whole lives of timelines, and prompt passes over one that is not replaced any more. */
  lemma {:induction false} InTimeIsLives(m: Machine, s: S.Schedule, base: seq<S.Event>, builtAt: int, times: seq<int>,
                                         h: int)
    returns (lives: seq<seq<int>>, rest: seq<int>)
    requires WellMade(s, base) && InForce(m, s, TimelineAt(s, builtAt), builtAt)
    requires InTime(m, times, h) && h <= INT_MAX
    ensures times == Flat(lives) + rest && Lives(s, builtAt, lives)
    ensures forall i :: 0 <= i < |lives| ==> lives[i] != []
    ensures rest != [] ==> LastLife(s, BuiltAfter(builtAt, lives), rest, h)
    decreases |times|
  {
    hide WellMade, InForce, InTime, TimelineAt, Life, LastLife, Passes, RunFrom, Lives, Flat, BuiltAfter;
    var n := InTimeIsLife(m, s, base, builtAt, times, h);
    if times[n - 1] - builtAt <= REBUILD_AFTER {
      NoLives(s, builtAt);
      return [], times;
    }
    var life, later := times[..n], times[n..];
    assert times == life + later;
    if later == [] {
      SingleLife(s, builtAt, life);
      return [life], [];
    }
    OneLife(m, s, builtAt, life);
    var more;
    more, rest := InTimeIsLives(RunFrom(m, Passes(s, life)), s, base, Last(life), later, h);
    lives := [life] + more;
    FirstLife(s, builtAt, life, more);
  }

  /** The passes up to the one that replaces the timeline, if there is one. */
  lemma InTimeIsLife(m: Machine, s: S.Schedule, base: seq<S.Event>, builtAt: int, times: seq<int>, h: int)
    returns (n: nat)
    requires WellMade(s, base) && InForce(m, s, TimelineAt(s, builtAt), builtAt)
    requires InTime(m, times, h) && h <= INT_MAX
    ensures 0 < n <= |times|
    ensures if times[n - 1] - builtAt <= REBUILD_AFTER then n == |times| && LastLife(s, builtAt, times, h)
            else Life(s, builtAt, times[..n])
    ensures n < |times| ==> InTime(RunFrom(m, Passes(s, times[..n])), times[n..], h)
  {
    hide WellMade, InForce, InTime, TimelineAt, Roomy, Prompt, Passes, RunFrom;
    InTimeEnds(m, times, h);
    n := LengthOfLife(builtAt, times);
    WellMadeHasRoom(s, base, builtAt);
    InTimeIsPrompt(m, s, TimelineAt(s, builtAt), builtAt, times, n, h);
    assert times[n - 1] == Last(times[..n]);
  }

  /** Prompt passes up to h over a timeline that is not replaced. */
  ghost predicate LastLife(s: S.Schedule, builtAt: int, times: seq<int>, h: int)
    reads s.absolute, s.weekly
  {
    (forall i :: 0 <= i < |times| ==> times[i] - builtAt <= REBUILD_AFTER) && Prompt(TimelineAt(s, builtAt), times, h)
  }

  lemma NoLives(s: S.Schedule, builtAt: int)
    ensures Flat([]) == [] && Lives(s, builtAt, []) && BuiltAfter(builtAt, []) == builtAt
  {}

  lemma FirstLife(s: S.Schedule, builtAt: int, life: seq<int>, more: seq<seq<int>>)
    requires life != [] && Life(s, builtAt, life) && Lives(s, Last(life), more)
    requires forall i :: 0 <= i < |more| ==> more[i] != []
    ensures var lives := [life] + more;
            && Lives(s, builtAt, lives) && Flat(lives) == life + Flat(more)
            && (forall i :: 0 <= i < |lives| ==> lives[i] != [])
            && BuiltAfter(builtAt, lives) == BuiltAfter(Last(life), more)
  {
    hide Life;
    assert ([life] + more)[1..] == more;
  }

  /** What polling each timeline every second sends, from its first pass to the one that replaces it or up to h. */
  ghost function PollTimelines(s: S.Schedule, builtAt: int, lives: seq<seq<int>>, rest: seq<int>, h: int): seq<Sent>
    requires forall i :: 0 <= i < |lives| ==> lives[i] != []
    reads s.absolute, s.weekly
  {
    PollLives(s, builtAt, lives) +
    if rest == [] then [] else SentOf(PollLog(TimelineAt(s, BuiltAfter(builtAt, lives)), rest[0], h))
  }

  /**
   A thread that sleeps as it computes sends, from the arrival of a schedule on, exactly what polling
   its timelines every second sends.
   */
  lemma SleepingSendsWhatPollingSends(before: seq<Action>, s: S.Schedule, base: seq<S.Event>, times: seq<int>, h: int)
    returns (lives: seq<seq<int>>, rest: seq<int>)
    requires WellMade(s, base) && s != Run(before).previous
    requires Run(before + [Update(s)]).current == s
    requires InTime(Run(before + [Update(s)]), times, h) && h <= INT_MAX
    ensures times != [] && times == Flat(lives) + rest && Lives(s, times[0], lives)
    ensures forall i :: 0 <= i < |lives| ==> lives[i] != []
    ensures rest != [] ==> LastLife(s, BuiltAfter(times[0], lives), rest, h)
    ensures Run(before + [Update(s)] + Passes(s, times)).sent
              == Run(before).sent + PollTimelines(s, times[0], lives, rest, h)
  {
    hide Run, RunFrom, WellMade, InForce, InTime, Passes, TimelineAt, PollTimelines, Lives, Flat, BuiltAfter, LastLife;
    var m := Run(before + [Update(s)]);
    InTimeEnds(m, times, h);
    MessagesTakeEffect(before, s);
    RunContinues(before + [Update(s)], Passes(s, times));
    FirstPassPrepares(m, s, times);
    var prepared := Prepared(m, s, times[0]);
    InTimePrepares(m, s, times, h);
    lives, rest := InTimeIsLives(prepared, s, base, times[0], times, h);
    LivesAndRestSend(prepared, s, base, times[0], lives, rest, h);
  }

  lemma LivesAndRestSend(m: Machine, s: S.Schedule, base: seq<S.Event>, builtAt: int, lives: seq<seq<int>>,
                         rest: seq<int>, h: int)
    requires WellMade(s, base) && InForce(m, s, TimelineAt(s, builtAt), builtAt) && Lives(s, builtAt, lives)
    requires forall i :: 0 <= i < |lives| ==> lives[i] != []
    requires rest != [] ==> LastLife(s, BuiltAfter(builtAt, lives), rest, h)
    ensures RunFrom(m, Passes(s, Flat(lives) + rest)).sent == m.sent + PollTimelines(s, builtAt, lives, rest, h)
  {
    hide RunFrom, WellMade, InForce, Passes, TimelineAt, LastLife, PollLog, Lives, PollLives, Flat, SentOf, BuiltAfter;
    var last := BuiltAfter(builtAt, lives);
    PassesAppend(s, Flat(lives), rest);
    RunFromAppends(m, Passes(s, Flat(lives)), Passes(s, rest));
    LivesSend(m, s, builtAt, lives);
    var r := RunFrom(m, Passes(s, Flat(lives)));
    if rest == [] {
      NoPasses(r, s);
    } else {
      RestSends(r, s, base, last, rest, h);
    }
  }

  lemma RestSends(m: Machine, s: S.Schedule, base: seq<S.Event>, builtAt: int, rest: seq<int>, h: int)
    requires WellMade(s, base) && InForce(m, s, TimelineAt(s, builtAt), builtAt)
    requires rest != [] && LastLife(s, builtAt, rest, h)
    ensures RunFrom(m, Passes(s, rest)).sent == m.sent + SentOf(PollLog(TimelineAt(s, builtAt), rest[0], h))
  {
    hide RunFrom, WellMade, InForce, Passes, TimelineAt, Roomy, Prompt, PollLog, SentOf, RunLog;
    WellMadeHasRoom(s, base, builtAt);
    PassesSend(m, s, TimelineAt(s, builtAt), builtAt, rest);
    PromptRunsEqualPolling(TimelineAt(s, builtAt), rest, h);
  }

  lemma InTimePrepares(m: Machine, s: S.Schedule, times: seq<int>, h: int)
    requires m.current == s && m.previous != s && times != []
    ensures InTime(Prepared(m, s, times[0]), times, h) <==> InTime(m, times, h)
  {
    hide LogOf, RowsAfter, VerdictAt, TimelineAt, SleepsTo;
    assert AfterPass(m, times[0]) == AfterPass(Prepared(m, s, times[0]), times[0]);
  }

  // ---------- There is such a run ----------

  /** The next event lies ahead. */
  lemma EventIsAhead(s: S.Schedule, now: int)
    requires now < INT_MAX
    ensures now < NextEvent(s, now)
  {
    hide ConvertUnixTimeToWeekly, S.FirstAfter, S.LeastAfter, S.FirstPositive;
    var absolute, weekly, w := s.absolute.Contents(), s.weekly.Contents(), ConvertUnixTimeToWeekly(now, s.offset);
    WeeksAreAligned(now, now, s.offset);
    FirstAfterIsNext(absolute, now);
    LeastAfterIsLeast(weekly, w, now - w);
    FirstPositiveIsFirst(weekly);
  }

  lemma SleepsAtLeast(m: Machine, now: int, until: int)
    requires until <= NextEvent(m.current, now)
    requires m.timeline.Some? ==> until <= NextTime(m.timeline.value.rows, now)
    ensures SleepsTo(m, now, until)
  {
    hide NextTime, NextEvent;
    assert SleepsUntil(m, now, until, until);
  }

  /** One pass a second, and two in the second in which a timeline is replaced, are in time. */
  lemma {:induction false} EverySecondIsInTime(m: Machine, s: S.Schedule, base: seq<S.Event>, rows: seq<seq<Cell>>,
                                               createdAt: int, t: int, h: int)
    returns (times: seq<int>)
    requires WellMade(s, base) && InForce(m, s, rows, createdAt) && Roomy(rows) && t < h <= INT_MAX
    ensures times != [] && times[0] == t && InTime(m, times, h)
    decreases h - t, if t - createdAt > REBUILD_AFTER then 1 else 0
  {
    hide LogOf, RowsAfter, Roomy, NextTime, Next, VerdictAt, TimelineAt, NextEvent, WellMade, SleepsTo, Sought;
    var r := AfterPass(m, t);
    times := [t];
    EventIsAhead(s, t);
    if t - createdAt > REBUILD_AFTER {
      ReplacingPass(m, s, rows, createdAt, t);
      WellMadeHasRoom(s, base, t);
      NextIsNotPast(TimelineAt(s, t), t);
      SleepsAtLeast(r, t, t);
      var rest := EverySecondIsInTime(r, s, base, TimelineAt(s, t), t, t, h);
      times := [t] + rest;
      assert times[1..] == rest;
    } else {
      OnePass(m, s, rows, createdAt, t);
      DispatchIsComplete(rows, t);
      WakesAdvance(rows, t);
      SleepsAtLeast(r, t, t + 1);
      if t + 1 < h {
        var rest := EverySecondIsInTime(r, s, base, RowsAfter(rows, t), createdAt, t + 1, h);
        times := [t] + rest;
        assert times[1..] == rest;
      }
    }
  }

  lemma NextIsNotPast(rows: seq<seq<Cell>>, now: int)
    requires now < INT_MAX
    ensures now <= NextTime(rows, now)
  {
    hide NextTime;
    NextIsSought(rows, now);
  }

  /** So for every schedule that arrives there is a run up to any time that the theorems speak of. */
  lemma SleepingIsPossible(before: seq<Action>, s: S.Schedule, base: seq<S.Event>, t: int, h: int)
    returns (times: seq<int>)
    requires WellMade(s, base) && s != Run(before).previous && t < h <= INT_MAX
    ensures Run(before + [Update(s)]).current == s
    ensures times != [] && times[0] == t && InTime(Run(before + [Update(s)]), times, h)
  {
    hide Run, WellMade, TimelineAt, Roomy, InTime;
    MessagesTakeEffect(before, s);
    var m := Run(before + [Update(s)]);
    WellMadeHasRoom(s, base, t);
    times := EverySecondIsInTime(Prepared(m, s, t), s, base, TimelineAt(s, t), t, t, h);
    InTimePrepares(m, s, times, h);
  }

  // ---------- The thread ----------

  /** Each pass at these times computes the wake-up time given for it. */
  ghost predicate Computes(m: Machine, clock: seq<int>, wakes: seq<int>)
    reads if m.current == null then {} else {m.current.absolute, m.current.weekly}
    decreases |clock|
  {
    && |wakes| == |clock|
    && (clock != [] ==>
          && SleepsTo(AfterPass(m, clock[0]), clock[0], wakes[0])
          && Computes(AfterPass(m, clock[0]), clock[1..], wakes[1..]))
  }

  lemma {:induction false} ComputesAppends(m: Machine, s: S.Schedule, clock: seq<int>, wakes: seq<int>, now: int,
                                           wake: int)
    requires m.current == s && Computes(m, clock, wakes)
    requires RunFrom(m, Passes(s, clock)).current == s
    requires SleepsTo(AfterPass(RunFrom(m, Passes(s, clock)), now), now, wake)
    ensures Computes(m, clock + [now], wakes + [wake])
    ensures RunFrom(m, Passes(s, clock + [now])) == AfterPass(RunFrom(m, Passes(s, clock)), now)
    decreases |clock|
  {
    hide Next, SleepsTo, VerdictAt, TimelineAt, RunFrom, Passes;
    var all, alls := clock + [now], wakes + [wake];
    if clock == [] {
      assert all == [now] + [] && all[1..] == [] && alls[1..] == [];
      PassThenPasses(m, s, now, []);
      NoPasses(m, s);
      NoPasses(AfterPass(m, now), s);
    } else {
      var r := AfterPass(m, clock[0]);
      assert clock == [clock[0]] + clock[1..] && all == [clock[0]] + (clock[1..] + [now]);
      PassThenPasses(m, s, clock[0], clock[1..]);
      PassThenPasses(m, s, clock[0], clock[1..] + [now]);
      ComputesAppends(r, s, clock[1..], wakes[1..], now, wake);
      assert all[1..] == clock[1..] + [now] && alls[1..] == wakes[1..] + [wake];
    }
  }

  /** Passes that come no later than the times computed before them are in time. */
  lemma {:induction false} ComputesInTime(m: Machine, clock: seq<int>, wakes: seq<int>, h: int)
    requires Computes(m, clock, wakes) && clock != []
    requires forall i :: 1 <= i < |clock| ==> clock[i - 1] <= clock[i] <= wakes[i - 1]
    requires clock[|clock| - 1] < h <= wakes[|clock| - 1]
    ensures InTime(m, clock, h)
    decreases |clock|
  {
    hide AfterPass, SleepsTo;
    var r, later, laterWakes := AfterPass(m, clock[0]), clock[1..], wakes[1..];
    if |clock| == 1 {
      SleepsLess(r, clock[0], h, wakes[0]);
    } else {
      SleepsLess(r, clock[0], clock[1], wakes[0]);
      forall i | 1 <= i < |later|
        ensures later[i - 1] <= later[i] <= laterWakes[i - 1]
      {
        assert clock[i] <= clock[i + 1] <= wakes[i];
      }
      ComputesInTime(r, later, laterWakes, h);
    }
  }

  lemma SleepsLess(m: Machine, now: int, until: int, wake: int)
    requires SleepsTo(m, now, wake) && until <= wake
    ensures SleepsTo(m, now, until)
  {
    hide SleepsUntil;
  }

  method OneMorePass(t: Scheduler, now: int, nextReport: int) returns (wake: int)
    requires t.Valid() && t.current != null
    modifies t, if t.timeline == null then {} else t.timeline.Repr()
    ensures t.Valid() && t.current == old(t.current)
    ensures t.timeline == null || t.timeline == old(t.timeline) || fresh(t.timeline.Repr())
    ensures t.State() == AfterPass(old(t.State()), now) && SleepsTo(t.State(), now, wake)
  {
    hide Next, SleepsUntil, TimelineAt, VerdictAt;
    wake := t.WakeUp(now, nextReport);
  }

  /** Undisturbed passes of the loop, at the times that the clock shows, return these wake-up times. */
  method Loop(t: Scheduler, clock: seq<int>, reports: seq<int>) returns (wakes: seq<int>)
    requires t.Valid() && t.current != null && |clock| == |reports|
    modifies t, if t.timeline == null then {} else t.timeline.Repr()
    ensures t.Valid() && t.current == old(t.current)
    ensures t.State() == RunFrom(old(t.State()), Passes(t.current, clock))
    ensures Computes(old(t.State()), clock, wakes)
  {
    hide RunFrom, Passes, Computes, AfterPass, SleepsTo, Notifier.Separate, Notifier.RowsOf, Notifier.Objects;
    wakes := [];
    ghost var start, s := t.State(), t.current;
    NoPasses(start, s);
    assert Computes(start, [], []) by { NothingComputed(start); }
    for i := 0 to |clock|
      invariant t.Valid() && t.current == s
      invariant t.timeline == null || t.timeline == old(t.timeline) || fresh(t.timeline.Repr())
      invariant t.State() == RunFrom(start, Passes(s, clock[..i]))
      invariant Computes(start, clock[..i], wakes)
    {
      var wake := OneMorePass(t, clock[i], reports[i]);
      ComputesAppends(start, s, clock[..i], wakes, clock[i], wake);
      assert clock[..i + 1] == clock[..i] + [clock[i]];
      wakes := wakes + [wake];
    }
    assert clock[..|clock|] == clock;
  }

  lemma NothingComputed(m: Machine)
    ensures Computes(m, [], [])
  {}
}
