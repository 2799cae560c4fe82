/**
 Whole runs of the scheduler (src/scheduler.c): what is sent while one schedule is in force, from
 the timeline built for it to the one that replaces it after ten days.
 */
module SchedulerRuns {
  import opened Time
  import opened Periods
  import opened PeriodProperties
  import opened PeriodTies
  import opened PeriodExactness
  import opened ScheduleProperties
  import opened Agreement
  import opened Dispatch
  import opened DispatchLedger
  import opened DispatchRoom
  import opened DispatchRuns
  import opened RuleMatrix
  import opened Scheduler
  import S = Schedule
  import T = Timeline
  import Oversleeping

  // ---------- Newly built timelines ----------

  /**
   For at most 256 MACs and a schedule whose absolute times, and whose weekly times, are distinct,
   what is proved of runs of the dispatcher holds for the timeline that the scheduler builds.
   */
  lemma BuiltTimelineHasRoom(absolute: seq<S.Event>, base: seq<S.Event>, count: nat, offset: int, now: int)
    requires S.StrictlySorted(absolute) && WeeklyTimes(base) && count <= BATCH
    ensures var rows := TimelineOf(absolute, S.Finalized(base), count, offset, now);
            && Roomy(rows) && AllClear(rows)
            && forall h :: now < h <= INT_MAX ==> WakeLog(rows, now, h) == PollLog(rows, now, h)
  {
    hide S.Finalized, T.PeriodsOf, WellFormed, PollLog, WakeLog;
    var rows := TimelineOf(absolute, S.Finalized(base), count, offset, now);
    forall m: nat | m < count
      ensures WellFormed(PeriodsIn(rows[m]))
    {
      BuiltPeriodsAreWellFormed(absolute, base, now, T.MAX_WEEKS_AHEAD, offset, m);
      BuiltRow(absolute, S.Finalized(base), count, offset, now, m);
    }
    forall h | now < h <= INT_MAX
      ensures WakeLog(rows, now, h) == PollLog(rows, now, h)
    {
      WakingEqualsPolling(rows, now, h);
    }
  }

  lemma BuiltRow(absolute: seq<S.Event>, weekly: seq<S.Event>, count: nat, offset: int, now: int, m: nat)
    requires m < count
    ensures var rows := TimelineOf(absolute, weekly, count, offset, now);
            |rows| == count && PeriodsIn(rows[m]) == T.PeriodsOf(absolute, weekly, m, now, T.MAX_WEEKS_AHEAD, offset)
  {
    hide T.PeriodsOf;
    var rows := TimelineOf(absolute, weekly, count, offset, now);
    assert PeriodsIn(rows[m]) == T.PeriodsOf(absolute, weekly, m, now, T.MAX_WEEKS_AHEAD, offset);
  }

  /**
   The rule matrix from the schedule on: what a run over the timeline built at now reports, and which
   ends of its periods are the user's, by the events of the two schedules.
   */
  lemma BuiltTimelineFollowsMatrix(absolute: seq<S.Event>, base: seq<S.Event>, count: nat, offset: int, now: int,
                                   h: int, x: int, k: Kind, i: nat, time: int)
    requires S.StrictlySorted(absolute) && WeeklyTimes(base) && count <= BATCH && now < h <= INT_MAX
    ensures Roomy(TimelineOf(absolute, S.Finalized(base), count, offset, now))
    ensures var periods := T.PeriodsOf(absolute, S.Finalized(base), i, now, T.MAX_WEEKS_AHEAD, offset);
            && (Reported(WakeLog(TimelineOf(absolute, S.Finalized(base), count, offset, now), now, h), x, k, i, time)
                  <==>
                && now <= x < h && i < count
                && exists j :: 0 <= j < |periods| && Announced(k, periods, periods[j], now, x, time))
            && var events := T.Merged(absolute, S.Finalized(base), now, T.MAX_WEEKS_AHEAD, offset);
               forall j :: 0 <= j < |periods| ==>
                 && StartAttributed(events, periods[j].start, periods[j].startAbsolute, i)
                 && EndAttributed(events, periods[j], i)
  {
    hide S.Finalized, T.Merged, Build, Reported, Roomy, AllClear, WakeLog, TimelineOf, Announced, StartAttributed,
      EndAttributed;
    var rows := TimelineOf(absolute, S.Finalized(base), count, offset, now);
    BuiltTimelineHasRoom(absolute, base, count, offset, now);
    RunFollowsKinds(rows, now, h, x, k, i, time);
    BuiltCount(absolute, S.Finalized(base), count, offset, now);
    if i < count {
      BuiltRow(absolute, S.Finalized(base), count, offset, now, i);
      var periods := PeriodsIn(rows[i]);
      assert forall j :: 0 <= j < |periods| ==> rows[i][j].period == periods[j];
    }
    MergedAgrees(absolute, base, now, T.MAX_WEEKS_AHEAD, offset, i);
    PeriodsAreAttributed(T.Merged(absolute, S.Finalized(base), now, T.MAX_WEEKS_AHEAD, offset), i, now);
  }

  /**
   Without ties a run reports exactly what the matrix calls for on the maximal runs of blocked
   seconds that end after now, each end being the user's exactly if an absolute event is there.
   */
  lemma ReportsFollowSchedule(absolute: seq<S.Event>, base: seq<S.Event>, count: nat, offset: int, now: int,
                              h: int, x: int, k: Kind, i: nat, time: int)
    requires S.StrictlySorted(absolute) && WeeklyTimes(base) && i < count <= BATCH && now < h <= INT_MAX
    requires TieFree(T.Merged(absolute, S.Finalized(base), now, T.MAX_WEEKS_AHEAD, offset))
    requires !AlwaysListed(base, i)
    ensures Roomy(TimelineOf(absolute, S.Finalized(base), count, offset, now))
    ensures var periods := T.PeriodsOf(absolute, S.Finalized(base), i, now, T.MAX_WEEKS_AHEAD, offset);
            var events := T.Merged(absolute, S.Finalized(base), now, T.MAX_WEEKS_AHEAD, offset);
            && (Reported(WakeLog(TimelineOf(absolute, S.Finalized(base), count, offset, now), now, h), x, k, i, time)
                  <==>
                && now <= x < h
                && exists p: Period ::
                     MaximalRun(events, p, i) && now < p.end && Announced(k, periods, p, now, x, time))
            && (Covered(periods, x) <==> exists v :: v > now && RunCloses(events, x, v, i))
  {
    hide S.Finalized, T.Merged, Build, Reported, Roomy, WakeLog, TimelineOf, Announced, TieFree, MaximalRun, Covered,
      RunCloses, StartAttributed, EndAttributed, WellFormed, Ordered, Agree, AlwaysListed, T.IndefinitelyBlocked;
    SkipsAlwaysListed(base, i);
    var events := T.Merged(absolute, S.Finalized(base), now, T.MAX_WEEKS_AHEAD, offset);
    BuiltTimelineFollowsMatrix(absolute, base, count, offset, now, h, x, k, i, time);
    BuiltPeriodsAreWellFormed(absolute, base, now, T.MAX_WEEKS_AHEAD, offset, i);
    MergedAgrees(absolute, base, now, T.MAX_WEEKS_AHEAD, offset, i);
    PeriodsAreExact(events, i, now);
    forall p: Period | MaximalRun(events, p, i) && now < p.end
      ensures p in Build(events, i, now)
    {
      RunIsPeriod(events, p, i, now);
    }
  }

  lemma RunIsPeriod(events: seq<TimelineEvent>, p: Period, m: nat, now: int)
    requires Ordered(events) && Agree(events, m) && TieFree(events) && MaximalRun(events, p, m) && now < p.end
    ensures p in Build(events, m, now)
  {
    hide Ordered, Agree, TieFree, UnionAt, Build, AbsoluteEventAt;
    PeriodsAreExact(events, m, now);
    var periods := Build(events, m, now);
    assert Covered(periods, p.start);
    var j :| 0 <= j < |periods| && Within(periods[j], p.start);
    SameRun(events, p, periods[j], m);
  }

  lemma SameRun(events: seq<TimelineEvent>, p: Period, q: Period, m: nat)
    requires MaximalRun(events, p, m) && MaximalRun(events, q, m) && Within(q, p.start)
    ensures p == q
  {
    hide UnionAt, AbsoluteEventAt;
    assert UnionAt(events, q.start, m) && UnionAt(events, p.start, m);
    assert q.start < p.start ==> UnionAt(events, p.start - 1, m);
  }

  lemma BuiltCount(absolute: seq<S.Event>, weekly: seq<S.Event>, count: nat, offset: int, now: int)
    ensures |TimelineOf(absolute, weekly, count, offset, now)| == count
  {
    hide T.PeriodsOf;
  }

  // ---------- Passes over one schedule ----------

  /** The thread runs at the given times while s is in force. */
  ghost function Passes(s: S.Schedule, times: seq<int>): (actions: seq<Action>)
    reads s.absolute, s.weekly
    ensures |actions| == |times|
  {
    seq(|times|, i requires 0 <= i < |times| reads s.absolute, s.weekly =>
      Wake(times[i], VerdictAt(s, times[i]), TimelineAt(s, times[i])))
  }

  ghost function RunFrom(m: Machine, actions: seq<Action>): Machine
    decreases |actions|
  {
    if actions == [] then m else RunFrom(Next(m, actions[0]), actions[1..])
  }

  lemma {:induction false} RunContinues(actions: seq<Action>, more: seq<Action>)
    ensures Run(actions + more) == RunFrom(Run(actions), more)
    decreases |more|
  {
    hide Next;
    if more == [] {
      assert actions + more == actions;
    } else {
      var one := actions + [more[0]];
      assert one[..|one| - 1] == actions && one + more[1..] == actions + more;
      RunContinues(one, more[1..]);
    }
  }

  lemma {:induction false} RunFromAppends(m: Machine, actions: seq<Action>, more: seq<Action>)
    ensures RunFrom(m, actions + more) == RunFrom(RunFrom(m, actions), more)
    decreases |actions|
  {
    hide Next;
    if actions == [] {
      assert actions + more == more;
    } else {
      assert (actions + more)[0] == actions[0] && (actions + more)[1..] == actions[1..] + more;
      RunFromAppends(Next(m, actions[0]), actions[1..], more);
    }
  }

  /** The notifications of a log without the times at which they were sent. */
  ghost function SentOf(log: seq<Timed>): (sent: seq<Sent>)
    ensures |sent| == |log|
  {
    seq(|log|, i requires 0 <= i < |log| => log[i].sent)
  }

  lemma SentOfStamped(log: seq<Sent>, t: int, rest: seq<Timed>)
    ensures SentOf(Stamped(log, t) + rest) == log + SentOf(rest)
  {}

  lemma {:induction false} RunRowsFromFront(rows: seq<seq<Cell>>, times: seq<int>)
    requires times != []
    ensures RunRows(rows, times) == RunRows(RowsAfter(rows, times[0]), times[1..])
    decreases |times|
  {
    hide RowsAfter;
    if |times| > 1 {
      var front := times[..|times| - 1];
      RunRowsFromFront(rows, front);
      assert times[1..][..|times| - 2] == front[1..];
    }
  }

  /** s is in force and its timeline is this one. */
  ghost predicate InForce(m: Machine, s: S.Schedule, rows: seq<seq<Cell>>, createdAt: int) {
    m.current == s && m.previous == s && m.timeline == S.Some(Built(s, rows, createdAt))
  }

  /** One pass that does not replace the timeline. */
  lemma OnePass(m: Machine, s: S.Schedule, rows: seq<seq<Cell>>, createdAt: int, now: int)
    requires InForce(m, s, rows, createdAt) && now - createdAt <= REBUILD_AFTER
    ensures var r := Next(m, Wake(now, VerdictAt(s, now), TimelineAt(s, now)));
            InForce(r, s, RowsAfter(rows, now), createdAt) && r.sent == m.sent + LogOf(rows, now)
  {
    hide LogOf, RowsAfter, VerdictAt, TimelineAt;
  }

  /** One pass that does. */
  lemma ReplacingPass(m: Machine, s: S.Schedule, rows: seq<seq<Cell>>, createdAt: int, now: int)
    requires InForce(m, s, rows, createdAt) && now - createdAt > REBUILD_AFTER
    ensures var r := Next(m, Wake(now, VerdictAt(s, now), TimelineAt(s, now)));
            InForce(r, s, TimelineAt(s, now), now) && r.sent == m.sent + LogOf(rows, now)
  {
    hide LogOf, RowsAfter, VerdictAt, TimelineAt;
  }

  lemma {:induction false} PassesSend(m: Machine, s: S.Schedule, rows: seq<seq<Cell>>, createdAt: int, times: seq<int>)
    requires InForce(m, s, rows, createdAt)
    requires forall i :: 0 <= i < |times| ==> times[i] - createdAt <= REBUILD_AFTER
    ensures var r := RunFrom(m, Passes(s, times));
            InForce(r, s, RunRows(rows, times), createdAt) && r.sent == m.sent + SentOf(RunLog(rows, times))
    decreases |times|
  {
    hide Next, LogOf, RowsAfter, InForce, VerdictAt, TimelineAt;
    if times == [] {
    } else {
      var now := times[0];
      OnePass(m, s, rows, createdAt, now);
      var r := Next(m, Wake(now, VerdictAt(s, now), TimelineAt(s, now)));
      assert Passes(s, times)[1..] == Passes(s, times[1..]);
      PassesSend(r, s, RowsAfter(rows, now), createdAt, times[1..]);
      RunRowsFromFront(rows, times);
      SentOfStamped(LogOf(rows, now), now, RunLog(RowsAfter(rows, now), times[1..]));
    }
  }

  /** A new schedule with its timeline built at now, before the first dispatch. */
  ghost function Prepared(m: Machine, s: S.Schedule, now: int): Machine
    reads s.absolute, s.weekly
  {
    m.(previous := s, timeline := S.Some(Built(s, TimelineAt(s, now), now)))
  }

  /** The first pass over a new schedule builds its timeline, and goes on as if it had been there. */
  lemma FirstPassPrepares(m: Machine, s: S.Schedule, times: seq<int>)
    requires m.current == s && m.previous != s && times != []
    ensures RunFrom(m, Passes(s, times)) == RunFrom(Prepared(m, s, times[0]), Passes(s, times))
    ensures InForce(Prepared(m, s, times[0]), s, TimelineAt(s, times[0]), times[0])
  {
    hide LogOf, RowsAfter, VerdictAt, TimelineAt;
    var pass := Passes(s, times)[0];
    assert Next(m, pass) == Next(Prepared(m, s, times[0]), pass);
  }

  lemma PassesAppend(s: S.Schedule, times: seq<int>, later: seq<int>)
    ensures Passes(s, times + later) == Passes(s, times) + Passes(s, later)
  {
    hide VerdictAt, TimelineAt;
  }

  lemma {:induction false} RunLogAppends(rows: seq<seq<Cell>>, times: seq<int>, t: int)
    ensures RunLog(rows, times + [t]) == RunLog(rows, times) + Stamped(LogOf(RunRows(rows, times), t), t)
    decreases |times|
  {
    hide LogOf, RowsAfter;
    if times == [] {
      assert [t][1..] == [];
      assert RunLog(RowsAfter(rows, t), []) == [];
    } else {
      assert (times + [t])[0] == times[0] && (times + [t])[1..] == times[1..] + [t];
      RunLogAppends(RowsAfter(rows, times[0]), times[1..], t);
      RunRowsFromFront(rows, times);
    }
  }

  lemma LastPass(m: Machine, s: S.Schedule, rows: seq<seq<Cell>>, createdAt: int, now: int)
    requires InForce(m, s, rows, createdAt) && now - createdAt > REBUILD_AFTER
    ensures var r := RunFrom(m, Passes(s, [now]));
            InForce(r, s, TimelineAt(s, now), now) && r.sent == m.sent + LogOf(rows, now)
  {
    hide Next, LogOf, InForce, VerdictAt, TimelineAt;
    ReplacingPass(m, s, rows, createdAt, now);
    var r := Next(m, Passes(s, [now])[0]);
    assert RunFrom(r, Passes(s, [now])[1..]) == r;
  }

  lemma SentOfAppends(first: seq<Timed>, log: seq<Sent>, t: int)
    ensures SentOf(first + Stamped(log, t)) == SentOf(first) + log
  {}

  // ---------- Any number of timelines ----------

  function Last(times: seq<int>): int
    requires times != []
  {
    times[|times| - 1]
  }

  /**
   The passes over one timeline, built at builtAt, come no later than the wake-ups, and only the
   last of them finds it more than ten days old.
   */
  ghost predicate Life(s: S.Schedule, builtAt: int, times: seq<int>)
    reads s.absolute, s.weekly
  {
    && times != [] && Last(times) - builtAt > REBUILD_AFTER
    && (forall i :: 0 <= i < |times| - 1 ==> times[i] - builtAt <= REBUILD_AFTER)
    && Roomy(TimelineAt(s, builtAt)) && Prompt(TimelineAt(s, builtAt), times, Last(times) + 1)
  }

  /** Lives follow each other: each timeline is built when the one before is replaced. */
  ghost predicate Lives(s: S.Schedule, builtAt: int, lives: seq<seq<int>>)
    reads s.absolute, s.weekly
    decreases |lives|
  {
    lives == [] || (Life(s, builtAt, lives[0]) && Lives(s, Last(lives[0]), lives[1..]))
  }

  /** When the timeline that follows these lives was built. */
  ghost function BuiltAfter(builtAt: int, lives: seq<seq<int>>): int
    requires forall i :: 0 <= i < |lives| ==> lives[i] != []
  {
    if lives == [] then builtAt else Last(lives[|lives| - 1])
  }

  ghost function Flat(lives: seq<seq<int>>): seq<int>
    decreases |lives|
  {
    if lives == [] then [] else lives[0] + Flat(lives[1..])
  }

  /** What polling each timeline every second sends, from its first pass to the one that replaces it. */
  ghost function PollLives(s: S.Schedule, builtAt: int, lives: seq<seq<int>>): seq<Sent>
    requires forall i :: 0 <= i < |lives| ==> lives[i] != []
    reads s.absolute, s.weekly
    decreases |lives|
  {
    if lives == [] then []
    else
      SentOf(PollLog(TimelineAt(s, builtAt), lives[0][0], Last(lives[0]) + 1))
      + PollLives(s, Last(lives[0]), lives[1..])
  }

  lemma {:induction false} LivesAreNonempty(s: S.Schedule, builtAt: int, lives: seq<seq<int>>)
    requires Lives(s, builtAt, lives)
    ensures forall i :: 0 <= i < |lives| ==> lives[i] != []
    decreases |lives|
  {
    hide TimelineAt, Roomy, Prompt;
    if lives != [] {
      LivesAreNonempty(s, Last(lives[0]), lives[1..]);
      assert forall i :: 1 <= i < |lives| ==> lives[i] == lives[1..][i - 1];
    }
  }

  lemma OneLife(m: Machine, s: S.Schedule, builtAt: int, times: seq<int>)
    requires InForce(m, s, TimelineAt(s, builtAt), builtAt) && Life(s, builtAt, times)
    ensures var r := RunFrom(m, Passes(s, times));
            && InForce(r, s, TimelineAt(s, Last(times)), Last(times))
            && r.sent == m.sent + SentOf(PollLog(TimelineAt(s, builtAt), times[0], Last(times) + 1))
  {
    hide RunFrom, LogOf, RowsAfter, InForce, Passes, TimelineAt, Roomy, Prompt, PollLog, RunLog, RunRows;
    var rows, front, now := TimelineAt(s, builtAt), times[..|times| - 1], Last(times);
    assert times == front + [now];
    PassesAppend(s, front, [now]);
    RunFromAppends(m, Passes(s, front), Passes(s, [now]));
    PassesSend(m, s, rows, builtAt, front);
    LastPass(RunFrom(m, Passes(s, front)), s, RunRows(rows, front), builtAt, now);
    RunLogAppends(rows, front, now);
    SentOfAppends(RunLog(rows, front), LogOf(RunRows(rows, front), now), now);
    PromptRunsEqualPolling(rows, times, now + 1);
  }

  lemma {:induction false} LivesSend(m: Machine, s: S.Schedule, builtAt: int, lives: seq<seq<int>>)
    requires InForce(m, s, TimelineAt(s, builtAt), builtAt) && Lives(s, builtAt, lives)
    ensures forall i :: 0 <= i < |lives| ==> lives[i] != []
    ensures var r := RunFrom(m, Passes(s, Flat(lives)));
            && InForce(r, s, TimelineAt(s, BuiltAfter(builtAt, lives)), BuiltAfter(builtAt, lives))
            && r.sent == m.sent + PollLives(s, builtAt, lives)
    decreases |lives|
  {
    hide Life, InForce, TimelineAt, PollLog, Passes, RunFrom, SentOf;
    LivesAreNonempty(s, builtAt, lives);
    if lives == [] {
      NoPasses(m, s);
    } else {
      var r := RunFrom(m, Passes(s, lives[0]));
      OneLife(m, s, builtAt, lives[0]);
      LivesSend(r, s, Last(lives[0]), lives[1..]);
      PassesAppend(s, lives[0], Flat(lives[1..]));
      RunFromAppends(m, Passes(s, lives[0]), Passes(s, Flat(lives[1..])));
    }
  }

  lemma NoPasses(m: Machine, s: S.Schedule)
    ensures RunFrom(m, Passes(s, [])) == m
  {
    hide Next;
    assert Passes(s, []) == [];
  }

  /**
   What the scheduler sends from the arrival of a schedule on, through any number of timelines that
   replace each other after ten days: for each what polling it every second sends, from its first
   pass to the one that replaces it, and for the last up to h.
   */
  lemma ScheduleSendsWhatPollingSends(before: seq<Action>, s: S.Schedule, builtAt: int, lives: seq<seq<int>>,
                                      times: seq<int>, h: int)
    requires s != Run(before).previous && times != [] && builtAt == (Flat(lives) + times)[0]
    requires Lives(s, builtAt, lives)
    requires forall i :: 0 <= i < |lives| ==> lives[i] != []
    requires var last := BuiltAfter(builtAt, lives);
             && (forall i :: 0 <= i < |times| ==> times[i] - last <= REBUILD_AFTER)
             && Roomy(TimelineAt(s, last)) && Prompt(TimelineAt(s, last), times, h)
    ensures Run(before + [Update(s)] + Passes(s, Flat(lives) + times)).sent
              == Run(before).sent + PollLives(s, builtAt, lives)
                 + SentOf(PollLog(TimelineAt(s, BuiltAfter(builtAt, lives)), times[0], h))
  {
    hide Run, RunFrom, InForce, Passes, TimelineAt, Roomy, Prompt, PollLog, RunLog, RunRows, Lives, PollLives, Flat;
    var all, m, last := Flat(lives) + times, Run(before + [Update(s)]), BuiltAfter(builtAt, lives);
    RunContinues(before + [Update(s)], Passes(s, all));
    MessagesTakeEffect(before, s);
    FirstPassPrepares(m, s, all);
    var prepared := Prepared(m, s, builtAt);
    PassesAppend(s, Flat(lives), times);
    RunFromAppends(prepared, Passes(s, Flat(lives)), Passes(s, times));
    LivesSend(prepared, s, builtAt, lives);
    var r := RunFrom(prepared, Passes(s, Flat(lives)));
    PassesSend(r, s, TimelineAt(s, last), last, times);
    PromptRunsEqualPolling(TimelineAt(s, last), times, h);
  }

  // ---------- A start that is announced twice ----------

  /** The wake-ups from t on, up to h. */
  lemma {:induction false} PromptTimes(rows: seq<seq<Cell>>, t: int, h: int) returns (times: seq<int>)
    requires Roomy(rows) && t < h <= INT_MAX
    ensures times != [] && times[0] == t && Prompt(rows, times, h)
    ensures forall i :: 0 <= i < |times| ==> t <= times[i] < h
    decreases h - t
  {
    hide RowsAfter, NextTime, Roomy;
    DispatchIsComplete(rows, t);
    WakesAdvance(rows, t);
    var next := NextTime(RowsAfter(rows, t), t);
    times := [t];
    if next < h {
      var rest := PromptTimes(RowsAfter(rows, t), next, h);
      times := [t] + rest;
      assert times[1..] == rest;
    }
  }

  lemma {:induction false} PromptExtends(rows: seq<seq<Cell>>, times: seq<int>, h: int)
    requires Roomy(rows) && Prompt(rows, times, h) && h < INT_MAX
    ensures Prompt(rows, times + [h], h + 1)
    decreases |times|
  {
    hide RowsAfter, NextTime, Roomy;
    var after := RowsAfter(rows, times[0]);
    DispatchIsComplete(rows, times[0]);
    assert (times + [h])[1..] == times[1..] + [h];
    if |times| > 1 {
      PromptExtends(after, times[1..], h);
    } else {
      WakesAdvance(after, h);
      assert times[1..] + [h] == [h];
    }
  }

  const SUNDAY := 3 * DAY
  const NIGHT := [S.Event(3 * DAY + 1, [0]), S.Event(3 * DAY + 601, [])]
  const START := SUNDAY + WEEK + 3 * DAY + 1

  /** Both timelines have a weekly period that starts at START. */
  lemma NightStarts(now: int) returns (j: nat)
    requires now == SUNDAY || now == START
    ensures var periods := T.PeriodsOf([], S.Finalized(NIGHT), 0, now, 2, 0);
            j < |periods| && periods[j].start == START < periods[j].end && !periods[j].startAbsolute
  {
    hide S.Finalized, T.Merged, Build, WeeklyTimeline, S.Choose;
    var periods := T.PeriodsOf([], S.Finalized(NIGHT), 0, now, 2, 0);
    NightIsCovered(now);
    j :| 0 <= j < |periods| && Within(periods[j], START);
    assert Within(periods[j], START - 1) ==> Covered(periods, START - 1);
    PeriodsAreWeekly(NIGHT, now, 2, 0, 0);
  }

  /** Without absolute events every period starts by the weekly schedule. */
  lemma PeriodsAreWeekly(base: seq<S.Event>, now: int, weeks: nat, offset: int, m: nat)
    requires WeeklyTimes(base)
    ensures var periods := T.PeriodsOf([], S.Finalized(base), m, now, weeks, offset);
            forall j :: 0 <= j < |periods| ==> !periods[j].startAbsolute && !periods[j].endAbsolute
  {
    hide S.Finalized, T.Merged, Build, RunCloses, UnionAt;
    WeeklyOnly(base, now, weeks, offset, m);
    PeriodsAreExact(WeeklyTimeline(base, now, weeks, offset), m, now);
  }

  lemma NightIsCovered(now: int)
    requires now == SUNDAY || now == START
    ensures var periods := T.PeriodsOf([], S.Finalized(NIGHT), 0, now, 2, 0);
            Covered(periods, START) && !Covered(periods, START - 1)
  {
    hide S.Finalized, T.PeriodsOf, WeeklyTimeline, Covered, S.Choose;
    NightRules();
    NightEnds(now);
    TimelineIsEnforcementWithEnd(NIGHT, now, 2, 0, START, 0);
    if now == START {
      CarryOverIsLost(NIGHT, now, 2, 0, START - 1, 0);
    } else {
      TimelineIsEnforcementWithEnd(NIGHT, now, 2, 0, START - 1, 0);
    }
  }

  lemma NightRules()
    ensures S.Choose([], S.Finalized(NIGHT), START, 0) == S.FromWeekly(NIGHT[0])
    ensures var before := S.Choose([], S.Finalized(NIGHT), START - 1, 0); before.FromWeekly? && before.event.block == []
  {
    hide ConvertUnixTimeToWeekly, S.Finalized, S.Scan;
    FinalizedAddsLastWeek(NIGHT);
    NightTimes();
    Oversleeping.RuleAtEvent(NIGHT, 0, START, 0);
    Oversleeping.RuleBeforeFirst(NIGHT, START - 1, 0);
  }

  lemma NightTimes()
    ensures ConvertUnixTimeToWeekly(START, 0) == 3 * DAY + 1 && ConvertUnixTimeToWeekly(START - 1, 0) == 3 * DAY
  {}

  lemma NightEnds(now: int)
    requires now == SUNDAY || now == START
    ensures TimelineEvent(START + 600, [], false) in WeeklyTimeline(NIGHT, now, 2, 0)
    ensures WeekStart(now, 0) == now - (if now == SUNDAY then 0 else 3 * DAY + 1)
  {
    hide S.Finalized, WeeklyTimeline;
    FinalizedAddsLastWeek(NIGHT);
    assert S.Finalized(NIGHT)[2] == NIGHT[1];
    OccurrenceExpanded(NIGHT, now, 2, 0, if now == START then 0 else 1, 2);
  }

  /** The notification is sent twice: by two elements of sent. */
  ghost predicate SentTwice(sent: seq<Sent>, k: Kind, mac: nat, time: int) {
    exists a, b :: 0 <= a < b < |sent| && Announces(sent[a], k, mac, time) && Announces(sent[b], k, mac, time)
  }

  predicate Announces(sent: Sent, k: Kind, mac: nat, time: int) {
    sent.kind == k && sent.time == time && mac in sent.macs
  }

  lemma ReportedTwice(sent: seq<Sent>, first: seq<Timed>, second: seq<Timed>, k: Kind, mac: nat, time: int)
    requires EverReported(first, k, mac, time) && EverReported(second, k, mac, time)
    ensures SentTwice(sent + SentOf(first) + SentOf(second), k, mac, time)
  {
    var a :| 0 <= a < |first| && Announces(first[a].sent, k, mac, time);
    var b :| 0 <= b < |second| && Announces(second[b].sent, k, mac, time);
    var all := sent + SentOf(first) + SentOf(second);
    assert all[|sent| + a] == first[a].sent && all[|sent| + |first| + b] == second[b].sent;
  }

  lemma NightIsReported(s: S.Schedule, now: int)
    requires s.absolute.Contents() == [] && s.weekly.Contents() == S.Finalized(NIGHT) && |s.macs| == 1 && s.offset == 0
    requires now == SUNDAY || now == START
    ensures Roomy(TimelineAt(s, now)) && AllClear(TimelineAt(s, now))
    ensures EverReported(PollLog(TimelineAt(s, now), now, START + 1), Started, 0, START)
    ensures now == START ==> NextTime(TimelineAt(s, now), now) == now
  {
    hide S.Finalized, TimelineOf, T.PeriodsOf, Roomy, AllClear, PollLog, WakeLog, EverReported, NextTime, LogOf;
    var rows := TimelineAt(s, now);
    BuiltTimelineHasRoom([], NIGHT, 1, 0, now);
    BuiltCount([], S.Finalized(NIGHT), 1, 0, now);
    BuiltRow([], S.Finalized(NIGHT), 1, 0, now, 0);
    var j := NightStarts(now);
    assert PeriodsIn(rows[0])[j] == rows[0][j].period;
    EverReportedAtDueTime(rows, now, START + 1, Started, 0, START);
    if now == START {
      RebuildAnnouncesAtOnce(rows, now, 0, j);
    }
  }

  /**
   The scheduler announces one start twice.  The week has one ten-minute period; the schedule
   arrives on a Sunday at 00:00:00 and the thread always wakes when it should.  The period of the
   second Wednesday starts ten days and one second later, so the pass at that second announces it
   and replaces the timeline; the new one has the thread wake at once and announces it again.
   */
  lemma StartAnnouncedTwice(s: S.Schedule) returns (times: seq<int>)
    requires s.absolute.Contents() == [] && s.weekly.Contents() == S.Finalized(NIGHT) && |s.macs| == 1 && s.offset == 0
    ensures times != [] && times[0] == SUNDAY && START - SUNDAY > REBUILD_AFTER
    ensures Prompt(TimelineAt(s, SUNDAY), times + [START], START + 1)
    ensures NextTime(TimelineAt(s, START), START) == START
    ensures SentTwice(Run([Update(s)] + Passes(s, times + [START] + [START])).sent, Started, 0, START)
  {
    hide S.Finalized, TimelineAt, Roomy, AllClear, Prompt, PollLog, EverReported, NextTime, RowsAfter, Run, Passes;
    NightIsReported(s, SUNDAY);
    NightIsReported(s, START);
    times := PromptTimes(TimelineAt(s, SUNDAY), SUNDAY, START);
    PromptExtends(TimelineAt(s, SUNDAY), times, START);
    PromptAtOnce(TimelineAt(s, START), START);
    StartHasNoSchedule();
    assert [] + [Update(s)] == [Update(s)];
    OneReplacement(s, times, START);
    ReportedTwice([], PollLog(TimelineAt(s, SUNDAY), SUNDAY, START + 1),
      PollLog(TimelineAt(s, START), START, START + 1),
                  Started, 0, START);
  }

  lemma OneReplacement(s: S.Schedule, times: seq<int>, now: int)
    requires times != [] && forall i :: 0 <= i < |times| ==> times[i] - times[0] <= REBUILD_AFTER < now - times[0]
    requires Roomy(TimelineAt(s, times[0])) && Prompt(TimelineAt(s, times[0]), times + [now], now + 1)
    requires Roomy(TimelineAt(s, now)) && Prompt(TimelineAt(s, now), [now], now + 1)
    ensures Run([Update(s)] + Passes(s, times + [now] + [now])).sent
              == [] + SentOf(PollLog(TimelineAt(s, times[0]), times[0], now + 1))
                 + SentOf(PollLog(TimelineAt(s, now), now, now + 1))
  {
    hide TimelineAt, Roomy, Prompt, PollLog, Passes, Run, SentOf, Lives, Flat, PollLives, BuiltAfter;
    StartHasNoSchedule();
    assert [] + [Update(s)] == [Update(s)];
    var life := times + [now];
    assert Life(s, times[0], life);
    SingleLife(s, times[0], life);
    ScheduleSendsWhatPollingSends([], s, times[0], [life], [now], now + 1);
  }

  lemma SingleLife(s: S.Schedule, builtAt: int, times: seq<int>)
    requires times != []
    ensures Flat([times]) == times && BuiltAfter(builtAt, [times]) == Last(times)
    ensures (Life(s, builtAt, times) ==> Lives(s, builtAt, [times]))
    ensures PollLives(s, builtAt, [times]) == SentOf(PollLog(TimelineAt(s, builtAt), times[0], Last(times) + 1))
  {
    hide Life, TimelineAt, PollLog, SentOf;
    assert [times][1..] == [] && Flat([]) == [];
    assert PollLives(s, Last(times), [times][1..]) == [];
    assert Lives(s, Last(times), [times][1..]);
  }

  lemma StartHasNoSchedule()
    ensures Run([]).previous == null && Run([]).sent == []
  {}

  lemma PromptAtOnce(rows: seq<seq<Cell>>, t: int)
    requires Roomy(rows) && t < INT_MAX
    ensures Prompt(rows, [t], t + 1)
  {
    hide RowsAfter, NextTime, Roomy;
    WakesAdvance(rows, t);
  }
}
