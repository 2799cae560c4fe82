/**
 Whole runs of enforcement (src/scheduler.c): passes that come no later than the next event tell the
 firewall what a pass every second would tell it, at the same seconds.
 */
module EnforcementRuns {
  import opened Scheduler
  import opened SchedulerRuns
  import S = Schedule

  /** What the passes at these times tell the firewall, and when, if blocked is what it was told last. */
  ghost function Told(s: S.Schedule, blocked: Macs, times: seq<int>): seq<(int, Macs)>
    reads s.absolute, s.weekly
    decreases |times|
  {
    if times == [] then []
    else
      var verdict := VerdictAt(s, times[0]);
      (if verdict != blocked then [(times[0], verdict)] else []) + Told(s, verdict, times[1..])
  }

  ghost function Lists(told: seq<(int, Macs)>): (lists: seq<Macs>)
    ensures |lists| == |told|
  {
    seq(|told|, i requires 0 <= i < |told| => told[i].1)
  }

  lemma OneTelling(m: Machine, s: S.Schedule, now: int)
    requires m.current == s
    ensures var verdict := VerdictAt(s, now);
            var r := Next(m, Wake(now, verdict, TimelineAt(s, now)));
            && r.current == s && r.blocked == verdict
            && r.firewall == if verdict != m.blocked then m.firewall + [verdict] else m.firewall
  {
    hide VerdictAt, TimelineAt;
  }

  lemma {:induction false} PassesTell(m: Machine, s: S.Schedule, times: seq<int>)
    requires m.current == s
    ensures var r := RunFrom(m, Passes(s, times));
            r.current == s && r.firewall == m.firewall + Lists(Told(s, m.blocked, times))
    decreases |times|
  {
    hide Next, VerdictAt, TimelineAt, Passes, RunFrom, Told, Lists;
    if times == [] {
      NoPasses(m, s);
      NothingTold(s, m.blocked);
    } else {
      var t, rest := times[0], times[1..];
      assert times == [t] + rest;
      OneTelling(m, s, t);
      var r := Next(m, Wake(t, VerdictAt(s, t), TimelineAt(s, t)));
      PassesTell(r, s, rest);
      PassThenPasses(m, s, t, rest);
      ToldFirst(s, m.blocked, t, rest);
      ListsFirst(t, VerdictAt(s, t), Told(s, VerdictAt(s, t), rest));
    }
  }

  lemma NothingTold(s: S.Schedule, blocked: Macs)
    ensures Told(s, blocked, []) == [] && Lists([]) == []
  {}

  lemma ListsFirst(t: int, verdict: Macs, told: seq<(int, Macs)>)
    ensures Lists([(t, verdict)] + told) == [verdict] + Lists(told) && [] + told == told
  {}

  lemma PassThenPasses(m: Machine, s: S.Schedule, t: int, rest: seq<int>)
    ensures RunFrom(m, Passes(s, [t] + rest))
              == RunFrom(Next(m, Wake(t, VerdictAt(s, t), TimelineAt(s, t))), Passes(s, rest))
  {
    hide Next, VerdictAt, TimelineAt;
    assert Passes(s, [t] + rest)[0] == Wake(t, VerdictAt(s, t), TimelineAt(s, t));
    assert Passes(s, [t] + rest)[1..] == Passes(s, rest);
  }

  ghost function Seconds(t: int, h: int): seq<int>
    decreases h - t
  {
    if t >= h then [] else [t] + Seconds(t + 1, h)
  }

  /** Each pass comes no later than the next event that the one before it found, up to h; none misses a change. */
  ghost predicate PromptFor(s: S.Schedule, times: seq<int>, h: int)
    reads s.absolute, s.weekly
    decreases |times|
  {
    && times != [] && SteadySchedule(s, times[0])
    && if |times| == 1 then times[0] < h <= NextEvent(s, times[0])
       else times[0] <= times[1] <= NextEvent(s, times[0]) && PromptFor(s, times[1..], h)
  }

  lemma {:induction false} PromptEnds(s: S.Schedule, times: seq<int>, h: int)
    requires PromptFor(s, times, h)
    ensures times[0] < h
    decreases |times|
  {
    hide SteadySchedule, NextEvent;
    if |times| > 1 {
      PromptEnds(s, times[1..], h);
    }
  }

  /** While what is blocked stays, passes tell nothing. */
  lemma {:induction false} NothingToTell(s: S.Schedule, blocked: Macs, t: int, until: int, h: int)
    requires t <= until <= h && forall u :: t <= u < until ==> VerdictAt(s, u) == blocked
    ensures Told(s, blocked, Seconds(t, h)) == Told(s, blocked, Seconds(until, h))
    decreases until - t
  {
    hide VerdictAt;
    if t < until {
      assert Seconds(t, h)[1..] == Seconds(t + 1, h);
      NothingToTell(s, blocked, t + 1, until, h);
    }
  }

  /**
   Sleeping until the next event equals polling over whole runs: the firewall is told the same
   block lists at the same seconds as by a pass every second.
   */
  lemma {:induction false} PromptPassesTellLikePolling(s: S.Schedule, blocked: Macs, times: seq<int>, h: int)
    requires PromptFor(s, times, h)
    ensures Told(s, blocked, times) == Told(s, blocked, Seconds(times[0], h))
    decreases |times|
  {
    hide VerdictAt, SteadySchedule, NextEvent;
    var t := times[0];
    var verdict := VerdictAt(s, t);
    PromptEnds(s, times, h);
    var until := if |times| == 1 then h else times[1];
    forall u | t <= u < until
      ensures VerdictAt(s, u) == verdict
    {
      SteadyVerdict(s, t, u);
    }
    assert Seconds(t, h)[1..] == Seconds(t + 1, h);
    NothingToTell(s, verdict, t, t + (if until > t then 1 else 0), h);
    if |times| == 1 {
      NothingToTell(s, verdict, t, h, h);
      assert Told(s, verdict, times[1..]) == [];
      assert Told(s, verdict, Seconds(h, h)) == [];
    } else {
      PromptEnds(s, times[1..], h);
      PromptPassesTellLikePolling(s, verdict, times[1..], h);
      NothingToTell(s, verdict, t, until, h);
    }
    StartOver(s, blocked, t, h);
  }

  lemma ToldFirst(s: S.Schedule, blocked: Macs, t: int, rest: seq<int>)
    ensures var verdict := VerdictAt(s, t);
            Told(s, blocked, [t] + rest) == (if verdict != blocked then [(t, verdict)] else []) + Told(s, verdict, rest)
  {
    hide VerdictAt;
    assert ([t] + rest)[1..] == rest;
  }

  lemma StartOver(s: S.Schedule, blocked: Macs, t: int, h: int)
    requires t < h
    ensures var verdict := VerdictAt(s, t);
            Told(s, blocked, Seconds(t, h))
              == (if verdict != blocked then [(t, verdict)] else []) + Told(s, verdict, Seconds(t, h))
  {
    hide VerdictAt, Told;
    ToldFirst(s, blocked, t, Seconds(t + 1, h));
    ToldFirst(s, VerdictAt(s, t), t, Seconds(t + 1, h));
  }

  lemma SteadyVerdict(s: S.Schedule, t: int, u: int)
    requires SteadySchedule(s, t) && t <= u < NextEvent(s, t)
    ensures VerdictAt(s, u) == VerdictAt(s, t)
  {
    hide SteadySchedule, S.NextUnixtime, VerdictAt;
    SleepKeepsVerdictOf(s, t, NextEvent(s, t), u);
  }

  /** So the scheduler's firewall log is that of a scheduler that never sleeps. */
  lemma FirewallLogIsPolled(m: Machine, s: S.Schedule, times: seq<int>, h: int)
    requires m.current == s && PromptFor(s, times, h)
    ensures RunFrom(m, Passes(s, times)).firewall == RunFrom(m, Passes(s, Seconds(times[0], h))).firewall
    ensures Told(s, m.blocked, times) == Told(s, m.blocked, Seconds(times[0], h))
  {
    hide RunFrom, Passes, Told, SteadySchedule, NextEvent;
    PassesTell(m, s, times);
    PassesTell(m, s, Seconds(times[0], h));
    PromptPassesTellLikePolling(s, m.blocked, times, h);
  }
}
