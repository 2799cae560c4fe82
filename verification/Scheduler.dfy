/**
 The scheduler (src/scheduler.c).  Its thread and process_schedule_data take one mutex, so a run
 is any sequence of whole steps: a schedule arrives, is removed or fails to decode, or the thread
 wakes up.  Machine says what each step does to the shared state; Scheduler is the code.
 */
module Scheduler {
  import opened Time
  import opened Lists
  import S = Schedule
  import opened ScheduleProperties
  import Timeline
  import Dispatch
  import Notifier

  const REBUILD_AFTER := 10 * DAY

  type Macs = S.Option<string>

  /** A call of the dispatcher: with which schedule, and from which one its timeline was built. */
  datatype DispatchCall = DispatchCall(schedule: S.Schedule?, builtFrom: S.Schedule?)

  /** A notification timeline: the schedule it was built from, its periods and flags, and its age. */
  datatype Built = Built(schedule: S.Schedule?, rows: seq<seq<Dispatch.Cell>>, createdAt: int)

  datatype Machine = Machine(
    current: S.Schedule?,          // current_schedule
    previous: S.Schedule?,         // previous_schedule of the thread
    blocked: Macs,                 // current_blocked_macs
    timeline: S.Option<Built>,     // notification_timeline
    firewall: seq<Macs>,           // every block list given to the firewall
    sent: seq<Dispatch.Sent>,      // every notification
    dispatches: seq<DispatchCall>)

  datatype Action =
    | Update(schedule: S.Schedule)   // a decoded schedule replaces the current one
    | Delete                         // an empty message removes it
    | Reject                         // a message that cannot be decoded
    // the thread runs: what the current schedule blocks now, and the timeline built from it now
    | Wake(now: int, verdict: Macs, rows: seq<seq<Dispatch.Cell>>)

  /** The thread has started and called the firewall with nothing blocked. */
  function Start(): Machine {
    Machine(null, null, S.None, S.None, [S.None], [], [])
  }

  function Next(m: Machine, a: Action): Machine {
    match a
    case Update(s) => m.(current := s)
    case Delete => m.(current := null)
    case Reject => m
    case Wake(now, verdict, rows) =>
      var observed := Observed(m, verdict);
      Notified(if m.current != m.previous then Refreshed(observed, now, rows) else observed, now, rows)
  }

  /** Note the current schedule and what it blocks; the firewall is called if that changed. */
  function Observed(m: Machine, verdict: Macs): Machine {
    var blocked := if m.current == null then S.None else verdict;
    m.(previous := m.current, blocked := blocked,
       firewall := if blocked != m.blocked then m.firewall + [blocked] else m.firewall)
  }

  /** A new schedule gets a new timeline; without a schedule there is none. */
  function Refreshed(m: Machine, now: int, rows: seq<seq<Dispatch.Cell>>): Machine {
    m.(timeline := if m.current == null then S.None else S.Some(Built(m.current, rows, now)))
  }

  /** Dispatch, if there are a timeline and a schedule, and replace a timeline older than ten days. */
  function Notified(m: Machine, now: int, rows: seq<seq<Dispatch.Cell>>): Machine {
    if m.timeline.Some? && m.current != null then
      var built := m.timeline.value;
      m.(sent := m.sent + Dispatch.LogOf(built.rows, now),
         dispatches := m.dispatches + [DispatchCall(m.current, built.schedule)],
         timeline := S.Some(if now - built.createdAt > REBUILD_AFTER then Built(m.current, rows, now)
                            else built.(rows := Dispatch.RowsAfter(built.rows, now))))
    else m
  }

  lemma WakeSetsBlocked(m: Machine, now: int, verdict: Macs, rows: seq<seq<Dispatch.Cell>>)
    ensures Next(m, Wake(now, verdict, rows)).blocked == if m.current == null then S.None else verdict
  {
    hide Dispatch.LogOf, Dispatch.RowsAfter;
  }

  /** Without a schedule the time does not matter. */
  lemma NothingWithoutSchedule(m: Machine, now: int, rows: seq<seq<Dispatch.Cell>>, other: int,
                               others: seq<seq<Dispatch.Cell>>)
    ensures m.current == null ==>
              && Refreshed(m, now, rows) == Refreshed(m, other, others)
              && Notified(m, now, rows) == Notified(m, other, others)
  {
    hide Dispatch.LogOf, Dispatch.RowsAfter;
  }

  function Run(actions: seq<Action>): Machine {
    if actions == [] then Start() else Next(Run(actions[..|actions| - 1]), actions[|actions| - 1])
  }

  ghost predicate Safe(m: Machine) {
    // the firewall was last told exactly what is recorded as blocked, and is told only of changes
    && m.firewall != [] && m.firewall[|m.firewall| - 1] == m.blocked
    && (forall i :: 0 < i < |m.firewall| ==> m.firewall[i - 1] != m.firewall[i])
    // notifications are only sent from a timeline of the schedule in force, and there is one for each schedule
    && (m.timeline.Some? <==> m.previous != null)
    && (m.timeline.Some? ==> m.timeline.value.schedule == m.previous)
    && (forall i :: 0 <= i < |m.dispatches| ==> m.dispatches[i].schedule == m.dispatches[i].builtFrom)
  }

  /** Every interleaving of updates, removals, failed updates and wake-ups is safe. */
  lemma {:induction false} RunsAreSafe(actions: seq<Action>)
    ensures Safe(Run(actions))
  {
    hide Safe, Next;
    if actions == [] {
      StartIsSafe();
    } else {
      RunsAreSafe(actions[..|actions| - 1]);
      StepsAreSafe(Run(actions[..|actions| - 1]), actions[|actions| - 1]);
    }
  }

  lemma StartIsSafe()
    ensures Safe(Start())
  {}

  lemma StepsAreSafe(m: Machine, a: Action)
    requires Safe(m)
    ensures Safe(Next(m, a))
  {
    hide Dispatch.LogOf, Dispatch.RowsAfter;
  }

  /** What a schedule blocks at a time. */
  ghost function BlockedBy(s: S.Schedule, u: int): Macs
    reads s.absolute, s.weekly
  {
    S.Blocked(s.macs, S.Choose(s.absolute.Contents(), s.weekly.Contents(), u, s.offset))
  }

  /** Sleeping until the next event, or less, keeps what the firewall was last told right. */
  lemma SleepKeepsVerdict(absolute: seq<S.Event>, weekly: seq<S.Event>, macs: seq<string>, offset: int, now: int,
                          wake: int, u: int)
    requires Steady(absolute, weekly, now, S.NextUnixtime(absolute, weekly, now, offset), offset)
    requires now <= u < wake <= S.NextUnixtime(absolute, weekly, now, offset)
    ensures S.Blocked(macs, S.Choose(absolute, weekly, u, offset)) ==
              S.Blocked(macs, S.Choose(absolute, weekly, now, offset))
  {
    hide S.Choose, S.NextUnixtime;
    var c, d := S.Choose(absolute, weekly, u, offset), S.Choose(absolute, weekly, now, offset);
    assert BlockList(c) == BlockList(d);
    SameBlockSameString(macs, c, d);
  }

  lemma SameBlockSameString(macs: seq<string>, c: S.Choice, d: S.Choice)
    requires BlockList(c) == BlockList(d)
    ensures S.Blocked(macs, c) == S.Blocked(macs, d)
  {}

  /**
   A weekly schedule is enforced at every second of a sleep if no event is at Sunday 00:00:00 or
   that event blocks what the last one of the week does.
   */
  lemma WeeklyScheduleStaysEnforced(base: seq<S.Event>, macs: seq<string>, offset: int, now: int, wake: int, u: int)
    requires WeeklyTimes(base) && base != [] && WeekStart(now, offset) + WEEK <= INT_MAX
    requires base[0].time > 0 || base[0].block == base[|base| - 1].block
    requires now <= u < wake <= S.NextUnixtime([], S.Finalized(base), now, offset)
    ensures S.Blocked(macs, S.Choose([], S.Finalized(base), u, offset))
              == S.Blocked(macs, S.Choose([], S.Finalized(base), now, offset))
  {
    hide S.Choose, S.NextUnixtime, S.Finalized;
    WakesOnTimeAt(base, now, offset);
    SleepKeepsVerdict([], S.Finalized(base), macs, offset, now, wake, u);
  }

  /** What a schedule blocks at a time; nothing without one. */
  ghost function VerdictAt(s: S.Schedule?, u: int): Macs
    reads if s == null then {} else {s.absolute, s.weekly}
  {
    if s == null then S.None else BlockedBy(s, u)
  }

  /** After a wake-up the firewall was last told what the current schedule blocks, or nothing without one. */
  lemma WakeEnforces(actions: seq<Action>, now: int, rows: seq<seq<Dispatch.Cell>>)
    ensures var before := Run(actions);
            var after := Run(actions + [Wake(now, VerdictAt(before.current, now), rows)]);
            && after.current == before.current && after.firewall != []
            && after.firewall[|after.firewall| - 1] == VerdictAt(before.current, now)
  {
    hide Dispatch.LogOf, Dispatch.RowsAfter, BlockedBy;
    var wake := Wake(now, VerdictAt(Run(actions).current, now), rows);
    RunsAreSafe(actions + [wake]);
    assert (actions + [wake])[..|actions|] == actions;
  }

  /** What each kind of message does to the whole state; the rest is up to the thread. */
  lemma MessagesTakeEffect(before: seq<Action>, s: S.Schedule)
    ensures Run(before + [Update(s)]) == Run(before).(current := s)
    ensures Run(before + [Delete]) == Run(before).(current := null)
    ensures Run(before + [Reject]) == Run(before)
  {
    assert (before + [Update(s)])[..|before|] == before;
    assert (before + [Delete])[..|before|] == before;
    assert (before + [Reject])[..|before|] == before;
  }

  ghost predicate Unblocked(m: Machine) {
    m.timeline == S.None && m.firewall != [] && m.firewall[|m.firewall| - 1] == S.None
  }

  /**
   An empty message removes the schedule.  From then on until another one arrives nothing is sent,
   and from the first wake-up on there is no timeline and the firewall was last told to block nothing.
   */
  lemma {:induction false} NothingAfterRemoval(before: seq<Action>, after: seq<Action>)
    requires forall i :: 0 <= i < |after| ==> !after[i].Update?
    ensures var r := Run(before + [Delete] + after);
            && r.current == null && r.sent == Run(before).sent && r.dispatches == Run(before).dispatches
            && ((exists i :: 0 <= i < |after| && after[i].Wake?) ==> Unblocked(r))
    decreases |after|
  {
    hide Next, Unblocked;
    if after == [] {
      assert (before + [Delete])[..|before|] == before && before + [Delete] + after == before + [Delete];
      RemovalStep(Run(before), Delete);
    } else {
      var front, last := after[..|after| - 1], after[|after| - 1];
      var all := before + [Delete] + after;
      assert all[..|all| - 1] == before + [Delete] + front;
      NothingAfterRemoval(before, front);
      RunsAreSafe(before + [Delete] + front);
      RemovalStep(Run(before + [Delete] + front), last);
      if i :| 0 <= i < |after| && after[i].Wake? {
        assert i < |front| ==> front[i].Wake?;
      }
    }
  }

  lemma RemovalStep(m: Machine, a: Action)
    requires a.Delete? || (!a.Update? && m.current == null && Safe(m))
    ensures var r := Next(m, a);
            && r.current == null && r.sent == m.sent && r.dispatches == m.dispatches
            && (Unblocked(m) || a.Wake? ==> Unblocked(r))
  {
    hide Dispatch.LogOf, Dispatch.RowsAfter;
  }

  /** A newly built timeline: the periods of every MAC, with no notification sent. */
  ghost function TimelineOf(absolute: seq<S.Event>, weekly: seq<S.Event>, count: nat, offset: int,
                            now: int): seq<seq<Dispatch.Cell>> {
    Notifier.ClearRows(seq(count, m requires 0 <= m < count =>
      Timeline.PeriodsOf(absolute, weekly, m, now, Timeline.MAX_WEEKS_AHEAD, offset)))
  }

  ghost function TimelineAt(s: S.Schedule?, now: int): seq<seq<Dispatch.Cell>>
    reads if s == null then {} else {s.absolute, s.weekly}
  {
    if s == null then [] else TimelineOf(s.absolute.Contents(), s.weekly.Contents(), |s.macs|, s.offset, now)
  }

  /**
   How long the thread sleeps when a pass at time now leaves state m: until the next report, event
   or notification, whichever is first.
   */
  ghost predicate SleepsUntil(m: Machine, now: int, nextReport: int, wake: int)
    reads if m.current == null then {} else {m.current.absolute, m.current.weekly}
  {
    && wake <= nextReport
    && wake <= NextEvent(m.current, now)
    && (m.timeline.Some? ==> wake <= Dispatch.NextTime(m.timeline.value.rows, now))
    && (|| wake == nextReport
        || wake == NextEvent(m.current, now)
        || (m.timeline.Some? && wake == Dispatch.NextTime(m.timeline.value.rows, now)))
  }

  /** get_next_unixtime, which also takes a null schedule. */
  ghost function NextEvent(s: S.Schedule?, now: int): int
    reads if s == null then {} else {s.absolute, s.weekly}
  {
    if s == null then INT_MAX else S.NextUnixtime(s.absolute.Contents(), s.weekly.Contents(), now, s.offset)
  }

  class Scheduler {
    var current: S.Schedule?
    var previous: S.Schedule?
    var blocked: Macs
    var timeline: Notifier.Collection?
    var unixTime: int
    var firewall: seq<Macs>
    var sent: seq<Dispatch.Sent>

    ghost var builtFrom: S.Schedule?
    ghost var dispatches: seq<DispatchCall>

    ghost function TimelineState(): S.Option<Built>
      reads this, if timeline == null then {} else timeline.Repr()
    {
      if timeline == null then S.None else S.Some(Built(builtFrom, timeline.Rows(), timeline.createdAt))
    }

    ghost function State(): Machine
      reads this, if timeline == null then {} else timeline.Repr()
    {
      Machine(current, previous, blocked, TimelineState(), firewall, sent, dispatches)
    }

    /** The objects of the current schedule. */
    ghost function ScheduleRepr(): set<object>
      reads this, if current == null then {} else {current.absolute, current.weekly}
    {
      if current == null then {}
      else {current, current.absolute, current.weekly}
           + (set n | n in current.absolute.nodes) + (set n | n in current.weekly.nodes)
    }

    ghost predicate Valid()
      reads this, ScheduleRepr()
    {
      && (current != null ==> current.Valid())
      && (timeline != null ==> Notifier.Separate(timeline.timelines))
    }

    constructor ()
      ensures Valid() && State() == Start()
    {
      current, previous, blocked, timeline := null, null, S.None, null;
      unixTime, sent := 0, [];
      firewall := [S.None];
      builtFrom, dispatches := null, [];
    }

    /** process_schedule_data; decodeError and decoded are what the decoder makes of a message that is not empty. */
    method ProcessScheduleData(len: nat, decodeError: int, decoded: S.Schedule?) returns (rv: int)
      requires Valid() && (decodeError == 0 ==> decoded != null && decoded.Valid())
      modifies this`current
      ensures Valid() && rv == if len == 0 then 0 else decodeError
      ensures current == if len == 0 then null else if decodeError == 0 then decoded else old(current)
      ensures var action := if len == 0 then Delete else if decodeError == 0 then Update(decoded) else Reject;
              State() == Next(old(State()), action)
    {
      rv := 0;
      if len == 0 {
        current := null;
      } else {
        rv := decodeError;
        if rv == 0 {
          current := decoded;
        }
      }
      assert timeline != null ==> timeline.Rows() == old(timeline.Rows());
    }

    /** Compares with what is recorded as blocked, and calls the firewall on a change. */
    method Enforce(verdict: Macs)
      modifies this`blocked, this`firewall
      ensures blocked == if current == null then S.None else verdict
      ensures firewall == if blocked != old(blocked) then old(firewall) + [blocked] else old(firewall)
    {
      var scheduleChanged := false;
      if current != null {
        if blocked == S.None {
          if verdict != S.None {
            blocked, scheduleChanged := verdict, true;
          }
        } else if verdict != S.None {
          if blocked.value != verdict.value {
            blocked, scheduleChanged := verdict, true;
          }
        } else {
          blocked, scheduleChanged := S.None, true;
        }
      } else if blocked != S.None {
        blocked, scheduleChanged := S.None, true;
      }
      if scheduleChanged {
        firewall := firewall + [blocked];
      }
    }

    /** Detects a new schedule, then looks up and enforces what is blocked now. */
    method Observe(now: int) returns (structureChanged: bool)
      requires Valid()
      modifies this`previous, this`unixTime, this`blocked, this`firewall
      ensures Valid() && (current != null ==> unixTime == now)
      ensures structureChanged == (current != old(previous))
      ensures State() == Observed(old(State()), VerdictAt(current, now))
    {
      hide S.Blocked, S.Choose, Notifier.Separate, Notifier.RowsOf, IsList;
      structureChanged := current != previous;
      previous := current;
      var verdict := S.None;
      if current != null {
        unixTime := now;
        verdict := S.GetBlockedAtTime(current, now);
      }
      Enforce(verdict);
      assert timeline != null ==> timeline.Rows() == old(timeline.Rows());
    }

    /** The timeline of the current schedule, built anew. */
    method Rebuild()
      requires Valid() && current != null
      modifies this`timeline, this`builtFrom
      ensures Valid() && timeline != null && fresh(timeline) && fresh(timeline.Repr())
      ensures TimelineState() == S.Some(Built(current, TimelineAt(current, unixTime), unixTime))
    {
      hide TimelineOf, Notifier.Separate;
      timeline := NewTimeline(current, unixTime);
      builtFrom := current;
    }

    method Refresh(structureChanged: bool)
      requires Valid()
      modifies this`timeline, this`builtFrom
      ensures Valid()
      ensures timeline == null || fresh(timeline.Repr()) || timeline == old(timeline)
      ensures State() == if structureChanged then Refreshed(old(State()), unixTime, TimelineAt(current, unixTime))
                         else old(State())
    {
      hide TimelineAt, Notifier.Separate;
      if structureChanged {
        timeline := null;
        if current != null {
          Rebuild();
        }
      }
    }

    /** Sends what is pending, then replaces a timeline that is more than ten days old. */
    method Notify()
      requires Valid()
      modifies this`sent, this`dispatches, this`timeline, this`builtFrom
      modifies if timeline == null then {} else timeline.Repr()
      ensures Valid() && (timeline == null || timeline == old(timeline) || fresh(timeline.Repr()))
      ensures State() == Notified(old(State()), unixTime, TimelineAt(current, unixTime))
    {
      hide Dispatch.LogOf, Dispatch.RowsAfter, Notifier.Separate, TimelineAt;
      if timeline != null && current != null {
        var log := timeline.SendPendingNotifications(unixTime);
        sent := sent + log;
        dispatches := dispatches + [DispatchCall(current, builtFrom)];
        if unixTime - timeline.createdAt > REBUILD_AFTER {
          Rebuild();
        }
      }
    }

    /** The pass up to the computation of the next wake-up time. */
    method Pass(now: int)
      requires Valid()
      modifies this, if timeline == null then {} else timeline.Repr()
      ensures Valid() && current == old(current) && (current != null ==> unixTime == now)
      ensures timeline == null || timeline == old(timeline) || fresh(timeline.Repr())
      ensures State() == Next(old(State()), Wake(now, VerdictAt(current, now), TimelineAt(current, now)))
    {
      hide Observed, Refreshed, Notified, VerdictAt, TimelineAt, TimelineState;
      hide Notifier.Separate, Notifier.Objects, Notifier.RowsOf, IsList;
      var structureChanged := Observe(now);
      NothingWithoutSchedule(State(), unixTime, TimelineAt(current, unixTime), now, TimelineAt(current, now));
      Refresh(structureChanged);
      NothingWithoutSchedule(State(), unixTime, TimelineAt(current, unixTime), now, TimelineAt(current, now));
      Notify();
    }

    /** The earliest of the next event, the next report and the next notification. */
    method NextWake(nextReport: int) returns (wake: int)
      requires Valid()
      ensures SleepsUntil(State(), unixTime, nextReport, wake)
    {
      hide Dispatch.NextTime, S.NextUnixtime;
      wake := INT_MAX;
      if current != null {
        wake := S.GetNextUnixtime(current, unixTime);
      }
      if nextReport < wake {
        wake := nextReport;
      }
      if timeline != null {
        var nextNotification := timeline.GetNextNotificationTime(unixTime);
        if nextNotification < wake {
          wake := nextNotification;
        }
      }
    }

    /** One pass of the thread's loop at time now; the report time is given. */
    method WakeUp(now: int, nextReport: int) returns (wake: int)
      requires Valid()
      modifies this, if timeline == null then {} else timeline.Repr()
      ensures Valid() && current == old(current) && (current != null ==> unixTime == now)
      ensures timeline == null || timeline == old(timeline) || fresh(timeline.Repr())
      ensures State() == Next(old(State()), Wake(now, VerdictAt(current, now), TimelineAt(current, now)))
      ensures SleepsUntil(State(), unixTime, nextReport, wake)
      ensures current != null && SteadySchedule(current, now) ==>
                forall u :: now <= u < wake ==> VerdictAt(current, u) == blocked
    {
      hide Next, S.NextUnixtime, VerdictAt, TimelineAt, Notifier.Separate, Notifier.RowsOf, Dispatch.NextTime, IsList;
      Pass(now);
      WakeSetsBlocked(old(State()), now, VerdictAt(current, now), TimelineAt(current, now));
      label Passed:
      wake := NextWake(nextReport);
      assert timeline != null ==> timeline.Rows() == old@Passed(timeline.Rows());
      if current != null && SteadySchedule(current, now) {
        forall u | now <= u < wake
          ensures VerdictAt(current, u) == blocked
        {
          SleepKeepsVerdictOf(current, now, wake, u);
        }
      }
    }
  }

  /** Nothing that the schedule blocks changes between now and the next event it reports. */
  ghost predicate SteadySchedule(s: S.Schedule, now: int)
    reads s.absolute, s.weekly
  {
    var absolute, weekly := s.absolute.Contents(), s.weekly.Contents();
    Steady(absolute, weekly, now, S.NextUnixtime(absolute, weekly, now, s.offset), s.offset)
  }

  lemma SleepKeepsVerdictOf(s: S.Schedule, now: int, wake: int, u: int)
    requires SteadySchedule(s, now)
    requires now <= u < wake <= S.NextUnixtime(s.absolute.Contents(), s.weekly.Contents(), now, s.offset)
    ensures VerdictAt(s, u) == VerdictAt(s, now)
  {
    hide Steady, S.NextUnixtime, S.Choose, S.Blocked;
    SleepKeepsVerdict(s.absolute.Contents(), s.weekly.Contents(), s.macs, s.offset, now, wake, u);
  }

  method NewTimeline(s: S.Schedule, now: int) returns (c: Notifier.Collection)
    requires s.Valid()
    ensures fresh(c) && fresh(c.Repr()) && Notifier.Separate(c.timelines) && c.createdAt == now
    ensures c.Rows() == TimelineAt(s, now)
  {
    hide Timeline.PeriodsOf, Notifier.Separate, Notifier.ClearRows;
    var r := Timeline.BuildTimelineFromSchedule(s, now, Timeline.MAX_WEEKS_AHEAD);
    c := new Notifier.Collection(r.value, now);
    ghost var absolute, weekly, count, offset := s.absolute.Contents(), s.weekly.Contents(), |s.macs|, s.offset;
    assert r.value == seq(count, m requires 0 <= m < count =>
      Timeline.PeriodsOf(absolute, weekly, m, now, Timeline.MAX_WEEKS_AHEAD, offset));
  }
}
