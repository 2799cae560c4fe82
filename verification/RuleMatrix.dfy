/**
 The rule matrix (src/aker_notification.c, the log lines of build_periods_for_mac): which
 notifications a period gets over a whole run, and when.
 */
module RuleMatrix {
  import opened Periods
  import opened PeriodProperties
  import opened Dispatch
  import opened DispatchLedger
  import opened DispatchProperties
  import opened DispatchRoom
  import opened DispatchRuns
  import opened Time

  ghost predicate AllClear(rows: seq<seq<Cell>>) {
    forall i, j :: 0 <= i < |rows| && 0 <= j < |rows[i]| ==> rows[i][j].flags == CLEAR
  }

  function Max(a: int, b: int): int {
    if a < b then b else a
  }

  /** A run from t0 on sends this notification of period p at second x. */
  predicate Due(slot: Slot, periods: seq<Period>, p: Period, t0: int, x: int) {
    && x == Max(t0, Trigger(slot, p)) && x - Trigger(slot, p) <= LATE && x <= p.end
    && !Skipped(slot, p) && !Silent(slot, p) && Changes(slot, periods, p, x)
  }

  /** The timelines before the dispatch at s of a run that polls from t0 on. */
  ghost function PollRows(rows: seq<seq<Cell>>, t0: int, s: int): (r: seq<seq<Cell>>)
    requires t0 <= s
    ensures |r| == |rows|
    decreases s - t0
  {
    if s == t0 then rows else RowsAfter(PollRows(rows, t0, s - 1), s - 1)
  }

  /** The periods stay, and a flag is set from the second after its notification was looked at. */
  ghost predicate FlagsFollowTime(rows: seq<seq<Cell>>, polled: seq<seq<Cell>>, t0: int, s: int) {
    && |polled| == |rows|
    && (forall i :: 0 <= i < |rows| ==> |polled[i]| == |rows[i]|)
    && forall i, j, slot :: 0 <= i < |rows| && 0 <= j < |rows[i]| ==>
         && polled[i][j].period == rows[i][j].period
         && var p := rows[i][j].period;
            Flag(slot, polled[i][j].flags) <==> !Skipped(slot, p) && Max(t0, Trigger(slot, p)) < s && t0 <= p.end
  }

  lemma {:induction false} PolledFlags(rows: seq<seq<Cell>>, t0: int, s: int)
    requires Roomy(rows) && AllClear(rows) && t0 <= s
    ensures Roomy(PollRows(rows, t0, s)) && FlagsFollowTime(rows, PollRows(rows, t0, s), t0, s)
    decreases s - t0
  {
    if s == t0 {
      assert forall slot :: !Flag(slot, CLEAR);
    } else {
      hide RowsAfter, Changes, Silent, Roomy, PollRows;
      PolledFlags(rows, t0, s - 1);
      PolledStep(rows, PollRows(rows, t0, s - 1), t0, s - 1);
      assert PollRows(rows, t0, s) == RowsAfter(PollRows(rows, t0, s - 1), s - 1) by {
        PollRowsUnfolds(rows, t0, s);
      }
    }
  }

  lemma PollRowsUnfolds(rows: seq<seq<Cell>>, t0: int, s: int)
    requires t0 < s
    ensures PollRows(rows, t0, s) == RowsAfter(PollRows(rows, t0, s - 1), s - 1)
  {}

  lemma PolledStep(rows: seq<seq<Cell>>, polled: seq<seq<Cell>>, t0: int, x: int)
    requires Roomy(rows) && Roomy(polled) && FlagsFollowTime(rows, polled, t0, x) && t0 <= x
    ensures Roomy(RowsAfter(polled, x)) && FlagsFollowTime(rows, RowsAfter(polled, x), t0, x + 1)
  {
    hide RowsAfter, Changes, Silent;
    DispatchIsComplete(polled, x);
    forall i, j, slot | 0 <= i < |rows| && 0 <= j < |rows[i]|
      ensures var p := rows[i][j].period;
              Flag(slot, RowsAfter(polled, x)[i][j].flags) <==>
                !Skipped(slot, p) && Max(t0, Trigger(slot, p)) < x + 1 && t0 <= p.end
    {
      assert PeriodsIn(rows[i])[j] == rows[i][j].period;
      assert RowsAfter(polled, x)[i][j] == Evolved(PeriodsIn(polled[i]), polled[i][j], x);
    }
  }

  lemma SamePeriods(rows: seq<seq<Cell>>, polled: seq<seq<Cell>>, t0: int, s: int, i: nat)
    requires FlagsFollowTime(rows, polled, t0, s) && i < |rows|
    ensures PeriodsIn(polled[i]) == PeriodsIn(rows[i])
  {
    hide Flag, Skipped, Trigger;
    assert forall j :: 0 <= j < |rows[i]| ==> polled[i][j].period == rows[i][j].period by {
      forall j | 0 <= j < |rows[i]|
        ensures polled[i][j].period == rows[i][j].period
      {
        assert Flag(SoonSlot, polled[i][j].flags) || !Flag(SoonSlot, polled[i][j].flags);
      }
    }
  }

  /** At second x of the run the period's check for kind k sends exactly if it is due. */
  lemma SendsWhenDue(rows: seq<seq<Cell>>, t0: int, x: int, i: nat, j: nat, k: Kind)
    requires Roomy(rows) && AllClear(rows) && t0 <= x && i < |rows| && j < |rows[i]|
    ensures |PollRows(rows, t0, x)[i]| == |rows[i]|
    ensures Sends(k, PollRows(rows, t0, x)[i], j, x) <==>
              KindOf(SlotOf(k), rows[i][j].period) == k &&
              Due(SlotOf(k), PeriodsIn(rows[i]), rows[i][j].period, t0, x)
    ensures PollRows(rows, t0, x)[i][j].period == rows[i][j].period
  {
    hide Changes, Silent, PollRows;
    PolledFlags(rows, t0, x);
    SamePeriods(rows, PollRows(rows, t0, x), t0, x, i);
    assert PeriodsIn(rows[i])[j] == rows[i][j].period;
    assert PeriodsIn(PollRows(rows, t0, x)[i])[j] == PollRows(rows, t0, x)[i][j].period;
  }

  // ---------- From the log to the periods ----------

  ghost predicate Mentions(log: seq<Sent>, k: Kind, mac: nat, time: int) {
    exists a :: 0 <= a < |log| && log[a].kind == k && log[a].time == time && mac in log[a].macs
  }

  lemma {:induction false} MentionsArePairs(log: seq<Sent>, k: Kind, mac: nat, time: int)
    ensures Mentions(log, k, mac, time) <==> (mac, time) in Pairs(log, k)
  {
    if log != [] {
      var front, last := log[..|log| - 1], log[|log| - 1];
      MentionsArePairs(front, k, mac, time);
      TaggedMembers(last.macs, last.time, mac, time);
      if Mentions(log, k, mac, time) {
        var a :| 0 <= a < |log| && log[a].kind == k && log[a].time == time && mac in log[a].macs;
        assert a < |front| ==> front[a] == log[a];
      }
      if Mentions(front, k, mac, time) {
        var a :| 0 <= a < |front| && front[a].kind == k && front[a].time == time && mac in front[a].macs;
        assert log[a] == front[a];
      }
    }
  }

  lemma TaggedMembers(macs: seq<nat>, t: int, mac: nat, time: int)
    ensures (mac, time) in Tagged(macs, t) <==> mac in macs && time == t
  {
    if mac in macs && time == t {
      var a :| 0 <= a < |macs| && macs[a] == mac;
      assert Tagged(macs, t)[a] == (mac, time);
    }
  }

  lemma {:induction false} ProjectMembers(ledger: seq<Entry>, k: Kind, mac: nat, time: int)
    ensures (mac, time) in Project(ledger, k) <==>
              exists e :: e in ledger && e.kind == k && e.mac == mac && e.time == time
  {
    if ledger != [] {
      ProjectMembers(ledger[..|ledger| - 1], k, mac, time);
      assert ledger == ledger[..|ledger| - 1] + [ledger[|ledger| - 1]];
    }
  }

  /** What one dispatch reports, for any timelines with room. */
  lemma DispatchReports(rows: seq<seq<Cell>>, x: int, k: Kind, mac: nat, time: int)
    requires Roomy(rows)
    ensures Mentions(LogOf(rows, x), k, mac, time) <==>
              mac < |rows| && exists j :: 0 <= j < |rows[mac]| && Sends(k, rows[mac], j, x) &&
                                         time == Scheduled(SlotOf(k), rows[mac][j].period)
  {
    hide LogOf, LedgerOf, Judge, KindOf, Scheduled, Roomy, Mentions;
    BatchesConserve(rows, x, k);
    MentionsArePairs(LogOf(rows, x), k, mac, time);
    ProjectMembers(LedgerOf(rows, x), k, mac, time);
    DispatchIsComplete(rows, x);
    if e :| e in LedgerOf(rows, x) && e.kind == k && e.mac == mac && e.time == time {
      LedgerIsGenuine(rows, x, e);
      assert Sends(k, rows[mac], e.index, x);
    }
    if mac < |rows| {
      forall j | 0 <= j < |rows[mac]| && Sends(k, rows[mac], j, x)
        ensures EntryFor(k, rows[mac], mac, j) in LedgerOf(rows, x)
      {}
    }
  }

  ghost predicate Reported(log: seq<Timed>, x: int, k: Kind, mac: nat, time: int) {
    exists a :: 0 <= a < |log| && log[a].at == x && log[a].sent.kind == k && log[a].sent.time == time &&
        mac in log[a].sent.macs
  }

  lemma ReportedAppends(first: seq<Timed>, second: seq<Timed>, x: int, k: Kind, mac: nat, time: int)
    ensures Reported(first + second, x, k, mac, time) <==>
              Reported(first, x, k, mac, time) || Reported(second, x, k, mac, time)
  {
    var all := first + second;
    assert forall a :: 0 <= a < |first| ==> all[a] == first[a];
    assert forall a :: 0 <= a < |second| ==> all[|first| + a] == second[a];
  }

  lemma StampedReports(log: seq<Sent>, t: int, x: int, k: Kind, mac: nat, time: int)
    ensures Reported(Stamped(log, t), x, k, mac, time) <==> x == t && Mentions(log, k, mac, time)
  {
    assert forall a :: 0 <= a < |log| ==> Stamped(log, t)[a] == Timed(t, log[a]);
  }

  lemma {:induction false} PollReports(rows: seq<seq<Cell>>, t0: int, t: int, h: int, x: int, k: Kind, mac: nat,
                                       time: int)
    requires t0 <= t
    ensures Reported(PollLog(PollRows(rows, t0, t), t, h), x, k, mac, time) <==>
              t <= x < h && Mentions(LogOf(PollRows(rows, t0, x), x), k, mac, time)
    decreases h - t
  {
    hide LogOf, RowsAfter, Reported, Mentions;
    if t < h {
      var now := PollRows(rows, t0, t);
      PollReports(rows, t0, t + 1, h, x, k, mac, time);
      PollRowsUnfolds(rows, t0, t + 1);
      ReportedAppends(Stamped(LogOf(now, t), t), PollLog(RowsAfter(now, t), t + 1, h), x, k, mac, time);
      StampedReports(LogOf(now, t), t, x, k, mac, time);
    } else {
      NothingReported(x, k, mac, time);
    }
  }

  lemma NothingReported(x: int, k: Kind, mac: nat, time: int)
    ensures !Reported([], x, k, mac, time)
  {}

  /** MAC i has a period for which kind k is due at second x, reporting this time. */
  ghost predicate SomeDue(rows: seq<seq<Cell>>, t0: int, x: int, k: Kind, i: nat, time: int)
    requires i < |rows|
  {
    exists j :: 0 <= j < |rows[i]| && KindOf(SlotOf(k), rows[i][j].period) == k &&
                Due(SlotOf(k), PeriodsIn(rows[i]), rows[i][j].period, t0, x) &&
                time == Scheduled(SlotOf(k), rows[i][j].period)
  }

  /**
   Over a run that starts at t0 with no flag set and dispatches at every wake-up, a notification
   for a MAC goes out at second x exactly if one of its periods makes it due then.
   */
  lemma RunReportsWhatIsDue(rows: seq<seq<Cell>>, t0: int, h: int, x: int, k: Kind, i: nat, time: int)
    requires Roomy(rows) && AllClear(rows) && t0 < h <= INT_MAX
    ensures Reported(WakeLog(rows, t0, h), x, k, i, time) <==>
              t0 <= x < h && i < |rows| && SomeDue(rows, t0, x, k, i, time)
  {
    hide Reported, Mentions, LogOf, Roomy, AllClear, Due, KindOf, Scheduled, Sends, PeriodsIn;
    WakingEqualsPolling(rows, t0, h);
    PollReports(rows, t0, t0, h, x, k, i, time);
    if t0 <= x < h {
      PolledFlags(rows, t0, x);
      var polled := PollRows(rows, t0, x);
      DispatchReports(polled, x, k, i, time);
      if i < |rows| {
        assert |polled[i]| == |rows[i]|;
        forall j | 0 <= j < |rows[i]|
          ensures Sends(k, polled[i], j, x) <==>
                    KindOf(SlotOf(k), rows[i][j].period) == k &&
                    Due(SlotOf(k), PeriodsIn(rows[i]), rows[i][j].period, t0, x)
          ensures polled[i][j].period == rows[i][j].period
        {
          SendsWhenDue(rows, t0, x, i, j, k);
        }
      }
    }
  }

  // ---------- The matrix ----------

  /**
   The notifications that a period calls for at second x, by who controls its ends and by its
   length.  The start is announced in advance only to a MAC that is not blocked then.
   */
  ghost predicate CallsFor(slot: Slot, periods: seq<Period>, p: Period, x: int) {
    match slot
    case SoonSlot => !p.startAbsolute && p.end - p.start >= ADVANCE && !Covered(periods, x)
    case StartSlot => !p.startAbsolute && x < p.end
    case EndSoonSlot => !p.endAbsolute && p.end - p.start >= ADVANCE
    case EndSlot => x == p.end
  }

  /**
   In a run that starts at t0, each notification the period calls for is due at exactly one
   second, its own time or t0 if that is at most five seconds later, and no other is ever due.
   */
  lemma MatrixHolds(periods: seq<Period>, j: nat, slot: Slot, t0: int, x: int)
    requires WellFormed(periods) && j < |periods|
    ensures var p := periods[j];
            Due(slot, periods, p, t0, x) <==>
              x == Max(t0, Trigger(slot, p)) && x - Trigger(slot, p) <= LATE && CallsFor(slot, periods, p, x)
  {
    hide WellFormed, BlockedIn, Covered;
    var p := periods[j];
    LookupIsExact(periods, x);
    LookupIsExact(periods, p.start);
    LookupIsExact(periods, p.end);
    LookupIsExact(periods, p.end - 1);
    InOwnPeriod(periods, j);
  }

  /** A period covers its own instants, and nothing covers its end. */
  lemma InOwnPeriod(periods: seq<Period>, j: nat)
    requires WellFormed(periods) && j < |periods|
    ensures periods[j].start < periods[j].end && !Covered(periods, periods[j].end)
    ensures forall u :: Within(periods[j], u) ==> Covered(periods, u)
  {}

  /** MAC i has a period that calls for kind k at second x of a run from t0 on, reporting this time. */
  ghost predicate SomeCalls(rows: seq<seq<Cell>>, t0: int, x: int, k: Kind, i: nat, time: int)
    requires i < |rows|
  {
    exists j :: 0 <= j < |rows[i]| &&
                var p, slot := rows[i][j].period, SlotOf(k);
                && KindOf(slot, p) == k && time == Scheduled(slot, p)
                && x == Max(t0, Trigger(slot, p)) && x - Trigger(slot, p) <= LATE
                && CallsFor(slot, PeriodsIn(rows[i]), p, x)
  }

  /** The rule matrix over a whole run, whatever the periods that are open when it starts. */
  lemma RunFollowsMatrix(rows: seq<seq<Cell>>, t0: int, h: int, x: int, k: Kind, i: nat, time: int)
    requires Roomy(rows) && AllClear(rows) && t0 < h <= INT_MAX
    ensures Reported(WakeLog(rows, t0, h), x, k, i, time) <==>
              t0 <= x < h && i < |rows| && SomeCalls(rows, t0, x, k, i, time)
  {
    hide Reported, Due, CallsFor, KindOf, Scheduled, Trigger, WellFormed;
    RunReportsWhatIsDue(rows, t0, h, x, k, i, time);
    if i < |rows| {
      forall j | 0 <= j < |rows[i]|
        ensures var slot, p := SlotOf(k), rows[i][j].period;
                Due(slot, PeriodsIn(rows[i]), p, t0, x) <==>
                  x == Max(t0, Trigger(slot, p)) && x - Trigger(slot, p) <= LATE &&
                    CallsFor(slot, PeriodsIn(rows[i]), p, x)
      {
        assert PeriodsIn(rows[i])[j] == rows[i][j].period;
        MatrixHolds(PeriodsIn(rows[i]), j, SlotOf(k), t0, x);
      }
    }
  }

  /**
   The matrix by kind: for period p of a MAC with these periods a run from t0 on sends k at second x,
   reporting this time.  The advance of 900 s and the grace of 5 s are written out.
   */
  ghost predicate Announced(k: Kind, periods: seq<Period>, p: Period, t0: int, x: int, time: int) {
    match k
    case StartingSoon =>
      && !p.startAbsolute && p.end - p.start >= 900 && time == p.start
      && x == Max(t0, p.start - 900) && x <= p.start - 895 && !Covered(periods, x)
    case Started =>
      !p.startAbsolute && time == p.start && x == Max(t0, p.start) && x <= p.start + 5 && x < p.end
    case EndingSoon =>
      && !p.endAbsolute && p.end - p.start >= 900 && time == p.end
      && x == Max(t0, p.end - 900) && x <= p.end - 895
    case Ended => !p.endAbsolute && time == p.end && x == p.end && t0 <= x
    case NonRecurringUnpaused => p.endAbsolute && time == p.end && x == p.end && t0 <= x
  }

  lemma MatrixByKind(k: Kind, periods: seq<Period>, p: Period, t0: int, x: int, time: int)
    ensures Announced(k, periods, p, t0, x, time) <==>
              var slot := SlotOf(k);
              && KindOf(slot, p) == k && time == Scheduled(slot, p)
              && x == Max(t0, Trigger(slot, p)) && x - Trigger(slot, p) <= LATE
              && CallsFor(slot, periods, p, x)
  {}

  /** Over a whole run, which notification goes out for what, when, and with which time. */
  lemma RunFollowsKinds(rows: seq<seq<Cell>>, t0: int, h: int, x: int, k: Kind, i: nat, time: int)
    requires Roomy(rows) && AllClear(rows) && t0 < h <= INT_MAX
    ensures Reported(WakeLog(rows, t0, h), x, k, i, time) <==>
              && t0 <= x < h && i < |rows|
              && exists j :: 0 <= j < |rows[i]| && Announced(k, PeriodsIn(rows[i]), rows[i][j].period, t0, x, time)
  {
    hide Reported, CallsFor, KindOf, Scheduled, Trigger, Roomy, AllClear, Announced;
    RunFollowsMatrix(rows, t0, h, x, k, i, time);
    if i < |rows| {
      forall j | 0 <= j < |rows[i]|
        ensures var p, slot := rows[i][j].period, SlotOf(k);
                Announced(k, PeriodsIn(rows[i]), p, t0, x, time) <==>
                  && KindOf(slot, p) == k && time == Scheduled(slot, p)
                  && x == Max(t0, Trigger(slot, p)) && x - Trigger(slot, p) <= LATE
                  && CallsFor(slot, PeriodsIn(rows[i]), p, x)
      {
        MatrixByKind(k, PeriodsIn(rows[i]), rows[i][j].period, t0, x, time);
      }
    }
  }

  // ---------- A timeline that takes over ----------

  /** When a notification of kind k that reports this time is due. */
  function DueTime(k: Kind, time: int): int {
    if k.StartingSoon? || k.EndingSoon? then time - ADVANCE else time
  }

  lemma DueTimeIsTrigger(k: Kind, p: Period)
    ensures KindOf(SlotOf(k), p) == k ==> Trigger(SlotOf(k), p) == DueTime(k, Scheduled(SlotOf(k), p))
  {}

  /** MAC i has a period that calls for kind k at second y and reports this time. */
  ghost predicate StillCalls(rows: seq<seq<Cell>>, y: int, k: Kind, i: nat, time: int)
    requires i < |rows|
  {
    exists j :: 0 <= j < |rows[i]| &&
                var p, slot := rows[i][j].period, SlotOf(k);
                KindOf(slot, p) == k && time == Scheduled(slot, p) && CallsFor(slot, PeriodsIn(rows[i]), p, y)
  }

  /** The matrix by the time reported. */
  lemma ReportedAtDueTime(rows: seq<seq<Cell>>, t0: int, h: int, x: int, k: Kind, i: nat, time: int)
    requires Roomy(rows) && AllClear(rows) && t0 < h <= INT_MAX
    ensures Reported(WakeLog(rows, t0, h), x, k, i, time) <==>
              x == Max(t0, DueTime(k, time)) < h && x - DueTime(k, time) <= LATE && i < |rows| &&
                StillCalls(rows, x, k, i, time)
  {
    hide Reported, CallsFor, KindOf, Scheduled, Trigger, Roomy, AllClear, DueTime;
    RunFollowsMatrix(rows, t0, h, x, k, i, time);
    if i < |rows| {
      forall j | 0 <= j < |rows[i]|
        ensures var p := rows[i][j].period;
                KindOf(SlotOf(k), p) == k ==> Trigger(SlotOf(k), p) == DueTime(k, Scheduled(SlotOf(k), p))
      {
        DueTimeIsTrigger(k, rows[i][j].period);
      }
    }
  }

  /**
   A new timeline has every flag clear.  A notification that was due by the time now when it was
   built is sent from it exactly if the first dispatch, at y, comes within five seconds of the
   due time and the period calls for it then; and in that dispatch.
   */
  lemma TakesOverAgain(rows: seq<seq<Cell>>, now: int, y: int, h: int, x: int, k: Kind, i: nat, time: int)
    requires Roomy(rows) && AllClear(rows) && now <= y < h <= INT_MAX && DueTime(k, time) <= now
    ensures Reported(WakeLog(rows, y, h), x, k, i, time) <==>
              x == y && y - DueTime(k, time) <= LATE && i < |rows| && StillCalls(rows, y, k, i, time)
  {
    hide Reported, StillCalls, Roomy, AllClear, WakeLog, DueTime;
    ReportedAtDueTime(rows, y, h, x, k, i, time);
  }

  /** What the first dispatch of a new timeline, at y, sends. */
  lemma FirstDispatch(rows: seq<seq<Cell>>, y: int, k: Kind, i: nat, time: int)
    requires Roomy(rows) && AllClear(rows)
    ensures Mentions(LogOf(rows, y), k, i, time) <==>
              DueTime(k, time) <= y <= DueTime(k, time) + LATE && i < |rows| && StillCalls(rows, y, k, i, time)
  {
    hide Mentions, CallsFor, LogOf, Changes, Silent, Roomy, AllClear;
    DispatchReports(rows, y, k, i, time);
    if i < |rows| {
      forall j | 0 <= j < |rows[i]|
        ensures var p, slot := rows[i][j].period, SlotOf(k);
                Sends(k, rows[i], j, y) <==>
                  KindOf(slot, p) == k && Trigger(slot, p) <= y <= Trigger(slot, p) + LATE &&
                    CallsFor(slot, PeriodsIn(rows[i]), p, y)
      {
        FirstSends(rows, y, k, i, j);
      }
    }
  }

  lemma FirstSends(rows: seq<seq<Cell>>, y: int, k: Kind, i: nat, j: nat)
    requires Roomy(rows) && AllClear(rows) && i < |rows| && j < |rows[i]|
    ensures var p, slot := rows[i][j].period, SlotOf(k);
            Sends(k, rows[i], j, y) <==>
              KindOf(slot, p) == k && Trigger(slot, p) <= y <= Trigger(slot, p) + LATE &&
                CallsFor(slot, PeriodsIn(rows[i]), p, y)
  {
    hide Changes, Silent, CallsFor, KindOf;
    assert PeriodsIn(rows[i])[j] == rows[i][j].period;
    assert !Flag(SlotOf(k), CLEAR);
    MatrixHolds(PeriodsIn(rows[i]), j, SlotOf(k), y, y);
  }

  /** With a weekly start at this very second a new timeline has the scheduler wake at once. */
  lemma RebuildAnnouncesAtOnce(rows: seq<seq<Cell>>, now: int, i: nat, j: nat)
    requires AllClear(rows) && i < |rows| && j < |rows[i]| && now < INT_MAX
    requires rows[i][j].period.start == now < rows[i][j].period.end && !rows[i][j].period.startAbsolute
    ensures NextTime(rows, now) == now
  {
    hide LogOf, RowsAfter;
    assert !Flag(StartSlot, CLEAR);
    assert Pending(StartSlot, rows[i][j], now);
    NextIsLeast(rows, now, i, j, StartSlot);
    RowsAreLeast(rows, |rows|, now);
  }

  ghost predicate EverReported(log: seq<Timed>, k: Kind, mac: nat, time: int) {
    exists x :: Reported(log, x, k, mac, time)
  }

  lemma EverReportedAtDueTime(rows: seq<seq<Cell>>, t0: int, h: int, k: Kind, i: nat, time: int)
    requires Roomy(rows) && AllClear(rows) && t0 < h <= INT_MAX
    ensures EverReported(WakeLog(rows, t0, h), k, i, time) <==>
              var x := Max(t0, DueTime(k, time));
              x < h && x - DueTime(k, time) <= LATE && i < |rows| && StillCalls(rows, x, k, i, time)
  {
    hide Reported, StillCalls, Roomy, AllClear, WakeLog, DueTime, Max;
    var x := Max(t0, DueTime(k, time));
    ReportedAtDueTime(rows, t0, h, x, k, i, time);
    if y :| Reported(WakeLog(rows, t0, h), y, k, i, time) {
      ReportedAtDueTime(rows, t0, h, y, k, i, time);
    }
  }

  /**
   At-most-once holds per timeline only: a new one has every flag clear.  Of what the old timeline
   reported in a run from t0 until it was replaced at now, the new one, first dispatched at y,
   reports exactly this again: what was due at most five seconds before y, if the new timeline has
   a period that calls for it still.
   */
  lemma RebuildRepeats(former: seq<seq<Cell>>, t0: int, rows: seq<seq<Cell>>, now: int, y: int, h: int, k: Kind,
                       i: nat, time: int)
    requires Roomy(former) && AllClear(former) && Roomy(rows) && AllClear(rows)
    requires t0 <= now <= y < h <= INT_MAX && EverReported(WakeLog(former, t0, now + 1), k, i, time)
    ensures EverReported(WakeLog(rows, y, h), k, i, time) <==>
              y - DueTime(k, time) <= LATE && i < |rows| && StillCalls(rows, y, k, i, time)
  {
    hide EverReported, StillCalls, Roomy, AllClear, WakeLog, DueTime;
    EverReportedAtDueTime(former, t0, now + 1, k, i, time);
    EverReportedAtDueTime(rows, y, h, k, i, time);
  }
}
