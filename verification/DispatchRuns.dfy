/**
 Runs of the dispatcher: waking only at get_next_notification_time sends what dispatching every
 second sends, and over such a run each period gets exactly the notifications it calls for.
 */
module DispatchRuns {
  import opened Periods
  import opened Dispatch
  import opened DispatchLedger
  import opened DispatchRoom
  import opened Time

  // ---------- Flags that do not matter ----------

  /** Equal but for the flags of slots that never send and are never waited for. */
  ghost predicate Similar(c: Cell, d: Cell) {
    c.period == d.period && forall slot :: Relevant(slot, c.period) ==> Flag(slot, c.flags) == Flag(slot, d.flags)
  }

  ghost predicate SimilarRow(row: seq<Cell>, other: seq<Cell>) {
    |row| == |other| && forall j :: 0 <= j < |row| ==> Similar(row[j], other[j])
  }

  ghost predicate SimilarRows(rows: seq<seq<Cell>>, others: seq<seq<Cell>>) {
    |rows| == |others| && forall i :: 0 <= i < |rows| ==> SimilarRow(rows[i], others[i])
  }

  lemma SimilarSlot(slot: Slot, periods: seq<Period>, mac: nat, index: nat, r: CellResult, s: CellResult, now: int)
    requires Similar(r.cell, s.cell) && r.out == s.out
    ensures var r', s' := CheckSlot(slot, periods, mac, index, r, now), CheckSlot(slot, periods, mac, index, s, now);
            Similar(r'.cell, s'.cell) && r'.out == s'.out
  {
    hide Flushed, Posted, KindOf, Scheduled, Changes, Trigger;
    SetFlagSets(slot, r.cell.flags);
    SetFlagSets(slot, s.cell.flags);
  }

  lemma SimilarCell(periods: seq<Period>, mac: nat, index: nat, r: CellResult, s: CellResult, now: int)
    requires Similar(r.cell, s.cell) && r.out == s.out
    ensures var r', s' := CheckCell(periods, mac, index, r, now), CheckCell(periods, mac, index, s, now);
            Similar(r'.cell, s'.cell) && r'.out == s'.out
  {
    hide CheckSlot, Similar;
    var r1 := CheckSlot(SoonSlot, periods, mac, index, r, now);
    var r2 := CheckSlot(StartSlot, periods, mac, index, r1, now);
    var r3 := CheckSlot(EndSoonSlot, periods, mac, index, r2, now);
    var s1 := CheckSlot(SoonSlot, periods, mac, index, s, now);
    var s2 := CheckSlot(StartSlot, periods, mac, index, s1, now);
    var s3 := CheckSlot(EndSoonSlot, periods, mac, index, s2, now);
    SimilarSlot(SoonSlot, periods, mac, index, r, s, now);
    SimilarSlot(StartSlot, periods, mac, index, r1, s1, now);
    SimilarSlot(EndSoonSlot, periods, mac, index, r2, s2, now);
    SimilarSlot(EndSlot, periods, mac, index, r3, s3, now);
  }

  lemma {:induction false} SimilarCheckRow(row: seq<Cell>, other: seq<Cell>, mac: nat, n: nat, now: int, out: Output)
    requires SimilarRow(row, other) && n <= |row|
    ensures var r, s := CheckRow(row, mac, n, now, out), CheckRow(other, mac, n, now, out);
            SimilarRow(r.row, s.row) && r.out == s.out
  {
    hide CheckCell, Similar;
    if n > 0 {
      SimilarCheckRow(row, other, mac, n - 1, now, out);
      assert PeriodsIn(row) == PeriodsIn(other) by {
        SimilarPeriods(row, other);
      }
      var o := CheckRow(row, mac, n - 1, now, out).out;
      SimilarCell(PeriodsIn(row), mac, n - 1, CellResult(row[n - 1], o), CellResult(other[n - 1], o), now);
    }
  }

  lemma SimilarPeriods(row: seq<Cell>, other: seq<Cell>)
    requires SimilarRow(row, other)
    ensures PeriodsIn(row) == PeriodsIn(other)
  {}

  lemma {:induction false} SimilarCheckAll(rows: seq<seq<Cell>>, others: seq<seq<Cell>>, n: nat, now: int)
    requires SimilarRows(rows, others) && n <= |rows|
    ensures var r, s := CheckAll(rows, n, now), CheckAll(others, n, now);
            SimilarRows(r.rows, s.rows) && r.out == s.out
  {
    hide CheckRow, SimilarRow;
    if n > 0 {
      SimilarCheckAll(rows, others, n - 1, now);
      assert |rows[n - 1]| == |others[n - 1]| by {
        SimilarLength(rows[n - 1], others[n - 1]);
      }
      SimilarCheckRow(rows[n - 1], others[n - 1], n - 1, |rows[n - 1]|, now, CheckAll(rows, n - 1, now).out);
    }
  }

  lemma SimilarLength(row: seq<Cell>, other: seq<Cell>)
    requires SimilarRow(row, other)
    ensures |row| == |other|
  {}

  /** Similar timelines send the same and stay similar. */
  lemma SimilarDispatch(rows: seq<seq<Cell>>, others: seq<seq<Cell>>, now: int)
    requires SimilarRows(rows, others)
    ensures LogOf(rows, now) == LogOf(others, now) && SimilarRows(RowsAfter(rows, now), RowsAfter(others, now))
  {
    hide CheckAll, SimilarRows;
    assert |rows| == |others| by {
      SimilarCount(rows, others);
    }
    SimilarCheckAll(rows, others, |rows|, now);
  }

  lemma SimilarCount(rows: seq<seq<Cell>>, others: seq<seq<Cell>>)
    requires SimilarRows(rows, others)
    ensures |rows| == |others|
  {}

  // ---------- The next wake-up ----------

  ghost predicate Pending(slot: Slot, c: Cell, now: int) {
    c.period.end > now && Relevant(slot, c.period) && !Flag(slot, c.flags) && Trigger(slot, c.period) >= now
  }

  ghost predicate LeastTrigger(cells: iset<Cell>, now: int, next: int) {
    && next <= INT_MAX
    && (forall c, slot :: c in cells && Pending(slot, c, now) ==> next <= Trigger(slot, c.period))
    && (next < INT_MAX ==> exists c, slot :: c in cells && Pending(slot, c, now) && next == Trigger(slot, c.period))
  }

  lemma CellIsLeast(cells: iset<Cell>, c: Cell, now: int, next: int)
    requires LeastTrigger(cells, now, next)
    ensures LeastTrigger(cells + iset{c}, now, NextOfCell(c, now, next))
  {
    hide Relevant, Flag;
    var n1 := Sooner(SoonSlot, c, now, next);
    var n2 := Sooner(StartSlot, c, now, n1);
    var n3 := Sooner(EndSoonSlot, c, now, n2);
    var n4 := Sooner(EndSlot, c, now, n3);
    if c.period.end > now {
      assert n4 < next ==> exists slot :: Pending(slot, c, now) && n4 == Trigger(slot, c.period) by {
        if n4 < n3 { assert Pending(EndSlot, c, now); }
        else if n3 < n2 { assert Pending(EndSoonSlot, c, now); }
        else if n2 < n1 { assert Pending(StartSlot, c, now); }
        else if n1 < next { assert Pending(SoonSlot, c, now); }
      }
      forall slot | Pending(slot, c, now)
        ensures n4 <= Trigger(slot, c.period)
      {
        match slot
        case SoonSlot =>
        case StartSlot =>
        case EndSoonSlot =>
        case EndSlot =>
      }
    }
  }

  ghost function CellsOf(row: seq<Cell>, n: nat): iset<Cell>
    requires n <= |row|
  {
    iset j | 0 <= j < n :: row[j]
  }

  ghost function AllCells(rows: seq<seq<Cell>>, n: nat): iset<Cell>
    requires n <= |rows|
  {
    iset i, j | 0 <= i < n && 0 <= j < |rows[i]| :: rows[i][j]
  }

  lemma {:induction false} RowIsLeast(cells: iset<Cell>, row: seq<Cell>, n: nat, now: int, next: int)
    requires n <= |row| && LeastTrigger(cells, now, next)
    ensures LeastTrigger(cells + CellsOf(row, n), now, NextOfRow(row, n, now, next))
  {
    hide LeastTrigger, NextOfCell;
    if n == 0 {
      assert cells + CellsOf(row, 0) == cells;
    } else {
      RowIsLeast(cells, row, n - 1, now, next);
      CellIsLeast(cells + CellsOf(row, n - 1), row[n - 1], now, NextOfRow(row, n - 1, now, next));
      assert cells + CellsOf(row, n - 1) + iset{row[n - 1]} == cells + CellsOf(row, n);
    }
  }

  lemma {:induction false} RowsAreLeast(rows: seq<seq<Cell>>, n: nat, now: int)
    requires n <= |rows|
    ensures LeastTrigger(AllCells(rows, n), now, NextOfRows(rows, n, now))
  {
    if n > 0 {
      hide LeastTrigger;
      RowsAreLeast(rows, n - 1, now);
      RowIsLeast(AllCells(rows, n - 1), rows[n - 1], |rows[n - 1]|, now, NextOfRows(rows, n - 1, now));
      assert AllCells(rows, n - 1) + CellsOf(rows[n - 1], |rows[n - 1]|) == AllCells(rows, n);
    }
  }

  /** The next wake-up is the least pending trigger, or INT_MAX. */
  lemma NextIsLeast(rows: seq<seq<Cell>>, now: int, i: nat, j: nat, slot: Slot)
    requires i < |rows| && j < |rows[i]| && Pending(slot, rows[i][j], now)
    ensures NextTime(rows, now) <= Trigger(slot, rows[i][j].period)
  {
    hide Pending;
    RowsAreLeast(rows, |rows|, now);
    assert rows[i][j] in AllCells(rows, |rows|);
  }

  /** Some notification of the period is due at x, now or later, that was not dealt with and that can be sent. */
  predicate Sought(c: Cell, now: int, x: int) {
    var p, f := c.period, c.flags;
    && now <= x && now < p.end
    && (|| (x == p.start - 900 && !f.startingSoon && !p.startAbsolute && p.end - p.start >= 900)
        || (x == p.start && !f.started && !p.startAbsolute)
        || (x == p.end - 900 && !f.endingSoon && p.end - p.start >= 900)
        || (x == p.end && !f.ended))
  }

  /** The next wake-up is exactly the least of those times, by kind. */
  lemma NextIsSought(rows: seq<seq<Cell>>, now: int)
    ensures forall i, j, x :: 0 <= i < |rows| && 0 <= j < |rows[i]| && Sought(rows[i][j], now, x) ==>
              NextTime(rows, now) <= x
    ensures NextTime(rows, now) <= INT_MAX
    ensures NextTime(rows, now) == INT_MAX ||
            exists i, j :: 0 <= i < |rows| && 0 <= j < |rows[i]| && Sought(rows[i][j], now, NextTime(rows, now))
  {
    hide Pending, Sought, Trigger, NextOfRows;
    RowsAreLeast(rows, |rows|, now);
    forall i, j, x | 0 <= i < |rows| && 0 <= j < |rows[i]| && Sought(rows[i][j], now, x)
      ensures NextTime(rows, now) <= x
    {
      var slot := SoughtSlot(rows[i][j], now, x);
      NextIsLeast(rows, now, i, j, slot);
    }
    if NextTime(rows, now) != INT_MAX {
      NextIsPending(rows, now);
    }
  }

  lemma SoughtSlot(c: Cell, now: int, x: int) returns (slot: Slot)
    requires Sought(c, now, x)
    ensures Pending(slot, c, now) && Trigger(slot, c.period) == x
  {
    slot :| Pending(slot, c, now) && Trigger(slot, c.period) == x;
  }

  lemma NextIsPending(rows: seq<seq<Cell>>, now: int)
    requires NextTime(rows, now) != INT_MAX
    ensures exists i, j :: 0 <= i < |rows| && 0 <= j < |rows[i]| && Sought(rows[i][j], now, NextTime(rows, now))
  {
    RowsAreLeast(rows, |rows|, now);
    var next := NextTime(rows, now);
    var c, slot :| c in AllCells(rows, |rows|) && Pending(slot, c, now) && next == Trigger(slot, c.period);
    var i, j :| 0 <= i < |rows| && 0 <= j < |rows[i]| && rows[i][j] == c;
    assert Sought(rows[i][j], now, next);
  }

  /** Every relevant notification due by t is settled: what a dispatch at t leaves behind. */
  ghost predicate Settled(rows: seq<seq<Cell>>, t: int) {
    forall i, j, slot :: 0 <= i < |rows| && 0 <= j < |rows[i]| && Open(slot, rows[i][j], t) ==>
      Trigger(slot, rows[i][j].period) > t
  }

  ghost predicate Open(slot: Slot, c: Cell, t: int) {
    c.period.end >= t && Relevant(slot, c.period) && !Flag(slot, c.flags)
  }

  lemma DispatchSettles(rows: seq<seq<Cell>>, t: int)
    requires Roomy(rows)
    ensures Settled(RowsAfter(rows, t), t)
  {
    hide Changes, Silent;
    DispatchIsComplete(rows, t);
    var after := EvolvedRows(rows, t);
    forall i, j, slot | 0 <= i < |after| && 0 <= j < |after[i]| && Open(slot, after[i][j], t)
      ensures Trigger(slot, after[i][j].period) > t
    {
      assert after[i][j] == Evolved(PeriodsIn(rows[i]), rows[i][j], t);
      assert !Settles(slot, PeriodsIn(rows[i]), rows[i][j], t);
    }
  }

  /** After a dispatch the next wake-up lies ahead. */
  lemma WakesAdvance(rows: seq<seq<Cell>>, t: int)
    requires Roomy(rows) && t < INT_MAX
    ensures t < NextTime(RowsAfter(rows, t), t) <= INT_MAX
  {
    hide CheckAll;
    DispatchSettles(rows, t);
    var after := RowsAfter(rows, t);
    RowsAreLeast(after, |after|, t);
    if NextTime(after, t) < INT_MAX {
      var c, slot :| c in AllCells(after, |after|) && Pending(slot, c, t) &&
                     NextTime(after, t) == Trigger(slot, c.period);
    }
  }

  // ---------- Waking up equals polling ----------

  /** Nothing is sent at x. */
  ghost predicate Quiet(rows: seq<seq<Cell>>, x: int) {
    forall i, j, slot :: 0 <= i < |rows| && 0 <= j < |rows[i]| && Relevant(slot, rows[i][j].period) ==>
      Judge(slot, PeriodsIn(rows[i]), rows[i][j], x) == Wait
  }

  /** Between a dispatch and the wake-up it leads to, nothing is due. */
  lemma QuietUntilWake(rows: seq<seq<Cell>>, t: int, x: int)
    requires Settled(rows, t) && t < x < NextTime(rows, t)
    ensures Quiet(rows, x)
  {
    hide Relevant, Changes, Silent, NextTime;
    forall i, j, slot | 0 <= i < |rows| && 0 <= j < |rows[i]| && Relevant(slot, rows[i][j].period)
      ensures Judge(slot, PeriodsIn(rows[i]), rows[i][j], x) == Wait
    {
      if Open(slot, rows[i][j], t) && rows[i][j].period.end > t {
        NextIsLeast(rows, t, i, j, slot);
      }
    }
  }

  /** Nor is anything due in the second of the dispatch again. */
  lemma QuietAgain(rows: seq<seq<Cell>>, t: int)
    requires Settled(rows, t)
    ensures Quiet(rows, t)
  {
    hide Relevant, Changes, Silent;
    forall i, j, slot | 0 <= i < |rows| && 0 <= j < |rows[i]| && Relevant(slot, rows[i][j].period)
      ensures Judge(slot, PeriodsIn(rows[i]), rows[i][j], t) == Wait
    {
      assert Open(slot, rows[i][j], t) ==> Trigger(slot, rows[i][j].period) > t;
    }
  }

  lemma QuietDispatch(rows: seq<seq<Cell>>, x: int)
    requires Quiet(rows, x)
    ensures LogOf(rows, x) == [] && SimilarRows(RowsAfter(rows, x), rows)
  {
    hide CheckAll;
    QuietAll(rows, |rows|, x);
  }

  lemma QuietSlot(slot: Slot, periods: seq<Period>, mac: nat, index: nat, r: CellResult, x: int)
    requires Relevant(slot, r.cell.period) ==> Judge(slot, periods, r.cell, x) == Wait
    ensures var r' := CheckSlot(slot, periods, mac, index, r, x);
            Similar(r'.cell, r.cell) && r'.out == r.out &&
            forall s :: s != slot ==> Flag(s, r'.cell.flags) == Flag(s, r.cell.flags)
  {
    hide Flushed, Posted, KindOf, Scheduled, Changes, Trigger;
    SetFlagSets(slot, r.cell.flags);
  }

  lemma QuietCell(row: seq<Cell>, mac: nat, j: nat, out: Output, x: int)
    requires j < |row|
    requires forall slot :: Relevant(slot, row[j].period) ==> Judge(slot, PeriodsIn(row), row[j], x) == Wait
    ensures var r := CheckCell(PeriodsIn(row), mac, j, CellResult(row[j], out), x);
            Similar(r.cell, row[j]) && r.out == out
  {
    hide CheckSlot, Judge, Relevant, Flag;
    var periods, r := PeriodsIn(row), CellResult(row[j], out);
    var r1 := CheckSlot(SoonSlot, periods, mac, j, r, x);
    var r2 := CheckSlot(StartSlot, periods, mac, j, r1, x);
    var r3 := CheckSlot(EndSoonSlot, periods, mac, j, r2, x);
    QuietSlot(SoonSlot, periods, mac, j, r, x);
    JudgeSeesOwnFlag(StartSlot, periods, r1.cell, row[j], x);
    QuietSlot(StartSlot, periods, mac, j, r1, x);
    JudgeSeesOwnFlag(EndSoonSlot, periods, r2.cell, row[j], x);
    QuietSlot(EndSoonSlot, periods, mac, j, r2, x);
    JudgeSeesOwnFlag(EndSlot, periods, r3.cell, row[j], x);
    QuietSlot(EndSlot, periods, mac, j, r3, x);
  }

  lemma {:induction false} QuietRow(row: seq<Cell>, mac: nat, n: nat, out: Output, x: int)
    requires n <= |row|
    requires forall j, slot :: 0 <= j < |row| && Relevant(slot, row[j].period) ==>
                Judge(slot, PeriodsIn(row), row[j], x) == Wait
    ensures var r := CheckRow(row, mac, n, x, out); SimilarRow(r.row, row[..n]) && r.out == out
  {
    hide CheckCell, Judge, Relevant, Similar;
    if n > 0 {
      QuietRow(row, mac, n - 1, out, x);
      QuietCell(row, mac, n - 1, out, x);
    }
  }

  lemma {:induction false} QuietAll(rows: seq<seq<Cell>>, n: nat, x: int)
    requires Quiet(rows, x) && n <= |rows|
    ensures var r := CheckAll(rows, n, x); SimilarRows(r.rows, rows[..n]) && r.out == EMPTY
  {
    hide CheckRow, Judge, Relevant, SimilarRow;
    if n > 0 {
      QuietAll(rows, n - 1, x);
      QuietRow(rows[n - 1], n - 1, |rows[n - 1]|, EMPTY, x);
      assert rows[n - 1][..|rows[n - 1]|] == rows[n - 1];
    }
  }

  /** A notification and when it was sent. */
  datatype Timed = Timed(at: int, sent: Sent)

  ghost function Stamped(log: seq<Sent>, now: int): (r: seq<Timed>)
    ensures |r| == |log|
  {
    seq(|log|, i requires 0 <= i < |log| => Timed(now, log[i]))
  }

  /** Dispatching at every second from t up to h. */
  ghost function PollLog(rows: seq<seq<Cell>>, t: int, h: int): seq<Timed>
    decreases h - t
  {
    if t >= h then [] else Stamped(LogOf(rows, t), t) + PollLog(RowsAfter(rows, t), t + 1, h)
  }

  /** Dispatching at t and then at each wake-up before h. */
  ghost function WakeLog(rows: seq<seq<Cell>>, t: int, h: int): seq<Timed>
    requires Roomy(rows) && t < h <= INT_MAX
    decreases h - t
  {
    DispatchIsComplete(rows, t);
    WakesAdvance(rows, t);
    var after := RowsAfter(rows, t);
    var next := NextTime(after, t);
    Stamped(LogOf(rows, t), t) + if next < h then WakeLog(after, next, h) else []
  }

  lemma {:induction false} SimilarPolls(rows: seq<seq<Cell>>, others: seq<seq<Cell>>, t: int, h: int)
    requires SimilarRows(rows, others)
    ensures PollLog(rows, t, h) == PollLog(others, t, h)
    decreases h - t
  {
    hide LogOf, RowsAfter, SimilarRows;
    if t < h {
      SimilarDispatch(rows, others, t);
      SimilarPolls(RowsAfter(rows, t), RowsAfter(others, t), t + 1, h);
    }
  }

  lemma SimilarTransitive(rows: seq<seq<Cell>>, others: seq<seq<Cell>>, third: seq<seq<Cell>>)
    requires SimilarRows(rows, others) && SimilarRows(others, third)
    ensures SimilarRows(rows, third)
  {}

  /** Polling timelines over a quiet stretch sends nothing and changes nothing that matters. */
  lemma {:induction false} PollSkips(rows: seq<seq<Cell>>, others: seq<seq<Cell>>, s: int, n: int, h: int)
    requires SimilarRows(rows, others) && s <= n <= h
    requires forall x :: s <= x < n ==> Quiet(others, x)
    ensures PollLog(rows, s, h) == PollLog(others, n, h)
    decreases n - s
  {
    hide LogOf, RowsAfter, SimilarRows, Quiet;
    if s == n {
      SimilarPolls(rows, others, s, h);
    } else {
      SimilarDispatch(rows, others, s);
      QuietDispatch(others, s);
      SimilarTransitive(RowsAfter(rows, s), RowsAfter(others, s), others);
      PollSkips(RowsAfter(rows, s), others, s + 1, n, h);
      assert Stamped([], s) + PollLog(RowsAfter(rows, s), s + 1, h) == PollLog(RowsAfter(rows, s), s + 1, h);
    }
  }

  /**
   Dispatching only at the times get_next_notification_time gives sends exactly the
   notifications, at the same seconds and in the same order, that dispatching every second does.
   */
  lemma {:induction false} WakingEqualsPolling(rows: seq<seq<Cell>>, t: int, h: int)
    requires Roomy(rows) && t < h <= INT_MAX
    ensures WakeLog(rows, t, h) == PollLog(rows, t, h)
    decreases h - t
  {
    hide LogOf, RowsAfter, NextTime, Roomy, Settled, Quiet, SimilarRows;
    DispatchIsComplete(rows, t);
    DispatchSettles(rows, t);
    WakesAdvance(rows, t);
    var after := RowsAfter(rows, t);
    var next := NextTime(after, t);
    var until := if next < h then next else h;
    SimilarReflexive(after);
    forall x | t + 1 <= x < until
      ensures Quiet(after, x)
    {
      QuietUntilWake(after, t, x);
    }
    PollSkips(after, after, t + 1, until, h);
    if next < h {
      WakingEqualsPolling(after, next, h);
    }
  }

  lemma SimilarReflexive(rows: seq<seq<Cell>>)
    ensures SimilarRows(rows, rows)
  {}

  /** Dispatching at the given times. */
  ghost function RunLog(rows: seq<seq<Cell>>, times: seq<int>): seq<Timed>
    decreases |times|
  {
    if times == [] then []
    else Stamped(LogOf(rows, times[0]), times[0]) + RunLog(RowsAfter(rows, times[0]), times[1..])
  }

  /** After each dispatch the next comes no later than get_next_notification_time says, up to h. */
  ghost predicate Prompt(rows: seq<seq<Cell>>, times: seq<int>, h: int)
    decreases |times|
  {
    && times != []
    && var next := NextTime(RowsAfter(rows, times[0]), times[0]);
       if |times| == 1 then times[0] < h <= next
       else times[0] <= times[1] <= next && Prompt(RowsAfter(rows, times[0]), times[1..], h)
  }

  lemma {:induction false} PromptEndsBefore(rows: seq<seq<Cell>>, times: seq<int>, h: int)
    requires Prompt(rows, times, h)
    ensures times[0] < h
    decreases |times|
  {
    hide RowsAfter, NextTime;
    if |times| > 1 {
      PromptEndsBefore(RowsAfter(rows, times[0]), times[1..], h);
    }
  }

  /**
   The scheduler also wakes for other reasons, even twice in one second.  Extra dispatches change
   nothing: any prompt run sends what polling sends, at the same seconds.
   */
  lemma {:induction false} PromptRunsEqualPolling(rows: seq<seq<Cell>>, times: seq<int>, h: int)
    requires Roomy(rows) && Prompt(rows, times, h)
    ensures RunLog(rows, times) == PollLog(rows, times[0], h)
    decreases |times|
  {
    hide LogOf, RowsAfter, NextTime, Roomy, Settled, Quiet, SimilarRows;
    var t := times[0];
    DispatchIsComplete(rows, t);
    DispatchSettles(rows, t);
    PromptEndsBefore(rows, times, h);
    var after := RowsAfter(rows, t);
    var until := h;
    if |times| > 1 {
      until := times[1];
      PromptEndsBefore(after, times[1..], h);
      PromptRunsEqualPolling(after, times[1..], h);
    }
    SimilarReflexive(after);
    QuietAgain(after, t);
    forall x | t <= x < until || x == t
      ensures Quiet(after, x)
    {
      if t < x {
        QuietUntilWake(after, t, x);
      }
    }
    PollSkips(after, after, t, if until == t then t + 1 else until, h);
    PollSkips(after, after, t, t + 1, h);
  }

  // ---------- The chain of wake-ups ----------

  /** The dispatches of a run from t on. */
  ghost function WakeTimes(rows: seq<seq<Cell>>, t: int): seq<int>
    requires Roomy(rows) && t < INT_MAX
    decreases INT_MAX - t
  {
    DispatchIsComplete(rows, t);
    WakesAdvance(rows, t);
    var after := RowsAfter(rows, t);
    var next := NextTime(after, t);
    [t] + if next < INT_MAX then WakeTimes(after, next) else []
  }

  ghost predicate Awaits(slot: Slot, c: Cell, x: int) {
    Relevant(slot, c.period) && !Flag(slot, c.flags) && Trigger(slot, c.period) == x
  }

  /** Some notification that can still be sent is due at x. */
  ghost predicate Awaited(rows: seq<seq<Cell>>, x: int) {
    exists i, j, slot :: 0 <= i < |rows| && 0 <= j < |rows[i]| && Awaits(slot, rows[i][j], x)
  }

  /** A dispatch does not touch what is due after it. */
  lemma StaysAwaited(rows: seq<seq<Cell>>, t: int, x: int)
    requires Roomy(rows) && t < x
    ensures Awaited(RowsAfter(rows, t), x) <==> Awaited(rows, x)
  {
    hide Changes, Silent, Relevant;
    DispatchIsComplete(rows, t);
    var after := RowsAfter(rows, t);
    forall i, j, slot | 0 <= i < |rows| && 0 <= j < |rows[i]|
      ensures Awaits(slot, after[i][j], x) <==> Awaits(slot, rows[i][j], x)
    {
      assert after[i][j] == Evolved(PeriodsIn(rows[i]), rows[i][j], t);
    }
  }

  /** The next wake-up is awaited, and nothing is awaited before it. */
  lemma NextIsAwaited(rows: seq<seq<Cell>>, t: int)
    requires Roomy(rows)
    ensures NextTime(rows, t) < INT_MAX ==> Awaited(rows, NextTime(rows, t))
    ensures forall x :: t < x < NextTime(rows, t) ==> !Awaited(rows, x)
  {
    hide Relevant, Flag;
    RowsAreLeast(rows, |rows|, t);
    var next := NextTime(rows, t);
    if next < INT_MAX {
      var c, slot :| c in AllCells(rows, |rows|) && Pending(slot, c, t) && next == Trigger(slot, c.period);
      var i, j :| 0 <= i < |rows| && 0 <= j < |rows[i]| && rows[i][j] == c;
      assert Awaits(slot, rows[i][j], next);
    }
    forall x, i, j, slot | t < x < next && 0 <= i < |rows| && 0 <= j < |rows[i]|
      ensures !Awaits(slot, rows[i][j], x)
    {
      assert PeriodsIn(rows[i])[j] == rows[i][j].period;
      if Awaits(slot, rows[i][j], x) {
        NextIsLeast(rows, t, i, j, slot);
      }
    }
  }

  /**
   The dispatches after the first happen at exactly the times of the notifications that can still
   be sent, each time once, in order, up to INT_MAX.
   */
  lemma {:induction false} WakesAreAwaited(rows: seq<seq<Cell>>, t: int)
    requires Roomy(rows) && t < INT_MAX
    ensures var times := WakeTimes(rows, t);
            && times[0] == t && (forall i, k :: 0 <= i < k < |times| ==> times[i] < times[k])
            && forall x :: x in times <==> x == t || (t < x < INT_MAX && Awaited(rows, x))
    decreases INT_MAX - t
  {
    hide LogOf, RowsAfter, NextTime, Roomy, Awaited;
    DispatchIsComplete(rows, t);
    WakesAdvance(rows, t);
    var after := RowsAfter(rows, t);
    var next := NextTime(after, t);
    NextIsAwaited(after, t);
    forall x | t < x
      ensures Awaited(after, x) <==> Awaited(rows, x)
    {
      StaysAwaited(rows, t, x);
    }
    if next < INT_MAX {
      WakesAreAwaited(after, next);
      assert WakeTimes(rows, t) == [t] + WakeTimes(after, next);
    }
  }
}
