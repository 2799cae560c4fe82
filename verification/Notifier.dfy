/**
 The notification timeline as the program keeps it (src/aker_notification.c): period objects with
 sent flags, the dispatcher that sets them and sends batches, and the search for the next wake-up.
 */
module Notifier {
  import opened Periods
  import opened Dispatch
  import opened Time

  /** mac_block_period_t, with the one entry of mac_states that is used: that of its own MAC. */
  class BlockPeriod {
    const period: Period
    var startingSoonSent: bool
    var startedSent: bool
    var endingSoonSent: bool
    var endedSent: bool

    constructor (period: Period)
      ensures this.period == period && Value() == Cell(period, CLEAR)
    {
      this.period := period;
      startingSoonSent, startedSent, endingSoonSent, endedSent := false, false, false, false;
    }

    function Value(): Cell
      reads this
    {
      Cell(period, Flags(startingSoonSent, startedSent, endingSoonSent, endedSent))
    }
  }

  ghost function Values(row: seq<BlockPeriod>): (cells: seq<Cell>)
    reads row
    ensures |cells| == |row|
  {
    seq(|row|, j requires 0 <= j < |row| reads row => row[j].Value())
  }

  ghost function PeriodValues(row: seq<BlockPeriod>): (periods: seq<Period>)
    ensures |periods| == |row|
  {
    seq(|row|, j requires 0 <= j < |row| => row[j].period)
  }

  ghost predicate Distinct(row: seq<BlockPeriod>) {
    forall i, j :: 0 <= i < j < |row| ==> row[i] != row[j]
  }

  method IsMacBlockedInTimeline(row: seq<BlockPeriod>, checkTime: int) returns (blocked: bool)
    ensures blocked == BlockedIn(PeriodValues(row), checkTime)
  {
    var i := 0;
    while i < |row|
      invariant i <= |row|
      invariant BlockedIn(PeriodValues(row), checkTime) == BlockedFrom(PeriodValues(row), i, checkTime)
    {
      var p := row[i].period;
      if checkTime >= p.start && checkTime < p.end {
        return true;
      }
      if p.start > checkTime {
        break;
      }
      i := i + 1;
    }
    return false;
  }

  /** Sends a batch for another time first, then adds the MAC if there is room. */
  method AddToBatch(out: Output, k: Kind, mac: nat, index: nat, time: int) returns (o: Output, added: bool)
    ensures var f := Flushed(out, k, time);
            added == HasRoom(f, k) && o == if added then Posted(f, Entry(k, mac, index, time)) else f
  {
    o := out;
    var batch := BatchOf(o, k);
    if |batch.macs| > 0 && batch.time != time {
      o := SetBatch(o, k, Batch([], batch.time)).(log := o.log + [Sent(k, batch.time, batch.macs)]);
    }
    added := |BatchOf(o, k).macs| < BATCH;
    if added {
      o := Posted(o, Entry(k, mac, index, time));
    }
  }

  method CheckStartingSoon(row: seq<BlockPeriod>, p: BlockPeriod, mac: nat, index: nat, now: int, out: Output)
    returns (o: Output)
    requires p.period.end >= now
    modifies p`startingSoonSent
    ensures CellResult(p.Value(), o) ==
      CheckSlot(SoonSlot, PeriodValues(row), mac, index, CellResult(old(p.Value()), out), now)
  {
    hide BlockedIn, Flushed, Posted;
    o := out;
    var startSoonTime := p.period.start - ADVANCE;
    var skipSoon := p.period.end - p.period.start < ADVANCE;
    if !skipSoon && !p.startingSoonSent {
      if now < startSoonTime {
        // too early
      } else if now - startSoonTime > LATE {
        p.startingSoonSent := true;
      } else if p.period.startAbsolute {
        p.startingSoonSent := true;
      } else {
        var willBeBlocked := IsMacBlockedInTimeline(row, p.period.start);
        var currentlyBlocked := IsMacBlockedInTimeline(row, now);
        if willBeBlocked && !currentlyBlocked {
          var added;
          o, added := AddToBatch(o, StartingSoon, mac, index, p.period.start);
          if added {
            p.startingSoonSent := true;
          }
        } else {
          p.startingSoonSent := true;
        }
      }
    }
  }

  method CheckStarted(row: seq<BlockPeriod>, p: BlockPeriod, mac: nat, index: nat, now: int, out: Output)
    returns (o: Output)
    requires p.period.end >= now
    modifies p`startedSent
    ensures CellResult(p.Value(), o) ==
      CheckSlot(StartSlot, PeriodValues(row), mac, index, CellResult(old(p.Value()), out), now)
  {
    hide BlockedIn, Flushed, Posted;
    o := out;
    if !p.startedSent {
      if now < p.period.start {
        // too early
      } else if now - p.period.start > LATE {
        p.startedSent := true;
      } else if p.period.startAbsolute {
        p.startedSent := true;
      } else {
        var isBlocked := IsMacBlockedInTimeline(row, now);
        if isBlocked {
          var added;
          o, added := AddToBatch(o, Started, mac, index, p.period.start);
          if added {
            p.startedSent := true;
          }
        } else {
          p.startedSent := true;
        }
      }
    }
  }

  method CheckEndingSoon(row: seq<BlockPeriod>, p: BlockPeriod, mac: nat, index: nat, now: int, out: Output)
    returns (o: Output)
    requires p.period.end >= now
    modifies p`endingSoonSent
    ensures CellResult(p.Value(), o) ==
      CheckSlot(EndSoonSlot, PeriodValues(row), mac, index, CellResult(old(p.Value()), out), now)
  {
    hide BlockedIn, Flushed, Posted;
    o := out;
    var endSoonTime := p.period.end - ADVANCE;
    var skipSoon := p.period.end - p.period.start < ADVANCE;
    if !skipSoon && !p.endingSoonSent {
      if now < endSoonTime {
        // too early
      } else if now - endSoonTime > LATE {
        p.endingSoonSent := true;
      } else if p.period.endAbsolute {
        p.endingSoonSent := true;
      } else {
        var currentlyBlocked := IsMacBlockedInTimeline(row, now);
        var willBeBlocked := IsMacBlockedInTimeline(row, p.period.end);
        if currentlyBlocked && !willBeBlocked {
          var added;
          o, added := AddToBatch(o, EndingSoon, mac, index, p.period.end);
          if added {
            p.endingSoonSent := true;
          }
        } else {
          p.endingSoonSent := true;
        }
      }
    }
  }

  method CheckEnded(row: seq<BlockPeriod>, p: BlockPeriod, mac: nat, index: nat, now: int, out: Output)
    returns (o: Output)
    requires p.period.end >= now
    modifies p`endedSent
    ensures CellResult(p.Value(), o) ==
      CheckSlot(EndSlot, PeriodValues(row), mac, index, CellResult(old(p.Value()), out), now)
    // an end that the user set is never announced as ENDED, and no other end as NON_RECURRING_UNPAUSED
    ensures if p.period.endAbsolute then o.ended == out.ended else o.nonRecurring == out.nonRecurring
  {
    hide BlockedIn;
    o := out;
    if !p.endedSent {
      if now < p.period.end {
        // too early
      } else if now - p.period.end > LATE {
        // the source marks a late end here, but a period that ended before now was passed over
        assert false;
      } else {
        var wasBlocked := IsMacBlockedInTimeline(row, p.period.end - 1);
        var isBlocked := IsMacBlockedInTimeline(row, now);
        if wasBlocked && !isBlocked {
          var added;
          if p.period.endAbsolute {
            o, added := AddToBatch(o, NonRecurringUnpaused, mac, index, p.period.end);
          } else {
            o, added := AddToBatch(o, Ended, mac, index, p.period.end);
          }
          if added {
            p.endedSent := true;
          }
        } else {
          p.endedSent := true;
        }
      }
    }
  }

  /** One period of one MAC; a period that ended before now is passed over. */
  method CheckPeriod(row: seq<BlockPeriod>, p: BlockPeriod, mac: nat, index: nat, now: int, out: Output)
    returns (o: Output)
    modifies p
    ensures CellResult(p.Value(), o) ==
      CheckCell(PeriodValues(row), mac, index, CellResult(old(p.Value()), out), now)
  {
    hide CheckSlot;
    if p.period.end < now {
      PastIsPassedOver(PeriodValues(row), mac, index, CellResult(p.Value(), out), now);
      return out;
    }
    o := CheckStartingSoon(row, p, mac, index, now, out);
    o := CheckStarted(row, p, mac, index, now, o);
    o := CheckEndingSoon(row, p, mac, index, now, o);
    o := CheckEnded(row, p, mac, index, now, o);
  }

  lemma PastIsPassedOver(periods: seq<Period>, mac: nat, index: nat, r: CellResult, now: int)
    requires r.cell.period.end < now
    ensures CheckCell(periods, mac, index, r, now) == r
  {}

  /** All periods of one MAC. */
  method CheckTimeline(row: seq<BlockPeriod>, mac: nat, now: int, out: Output) returns (o: Output)
    requires Distinct(row)
    modifies row
    ensures RowResult(Values(row), o) == CheckRow(old(Values(row)), mac, |row|, now, out)
  {
    hide CheckCell;
    o := out;
    ghost var before := Values(row);
    for j := 0 to |row|
      invariant forall i :: j <= i < |row| ==> row[i].Value() == before[i]
      invariant RowResult(Values(row)[..j], o) == CheckRow(before, mac, j, now, out)
    {
      ghost var done := Values(row)[..j];
      assert PeriodValues(row) == PeriodsIn(before);
      o := CheckPeriod(row, row[j], mac, j, now, o);
      assert Values(row)[..j + 1] == done + [row[j].Value()];
    }
    assert Values(row)[..|row|] == Values(row);
  }

  /** create_block_period for each period of one MAC: no notification sent yet. */
  method CreateTimeline(periods: seq<Period>) returns (row: seq<BlockPeriod>)
    ensures Distinct(row) && (forall p :: p in row ==> fresh(p))
    ensures PeriodValues(row) == periods && forall j :: 0 <= j < |row| ==> row[j].Value() == Cell(periods[j], CLEAR)
  {
    row := [];
    for j := 0 to |periods|
      invariant |row| == j && Distinct(row) && forall p :: p in row ==> fresh(p)
      invariant forall i :: 0 <= i < j ==> row[i].Value() == Cell(periods[i], CLEAR)
    {
      var p := new BlockPeriod(periods[j]);
      row := row + [p];
    }
  }

  ghost predicate Separate(timelines: seq<seq<BlockPeriod>>) {
    && (forall i :: 0 <= i < |timelines| ==> Distinct(timelines[i]))
    && (forall i, j :: 0 <= i < j < |timelines| ==> Apart(timelines[i], timelines[j]))
  }

  ghost predicate Apart(row: seq<BlockPeriod>, other: seq<BlockPeriod>) {
    forall p :: p in row ==> p !in other
  }

  /** Fresh timelines: the given periods, every flag clear. */
  ghost function ClearRows(timelines: seq<seq<Period>>): (rows: seq<seq<Cell>>)
    ensures |rows| == |timelines|
  {
    seq(|timelines|, i requires 0 <= i < |timelines| =>
      seq(|timelines[i]|, j requires 0 <= j < |timelines[i]| => Cell(timelines[i][j], CLEAR)))
  }

  method CreateTimelines(periods: seq<seq<Period>>) returns (timelines: seq<seq<BlockPeriod>>)
    ensures |timelines| == |periods| && Separate(timelines)
    ensures forall i, p :: 0 <= i < |timelines| && p in timelines[i] ==> fresh(p)
    ensures forall i :: 0 <= i < |timelines| ==> Values(timelines[i]) == ClearRows(periods)[i]
  {
    timelines := [];
    for i := 0 to |periods|
      invariant |timelines| == i && Separate(timelines)
      invariant forall k, p :: 0 <= k < i && p in timelines[k] ==> fresh(p)
      invariant forall k :: 0 <= k < i ==> Values(timelines[k]) == ClearRows(periods)[k]
    {
      var row := CreateTimeline(periods[i]);
      assert Values(row) == ClearRows(periods)[i];
      timelines := timelines + [row];
    }
  }

  ghost function Objects(timelines: seq<seq<BlockPeriod>>): set<BlockPeriod> {
    set i, p | 0 <= i < |timelines| && p in timelines[i] :: p
  }

  /** The timelines as values. */
  ghost function RowsOf(timelines: seq<seq<BlockPeriod>>): (rows: seq<seq<Cell>>)
    reads Objects(timelines)
    ensures |rows| == |timelines|
    ensures forall i :: 0 <= i < |rows| ==> rows[i] == Values(timelines[i])
  {
    if timelines == [] then []
    else
      var front, last := timelines[..|timelines| - 1], timelines[|timelines| - 1];
      assert forall p :: p in last ==> p in Objects(timelines);
      assert forall i, p :: 0 <= i < |front| && p in front[i] ==> p in timelines[i] && p in Objects(timelines);
      RowsOf(front) + [Values(last)]
  }

  /** mac_timeline_collection_t */
  class Collection {
    const timelines: seq<seq<BlockPeriod>>
    const createdAt: int

    ghost function Repr(): set<BlockPeriod> {
      Objects(timelines)
    }

    ghost function Rows(): seq<seq<Cell>>
      reads Repr()
    {
      RowsOf(timelines)
    }

    constructor (periods: seq<seq<Period>>, createdAt: int)
      ensures Separate(timelines) && fresh(Repr()) && this.createdAt == createdAt
      ensures Rows() == ClearRows(periods)
    {
      var rows := CreateTimelines(periods);
      timelines := rows;
      this.createdAt := createdAt;
    }

    /** Returns the notifications in the order they are sent. */
    method SendPendingNotifications(now: int) returns (log: seq<Sent>)
      requires Separate(timelines)
      modifies Repr()
      ensures Rows() == RowsAfter(old(Rows()), now) && log == LogOf(old(Rows()), now)
    {
      hide CheckAll, RowsOf, Objects, Remaining, Separate;
      var out := CheckAllTimelines(timelines, now);
      log := SendRemaining(out.log, StartingSoon, out.soon);
      log := SendRemaining(log, Started, out.started);
      log := SendRemaining(log, EndingSoon, out.endingSoon);
      log := SendRemaining(log, Ended, out.ended);
      log := SendRemaining(log, NonRecurringUnpaused, out.nonRecurring);
    }

    method GetNextNotificationTime(now: int) returns (next: int)
      ensures next == NextTime(Rows(), now)
    {
      hide NextOfRow, Values;
      ghost var rows := Rows();
      next := INT_MAX;
      for i := 0 to |timelines|
        invariant rows == Rows() && next == NextOfRows(rows, i, now)
      {
        assert rows[i] == Values(timelines[i]);
        next := NextOfTimeline(timelines[i], now, next);
      }
    }
  }

  method NextOfTimeline(row: seq<BlockPeriod>, now: int, soonest: int) returns (next: int)
    ensures next == NextOfRow(Values(row), |row|, now, soonest)
  {
    hide NextOfCell;
    next := soonest;
    for j := 0 to |row|
      invariant next == NextOfRow(Values(row), j, now, soonest)
    {
      next := NextOfPeriod(row[j], now, next);
    }
  }

  /** The walk over all MACs. */
  method CheckAllTimelines(timelines: seq<seq<BlockPeriod>>, now: int) returns (out: Output)
    requires Separate(timelines)
    modifies Objects(timelines)
    ensures AllResult(RowsOf(timelines), out) == CheckAll(old(RowsOf(timelines)), |timelines|, now)
  {
    hide CheckRow, CheckAll, Objects;
    out := EMPTY;
    NoneChecked(RowsOf(timelines), now);
    ghost var before := RowsOf(timelines);
    for i := 0 to |timelines|
      invariant forall k :: i <= k < |timelines| ==> Values(timelines[k]) == before[k]
      invariant out == CheckAll(before, i, now).out
      invariant forall k :: 0 <= k < i ==> Values(timelines[k]) == CheckAll(before, i, now).rows[k]
    {
      OneMoreChecked(before, i, now);
      RowInObjects(timelines, i);
      label Before:
      out := CheckTimeline(timelines[i], i, now, out);
      forall k | 0 <= k < |timelines| && k != i
        ensures Values(timelines[k]) == old@Before(Values(timelines[k]))
      {
        RowsApart(timelines, i, k);
        assert forall j :: 0 <= j < |timelines[k]| ==> timelines[k][j] in timelines[k];
      }
    }
  }

  lemma NoneChecked(rows: seq<seq<Cell>>, now: int)
    ensures CheckAll(rows, 0, now) == AllResult([], EMPTY)
  {}

  lemma OneMoreChecked(rows: seq<seq<Cell>>, i: nat, now: int)
    requires i < |rows|
    ensures var front := CheckAll(rows, i, now);
            var r := CheckRow(rows[i], i, |rows[i]|, now, front.out);
            CheckAll(rows, i + 1, now) == AllResult(front.rows + [r.row], r.out)
  {}

  lemma RowInObjects(timelines: seq<seq<BlockPeriod>>, i: nat)
    requires i < |timelines|
    ensures forall p :: p in timelines[i] ==> p in Objects(timelines)
  {}

  lemma RowsApart(timelines: seq<seq<BlockPeriod>>, i: nat, k: nat)
    requires Separate(timelines) && i < |timelines| && k < |timelines| && i != k
    ensures forall p :: p in timelines[k] ==> p !in timelines[i]
  {
    assert Apart(timelines[if i < k then i else k], timelines[if i < k then k else i]);
  }

  method SendRemaining(log: seq<Sent>, k: Kind, b: Batch) returns (log': seq<Sent>)
    ensures log' == log + Remaining(k, b)
  {
    log' := log;
    if |b.macs| > 0 {
      log' := log' + [Sent(k, b.time, b.macs)];
    }
  }

  method NextOfPeriod(p: BlockPeriod, now: int, soonest: int) returns (next: int)
    ensures next == NextOfCell(p.Value(), now, soonest)
  {
    next := soonest;
    if p.period.end <= now {
      return;
    }
    var startSoonTime, endSoonTime := p.period.start - ADVANCE, p.period.end - ADVANCE;
    var skipSoon := p.period.end - p.period.start < ADVANCE;
    if !skipSoon && !p.startingSoonSent && !p.period.startAbsolute && startSoonTime >= now {
      if startSoonTime < next {
        next := startSoonTime;
      }
    }
    if !p.startedSent && !p.period.startAbsolute && p.period.start >= now {
      if p.period.start < next {
        next := p.period.start;
      }
    }
    if !skipSoon && !p.endingSoonSent && endSoonTime >= now {
      if endSoonTime < next {
        next := endSoonTime;
      }
    }
    if !p.endedSent && p.period.end >= now {
      if p.period.end < next {
        next := p.period.end;
      }
    }
  }
}
