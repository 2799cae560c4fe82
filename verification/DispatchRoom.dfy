/**
 With at most 256 MACs no batch ever fills up: a MAC has at most one notification of each kind
 per dispatch.  So a dispatch sets every flag that is due and takes every sending branch.
 */
module DispatchRoom {
  import opened Periods
  import opened PeriodProperties
  import opened Dispatch
  import opened DispatchLedger

  /** At most one batch's worth of MACs, each with a well-formed period list. */
  ghost predicate Roomy(rows: seq<seq<Cell>>) {
    |rows| <= BATCH && forall i :: 0 <= i < |rows| ==> WellFormed(PeriodsIn(rows[i]))
  }

  /** The sending windows of two periods of one MAC do not overlap. */
  lemma OneSendPerSlot(slot: Slot, row: seq<Cell>, i: nat, j: nat, now: int)
    requires WellFormed(PeriodsIn(row)) && i < j < |row|
    ensures !(Judge(slot, PeriodsIn(row), row[i], now) == Send && Judge(slot, PeriodsIn(row), row[j], now) == Send)
  {
    hide Changes, Silent, Flag;
    var periods := PeriodsIn(row);
    assert periods[i] == row[i].period && periods[j] == row[j].period;
  }

  /** The flag of a slot after a dispatch that is not short of room. */
  predicate Settles(slot: Slot, periods: seq<Period>, c: Cell, now: int) {
    Flag(slot, c.flags) || Judge(slot, periods, c, now) != Wait
  }

  function Evolved(periods: seq<Period>, c: Cell, now: int): (c': Cell)
    ensures c'.period == c.period
    ensures forall slot :: Flag(slot, c'.flags) == Settles(slot, periods, c, now)
  {
    Cell(c.period, Flags(Settles(SoonSlot, periods, c, now), Settles(StartSlot, periods, c, now),
                         Settles(EndSoonSlot, periods, c, now), Settles(EndSlot, periods, c, now)))
  }

  function EvolvedRow(row: seq<Cell>, now: int): (r: seq<Cell>)
    ensures |r| == |row|
  {
    seq(|row|, j requires 0 <= j < |row| => Evolved(PeriodsIn(row), row[j], now))
  }

  function EvolvedRows(rows: seq<seq<Cell>>, now: int): (r: seq<seq<Cell>>)
    ensures |r| == |rows|
  {
    seq(|rows|, i requires 0 <= i < |rows| => EvolvedRow(rows[i], now))
  }

  /** The period's check for kind k sends. */
  predicate Sends(k: Kind, row: seq<Cell>, j: nat, now: int)
    requires j < |row|
  {
    KindOf(SlotOf(k), row[j].period) == k && Judge(SlotOf(k), PeriodsIn(row), row[j], now) == Send
  }

  function EntryFor(k: Kind, row: seq<Cell>, mac: nat, j: nat): Entry
    requires j < |row|
  {
    Entry(k, mac, j, Scheduled(SlotOf(k), row[j].period))
  }

  lemma SlotRoom(slot: Slot, periods: seq<Period>, mac: nat, index: nat, r: CellResult, now: int)
    requires Judge(slot, periods, r.cell, now) == Send ==> |BatchOf(r.out, KindOf(slot, r.cell.period)).macs| < BATCH
    ensures var r', p := CheckSlot(slot, periods, mac, index, r, now), r.cell.period;
            && r'.cell.period == p
            && (forall s :: Flag(s, r'.cell.flags) == (Flag(s, r.cell.flags) ||
                 (s == slot && Settles(slot, periods, r.cell, now))))
            && (forall k :: |BatchOf(r'.out, k).macs| <= |BatchOf(r.out, k).macs| +
                  if k == KindOf(slot, p) && Judge(slot, periods, r.cell, now) == Send then 1 else 0)
            && r.out.ledger <= r'.out.ledger
            && (Judge(slot, periods, r.cell, now) == Send ==>
                  Entry(KindOf(slot, p), mac, index, Scheduled(slot, p)) in r'.out.ledger)
  {
    hide Judge, KindOf, Scheduled;
    SetFlagSets(slot, r.cell.flags);
  }

  lemma FlagsDetermine(c: Cell, d: Cell)
    requires c.period == d.period && forall s :: Flag(s, c.flags) == Flag(s, d.flags)
    ensures c == d
  {
    assert Flag(SoonSlot, c.flags) == Flag(SoonSlot, d.flags);
    assert Flag(StartSlot, c.flags) == Flag(StartSlot, d.flags);
    assert Flag(EndSoonSlot, c.flags) == Flag(EndSoonSlot, d.flags);
    assert Flag(EndSlot, c.flags) == Flag(EndSlot, d.flags);
  }

  /** Kind k was sent for a period before j, or by one of the first n checks on j. */
  ghost predicate SentUpTo(k: Kind, row: seq<Cell>, j: nat, n: nat, now: int)
    requires j <= |row| && (n > 0 ==> j < |row|)
  {
    (exists i :: 0 <= i < j && Sends(k, row, i, now)) || (Order(SlotOf(k)) < n && Sends(k, row, j, now))
  }

  /** A batch holds at most one entry of each MAC before this one, and one of this MAC if it was sent. */
  ghost predicate Fits(out: Output, row: seq<Cell>, mac: nat, j: nat, n: nat, now: int)
    requires j <= |row| && (n > 0 ==> j < |row|)
  {
    forall k :: |BatchOf(out, k).macs| <= mac + if SentUpTo(k, row, j, n, now) then 1 else 0
  }

  ghost predicate Recorded(out: Output, before: seq<Entry>, row: seq<Cell>, mac: nat, j: nat, n: nat, now: int)
    requires j <= |row| && (n > 0 ==> j < |row|)
  {
    && before <= out.ledger
    && (forall k, i :: 0 <= i < j && Sends(k, row, i, now) ==> EntryFor(k, row, mac, i) in out.ledger)
    && (forall k :: Order(SlotOf(k)) < n && Sends(k, row, j, now) ==> EntryFor(k, row, mac, j) in out.ledger)
  }

  ghost predicate SettledSlots(c: Cell, row: seq<Cell>, j: nat, n: nat, now: int)
    requires j < |row|
  {
    && c.period == row[j].period
    && forall s :: Flag(s, c.flags) ==
         if Order(s) < n then Settles(s, PeriodsIn(row), row[j], now) else Flag(s, row[j].flags)
  }

  lemma CheckHasRoom(slot: Slot, before: seq<Entry>, row: seq<Cell>, mac: nat, j: nat, r: CellResult, now: int)
    requires WellFormed(PeriodsIn(row)) && mac < BATCH && j < |row|
    requires SettledSlots(r.cell, row, j, Order(slot), now)
    requires Fits(r.out, row, mac, j, Order(slot), now) && Recorded(r.out, before, row, mac, j, Order(slot), now)
    ensures var r' := CheckSlot(slot, PeriodsIn(row), mac, j, r, now);
            && SettledSlots(r'.cell, row, j, Order(slot) + 1, now)
            && Fits(r'.out, row, mac, j, Order(slot) + 1, now)
            && Recorded(r'.out, before, row, mac, j, Order(slot) + 1, now)
  {
    hide Judge, CheckSlot, KindOf, Scheduled, BatchOf, Flag, WellFormed, PeriodsIn;
    var k := KindOf(slot, row[j].period);
    assert SlotOf(k) == slot by {
      SlotOfKind(slot, row[j].period);
    }
    JudgeSeesOwnFlag(slot, PeriodsIn(row), r.cell, row[j], now);
    if Judge(slot, PeriodsIn(row), row[j], now) == Send {
      forall i | 0 <= i < j
        ensures !Sends(k, row, i, now)
      {
        OneSendPerSlot(slot, row, i, j, now);
      }
    }
    SlotRoom(slot, PeriodsIn(row), mac, j, r, now);
    KindsOfSlot(slot, row[j].period);
  }

  lemma SlotOfKind(slot: Slot, p: Period)
    ensures SlotOf(KindOf(slot, p)) == slot
  {}

  lemma KindsOfSlot(slot: Slot, p: Period)
    ensures forall k :: Order(SlotOf(k)) == Order(slot) && KindOf(SlotOf(k), p) == k ==> k == KindOf(slot, p)
  {}

  lemma CellHasRoom(before: seq<Entry>, row: seq<Cell>, mac: nat, j: nat, out: Output, now: int)
    requires WellFormed(PeriodsIn(row)) && mac < BATCH && j < |row|
    requires Fits(out, row, mac, j, 0, now) && Recorded(out, before, row, mac, j, 0, now)
    ensures var r := CheckCell(PeriodsIn(row), mac, j, CellResult(row[j], out), now);
            && r.cell == Evolved(PeriodsIn(row), row[j], now)
            && Fits(r.out, row, mac, j + 1, 0, now) && Recorded(r.out, before, row, mac, j + 1, 0, now)
  {
    hide CheckSlot, WellFormed, PeriodsIn, Flag, Settles, Sends, EntryFor;
    var periods, r := PeriodsIn(row), CellResult(row[j], out);
    var r1 := CheckSlot(SoonSlot, periods, mac, j, r, now);
    var r2 := CheckSlot(StartSlot, periods, mac, j, r1, now);
    var r3 := CheckSlot(EndSoonSlot, periods, mac, j, r2, now);
    var r4 := CheckSlot(EndSlot, periods, mac, j, r3, now);
    CheckHasRoom(SoonSlot, before, row, mac, j, r, now);
    CheckHasRoom(StartSlot, before, row, mac, j, r1, now);
    CheckHasRoom(EndSoonSlot, before, row, mac, j, r2, now);
    CheckHasRoom(EndSlot, before, row, mac, j, r3, now);
    FlagsDetermine(r4.cell, Evolved(periods, row[j], now));
    NextPeriod(r4.out, before, row, mac, j, now);
  }

  lemma NextPeriod(out: Output, before: seq<Entry>, row: seq<Cell>, mac: nat, j: nat, now: int)
    requires j < |row| && Fits(out, row, mac, j, 4, now) && Recorded(out, before, row, mac, j, 4, now)
    ensures Fits(out, row, mac, j + 1, 0, now) && Recorded(out, before, row, mac, j + 1, 0, now)
  {
    hide Sends, BatchOf, EntryFor;
  }

  lemma {:induction false} RowHasRoom(row: seq<Cell>, mac: nat, n: nat, out: Output, now: int)
    requires WellFormed(PeriodsIn(row)) && mac < BATCH && n <= |row|
    requires forall k :: |BatchOf(out, k).macs| <= mac
    ensures var r := CheckRow(row, mac, n, now, out);
            && r.row == EvolvedRow(row, now)[..n]
            && Fits(r.out, row, mac, n, 0, now) && Recorded(r.out, out.ledger, row, mac, n, 0, now)
  {
    hide CheckCell, WellFormed, PeriodsIn, Evolved, Sends;
    if n > 0 {
      RowHasRoom(row, mac, n - 1, out, now);
      CellHasRoom(out.ledger, row, mac, n - 1, CheckRow(row, mac, n - 1, now, out).out, now);
      assert EvolvedRow(row, now)[..n] == EvolvedRow(row, now)[..n - 1] + [Evolved(PeriodsIn(row), row[n - 1], now)];
    }
  }

  /** Every sending branch of the first n MACs is recorded. */
  ghost predicate AllRecorded(ledger: seq<Entry>, rows: seq<seq<Cell>>, n: nat, now: int)
    requires n <= |rows|
  {
    forall i, j, k :: 0 <= i < n && 0 <= j < |rows[i]| && Sends(k, rows[i], j, now) ==>
        EntryFor(k, rows[i], i, j) in ledger
  }

  lemma {:induction false} AllHaveRoom(rows: seq<seq<Cell>>, n: nat, now: int)
    requires Roomy(rows) && n <= |rows|
    ensures var r := CheckAll(rows, n, now);
            && r.rows == EvolvedRows(rows, now)[..n]
            && AllRecorded(r.out.ledger, rows, n, now)
            && forall k :: |BatchOf(r.out, k).macs| <= n
  {
    hide CheckRow, WellFormed, PeriodsIn, EvolvedRow, Sends, EntryFor;
    if n > 0 {
      AllHaveRoom(rows, n - 1, now);
      var out := CheckAll(rows, n - 1, now).out;
      RowHasRoom(rows[n - 1], n - 1, |rows[n - 1]|, out, now);
      assert EvolvedRow(rows[n - 1], now)[..|rows[n - 1]|] == EvolvedRow(rows[n - 1], now);
    } else {
      assert EvolvedRows(rows, now)[..0] == [];
      assert forall k :: BatchOf(EMPTY, k).macs == [];
    }
  }

  /** With room for every MAC a dispatch settles every due flag and takes every sending branch. */
  lemma DispatchIsComplete(rows: seq<seq<Cell>>, now: int)
    requires Roomy(rows)
    ensures RowsAfter(rows, now) == EvolvedRows(rows, now)
    ensures AllRecorded(LedgerOf(rows, now), rows, |rows|, now)
    ensures Roomy(RowsAfter(rows, now))
  {
    hide CheckAll, EvolvedRow;
    AllHaveRoom(rows, |rows|, now);
    EvolvedKeepsPeriods(rows, now);
  }

  lemma EvolvedKeepsPeriods(rows: seq<seq<Cell>>, now: int)
    ensures forall i :: 0 <= i < |rows| ==> PeriodsIn(EvolvedRows(rows, now)[i]) == PeriodsIn(rows[i])
  {
    hide Evolved;
  }
}
