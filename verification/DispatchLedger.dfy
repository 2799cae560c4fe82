/** Which notifications a dispatch sends, and that over any run none is sent twice. */
module DispatchLedger {
  import opened Periods
  import opened Dispatch

  function SlotOf(k: Kind): Slot {
    match k
    case StartingSoon => SoonSlot
    case Started => StartSlot
    case EndingSoon => EndSoonSlot
    case Ended => EndSlot
    case NonRecurringUnpaused => EndSlot
  }

  /** The same MAC, the same period, and the same flag: ENDED and NON_RECURRING_UNPAUSED share one. */
  predicate SameNotice(e: Entry, f: Entry) {
    e.mac == f.mac && e.index == f.index && SlotOf(e.kind) == SlotOf(f.kind)
  }

  ghost predicate NoRepeats(ledger: seq<Entry>) {
    forall i, j :: 0 <= i < j < |ledger| ==> !SameNotice(ledger[i], ledger[j])
  }

  // ---------- One dispatch ----------

  /** The verdict that e records was to send, for the period that e names, whose flag is now set. */
  ghost predicate Genuine(row: seq<Cell>, row': seq<Cell>, e: Entry, now: int) {
    && e.index < |row| && e.index < |row'|
    && var c, slot := row[e.index], SlotOf(e.kind);
       && e.kind == KindOf(slot, c.period) && e.time == Scheduled(slot, c.period)
       && Judge(slot, PeriodsIn(row), c, now) == Send
       && Flag(slot, row'[e.index].flags)
  }

  /** Flags are only ever set, and periods never change. */
  ghost predicate Advances(c: Cell, c': Cell) {
    c'.period == c.period && forall slot :: Flag(slot, c.flags) ==> Flag(slot, c'.flags)
  }

  lemma SetFlagSets(slot: Slot, f: Flags)
    ensures forall s :: Flag(s, SetFlag(slot, f)) == (s == slot || Flag(s, f))
  {}

  /** What one check does: nothing, or set the flag, with an entry exactly when it sends. */
  lemma SlotEffect(slot: Slot, periods: seq<Period>, mac: nat, index: nat, r: CellResult, now: int)
    ensures var r' := CheckSlot(slot, periods, mac, index, r, now);
            var p := r.cell.period;
            var e := Entry(KindOf(slot, p), mac, index, Scheduled(slot, p));
            && r'.cell.period == p
            && (forall s :: s != slot ==> Flag(s, r'.cell.flags) == Flag(s, r.cell.flags))
            && (Flag(slot, r.cell.flags) ==> Flag(slot, r'.cell.flags))
            && (r'.out.ledger == r.out.ledger ||
                (r'.out.ledger == r.out.ledger + [e] && Judge(slot, periods, r.cell, now) == Send &&
                 Flag(slot, r'.cell.flags)))
    ensures SlotOf(KindOf(slot, r.cell.period)) == slot
  {
    hide Judge;
    SetFlagSets(slot, r.cell.flags);
  }

  /** A check sees only its own flag. */
  lemma JudgeSeesOwnFlag(slot: Slot, periods: seq<Period>, c: Cell, d: Cell, now: int)
    requires c.period == d.period && Flag(slot, c.flags) == Flag(slot, d.flags)
    ensures Judge(slot, periods, c, now) == Judge(slot, periods, d, now)
  {}

  function Order(slot: Slot): nat {
    match slot
    case SoonSlot => 0
    case StartSlot => 1
    case EndSoonSlot => 2
    case EndSlot => 3
  }

  /** e is the notification of one check on period index of the row, whose verdict was to send. */
  ghost predicate Earned(e: Entry, row: seq<Cell>, mac: nat, index: nat, now: int)
    requires index < |row|
  {
    var slot := SlotOf(e.kind);
    && e.mac == mac && e.index == index
    && e.kind == KindOf(slot, row[index].period) && e.time == Scheduled(slot, row[index].period)
    && Judge(slot, PeriodsIn(row), row[index], now) == Send
  }

  /** The entries added by the first n checks of one period. */
  ghost predicate Adds(before: seq<Entry>, after: seq<Entry>, row: seq<Cell>, mac: nat, index: nat, c': Cell,
                       now: int, n: nat)
    requires index < |row|
  {
    && |before| <= |after| && after[..|before|] == before
    && (forall i :: |before| <= i < |after| ==>
          && Earned(after[i], row, mac, index, now)
          && Flag(SlotOf(after[i].kind), c'.flags) && Order(SlotOf(after[i].kind)) < n)
    && (forall i, j :: |before| <= i < j < |after| ==> SlotOf(after[i].kind) != SlotOf(after[j].kind))
  }

  lemma OneMoreCheck(slot: Slot, before: seq<Entry>, row: seq<Cell>, mac: nat, index: nat, r: CellResult, now: int)
    requires index < |row| && Adds(before, r.out.ledger, row, mac, index, r.cell, now, Order(slot))
    requires Advances(row[index], r.cell)
    requires forall s :: Order(s) >= Order(slot) ==> Flag(s, r.cell.flags) == Flag(s, row[index].flags)
    ensures var r' := CheckSlot(slot, PeriodsIn(row), mac, index, r, now);
            && Adds(before, r'.out.ledger, row, mac, index, r'.cell, now, Order(slot) + 1)
            && Advances(row[index], r'.cell)
            && forall s :: Order(s) > Order(slot) ==> Flag(s, r'.cell.flags) == Flag(s, row[index].flags)
  {
    hide Judge, CheckSlot, KindOf, Scheduled, SlotOf, Flag;
    SlotEffect(slot, PeriodsIn(row), mac, index, r, now);
    JudgeSeesOwnFlag(slot, PeriodsIn(row), r.cell, row[index], now);
  }

  lemma CellEffect(row: seq<Cell>, mac: nat, index: nat, out: Output, now: int)
    requires index < |row|
    ensures var r' := CheckCell(PeriodsIn(row), mac, index, CellResult(row[index], out), now);
            Advances(row[index], r'.cell) && Adds(out.ledger, r'.out.ledger, row, mac, index, r'.cell, now, 4)
  {
    hide CheckSlot, Flag;
    var periods, r := PeriodsIn(row), CellResult(row[index], out);
    var r1 := CheckSlot(SoonSlot, periods, mac, index, r, now);
    var r2 := CheckSlot(StartSlot, periods, mac, index, r1, now);
    var r3 := CheckSlot(EndSoonSlot, periods, mac, index, r2, now);
    OneMoreCheck(SoonSlot, out.ledger, row, mac, index, r, now);
    hide Adds, Advances;
    OneMoreCheck(StartSlot, out.ledger, row, mac, index, r1, now);
    OneMoreCheck(EndSoonSlot, out.ledger, row, mac, index, r2, now);
    OneMoreCheck(EndSlot, out.ledger, row, mac, index, r3, now);
  }

  /** The entries that a dispatch adds to the ones before. */
  ghost function Added(before: seq<Entry>, after: seq<Entry>): seq<Entry>
    requires |before| <= |after|
  {
    after[|before|..]
  }

  lemma NoRepeatsJoin(first: seq<Entry>, second: seq<Entry>)
    requires NoRepeats(first) && NoRepeats(second)
    requires forall e, f :: e in first && f in second ==> !SameNotice(e, f)
    ensures NoRepeats(first + second)
  {
    hide SameNotice;
    var all := first + second;
    forall i, j | 0 <= i < j < |all|
      ensures !SameNotice(all[i], all[j])
    {
      if i < |first| <= j {
        assert all[i] in first && all[j] in second;
      }
    }
  }

  ghost predicate RowEffect(row: seq<Cell>, mac: nat, n: nat, now: int, out: Output)
    requires n <= |row|
  {
    var r := CheckRow(row, mac, n, now, out);
    var before, after := out.ledger, r.out.ledger;
    && (forall j :: 0 <= j < n ==> Advances(row[j], r.row[j]))
    && before <= after
    && (forall e :: e in Added(before, after) ==> e.mac == mac && e.index < n && Genuine(row, r.row, e, now))
    && NoRepeats(Added(before, after))
  }

  /** The entries of one period. */
  lemma CellAdds(row: seq<Cell>, mac: nat, index: nat, out: Output, now: int)
    requires index < |row|
    ensures var r := CheckCell(PeriodsIn(row), mac, index, CellResult(row[index], out), now);
            && Advances(row[index], r.cell) && out.ledger <= r.out.ledger
            && (forall e :: e in Added(out.ledger, r.out.ledger) ==>
                  Earned(e, row, mac, index, now) && Flag(SlotOf(e.kind), r.cell.flags))
            && NoRepeats(Added(out.ledger, r.out.ledger))
  {
    hide CheckCell, Advances, Earned, Flag, SlotOf;
    CellEffect(row, mac, index, out, now);
    var after := CheckCell(PeriodsIn(row), mac, index, CellResult(row[index], out), now).out.ledger;
    var added := Added(out.ledger, after);
    assert forall i :: 0 <= i < |added| ==> added[i] == after[|out.ledger| + i];
  }

  lemma {:induction false} RowTakesEffect(row: seq<Cell>, mac: nat, n: nat, now: int, out: Output)
    requires n <= |row|
    ensures RowEffect(row, mac, n, now, out)
  {
    hide CheckCell, Genuine, Advances, Earned, Flag, SlotOf;
    if n > 0 {
      RowTakesEffect(row, mac, n - 1, now, out);
      var front := CheckRow(row, mac, n - 1, now, out);
      var r := CheckCell(PeriodsIn(row), mac, n - 1, CellResult(row[n - 1], front.out), now);
      CellAdds(row, mac, n - 1, front.out, now);
      var earlier, latest := Added(out.ledger, front.out.ledger), Added(front.out.ledger, r.out.ledger);
      assert Added(out.ledger, r.out.ledger) == earlier + latest;
      forall e | e in latest
        ensures e.mac == mac && e.index == n - 1 && Genuine(row, front.row + [r.cell], e, now)
      {
        EarnedIsGenuine(row, front.row + [r.cell], mac, n - 1, e, now);
      }
      forall e | e in earlier
        ensures e.mac == mac && e.index < n - 1 && Genuine(row, front.row + [r.cell], e, now)
      {
        GenuineStays(row, front.row, r.cell, e, now);
      }
      NoRepeatsJoin(earlier, latest);
    }
  }

  lemma EarnedIsGenuine(row: seq<Cell>, row': seq<Cell>, mac: nat, index: nat, e: Entry, now: int)
    requires index < |row| && index < |row'| && Earned(e, row, mac, index, now) &&
                Flag(SlotOf(e.kind), row'[index].flags)
    ensures e.mac == mac && e.index == index && Genuine(row, row', e, now)
  {}

  lemma GenuineStays(row: seq<Cell>, row': seq<Cell>, c: Cell, e: Entry, now: int)
    requires e.index < |row'| && Genuine(row, row', e, now)
    ensures Genuine(row, row' + [c], e, now)
  {}

  ghost predicate AllEffect(rows: seq<seq<Cell>>, n: nat, now: int)
    requires n <= |rows|
  {
    var r := CheckAll(rows, n, now);
    && (forall i :: 0 <= i < n ==> |r.rows[i]| == |rows[i]| && forall j :: 0 <= j < |rows[i]| ==>
         Advances(rows[i][j], r.rows[i][j]))
    && (forall e :: e in r.out.ledger ==> e.mac < n && Genuine(rows[e.mac], r.rows[e.mac], e, now))
    && NoRepeats(r.out.ledger)
  }

  lemma {:induction false} AllTakeEffect(rows: seq<seq<Cell>>, n: nat, now: int)
    requires n <= |rows|
    ensures AllEffect(rows, n, now)
  {
    hide CheckRow, Genuine, Advances;
    if n > 0 {
      AllTakeEffect(rows, n - 1, now);
      var front := CheckAll(rows, n - 1, now);
      RowTakesEffect(rows[n - 1], n - 1, |rows[n - 1]|, now, front.out);
      var r := CheckRow(rows[n - 1], n - 1, |rows[n - 1]|, now, front.out);
      var added := Added(front.out.ledger, r.out.ledger);
      assert r.out.ledger == front.out.ledger + added;
      NoRepeatsJoin(front.out.ledger, added);
    }
  }

  // ---------- Any sequence of dispatches ----------

  ghost function RunRows(rows: seq<seq<Cell>>, times: seq<int>): (r: seq<seq<Cell>>)
    ensures |r| == |rows|
  {
    if times == [] then rows else RowsAfter(RunRows(rows, times[..|times| - 1]), times[|times| - 1])
  }

  ghost function RunLedger(rows: seq<seq<Cell>>, times: seq<int>): seq<Entry> {
    if times == [] then []
    else
      var front := times[..|times| - 1];
      RunLedger(rows, front) + LedgerOf(RunRows(rows, front), times[|times| - 1])
  }

  /** Every notification recorded so far has its flag set. */
  ghost predicate Flagged(ledger: seq<Entry>, rows: seq<seq<Cell>>) {
    forall e :: e in ledger ==>
      e.mac < |rows| && e.index < |rows[e.mac]| && Flag(SlotOf(e.kind), rows[e.mac][e.index].flags)
  }

  /** A dispatch keeps the flags of earlier notifications, sets those of its own, and repeats none. */
  lemma DispatchFlags(ledger: seq<Entry>, rows: seq<seq<Cell>>, now: int)
    requires Flagged(ledger, rows)
    ensures Flagged(ledger, RowsAfter(rows, now)) && Flagged(LedgerOf(rows, now), RowsAfter(rows, now))
    ensures forall e, f :: e in ledger && f in LedgerOf(rows, now) ==> !SameNotice(e, f)
  {
    hide CheckAll, Flag, SlotOf;
    AllTakeEffect(rows, |rows|, now);
    forall e, f | e in ledger && f in LedgerOf(rows, now)
      ensures !SameNotice(e, f)
    {
      assert Genuine(rows[f.mac], RowsAfter(rows, now)[f.mac], f, now);
    }
  }

  lemma {:induction false} RunFlags(rows: seq<seq<Cell>>, times: seq<int>)
    ensures Flagged(RunLedger(rows, times), RunRows(rows, times)) && NoRepeats(RunLedger(rows, times))
  {
    if times != [] {
      hide LedgerOf, RowsAfter, SameNotice;
      var front, now := times[..|times| - 1], times[|times| - 1];
      RunFlags(rows, front);
      var was := RunRows(rows, front);
      DispatchFlags(RunLedger(rows, front), was, now);
      NewEntriesOnce(was, now);
      NoRepeatsJoin(RunLedger(rows, front), LedgerOf(was, now));
    }
  }

  lemma NewEntriesOnce(rows: seq<seq<Cell>>, now: int)
    ensures NoRepeats(LedgerOf(rows, now))
  {
    hide CheckAll;
    AllTakeEffect(rows, |rows|, now);
  }

  /**
   Whatever the times at which the dispatcher is called, each kind of notification is sent at most
   once per MAC and period, and never both ENDED and NON_RECURRING_UNPAUSED.
   */
  lemma NeverTwice(rows: seq<seq<Cell>>, times: seq<int>)
    ensures NoRepeats(RunLedger(rows, times))
  {
    RunFlags(rows, times);
  }

  /** Flags only go from clear to set, and nothing else about a timeline changes. */
  lemma FlagsOnlySet(rows: seq<seq<Cell>>, now: int, i: nat, j: nat)
    requires i < |rows| && j < |rows[i]|
    ensures |RowsAfter(rows, now)[i]| == |rows[i]| && Advances(rows[i][j], RowsAfter(rows, now)[i][j])
  {
    hide CheckAll;
    AllTakeEffect(rows, |rows|, now);
  }

  /** Every notification is for a period whose own start or end is the time reported. */
  lemma LedgerIsGenuine(rows: seq<seq<Cell>>, now: int, e: Entry)
    requires e in LedgerOf(rows, now)
    ensures e.mac < |rows| && Genuine(rows[e.mac], RowsAfter(rows, now)[e.mac], e, now)
    ensures NoRepeats(LedgerOf(rows, now))
  {
    hide CheckAll, Genuine;
    AllTakeEffect(rows, |rows|, now);
  }
}
