/** What one dispatch looks up is exact, and what it sends is what it took up: nothing lost, nothing added. */
module DispatchProperties {
  import opened Periods
  import opened PeriodProperties
  import opened Dispatch

  // ---------- The early-exit lookup ----------

  lemma {:induction false} LookupFrom(periods: seq<Period>, i: nat, u: int)
    requires WellFormed(periods) && i <= |periods|
    ensures BlockedFrom(periods, i, u) <==> exists j :: i <= j < |periods| && Within(periods[j], u)
    decreases |periods| - i
  {
    if i < |periods| {
      LookupFrom(periods, i + 1, u);
    }
  }

  /** Stopping at the first period that starts later misses none. */
  lemma LookupIsExact(periods: seq<Period>, u: int)
    requires WellFormed(periods)
    ensures BlockedIn(periods, u) <==> Covered(periods, u)
  {
    LookupFrom(periods, 0, u);
  }

  // ---------- Conservation ----------

  /** The MACs of a batch or a sent event, each with the time it reports. */
  ghost function Tagged(macs: seq<nat>, time: int): (r: seq<(nat, int)>)
    ensures |r| == |macs|
  {
    seq(|macs|, i requires 0 <= i < |macs| => (macs[i], time))
  }

  /** The (MAC, time) pairs of the events of kind k, in the order sent. */
  ghost function Pairs(log: seq<Sent>, k: Kind): seq<(nat, int)> {
    if log == [] then []
    else
      var front, last := Pairs(log[..|log| - 1], k), log[|log| - 1];
      if last.kind == k then front + Tagged(last.macs, last.time) else front
  }

  /** The (MAC, time) pairs of the sending branches of kind k, in the order taken. */
  ghost function Project(ledger: seq<Entry>, k: Kind): seq<(nat, int)> {
    if ledger == [] then []
    else
      var front, last := Project(ledger[..|ledger| - 1], k), ledger[|ledger| - 1];
      if last.kind == k then front + [(last.mac, last.time)] else front
  }

  lemma PairsGrow(log: seq<Sent>, e: Sent, k: Kind)
    ensures Pairs(log + [e], k) == if e.kind == k then Pairs(log, k) + Tagged(e.macs, e.time) else Pairs(log, k)
  {
    assert (log + [e])[..|log|] == log;
  }

  lemma ProjectGrows(ledger: seq<Entry>, e: Entry, k: Kind)
    ensures Project(ledger + [e], k) ==
              if e.kind == k then Project(ledger, k) + [(e.mac, e.time)] else Project(ledger, k)
  {
    assert (ledger + [e])[..|ledger|] == ledger;
  }

  /** Sent or still in the batch. */
  ghost function Accounted(o: Output, k: Kind): seq<(nat, int)> {
    Pairs(o.log, k) + Tagged(BatchOf(o, k).macs, BatchOf(o, k).time)
  }

  ghost predicate Conserved(o: Output) {
    && (forall k :: Accounted(o, k) == Project(o.ledger, k))
    && (forall k :: |BatchOf(o, k).macs| <= BATCH)
    && (forall i :: 0 <= i < |o.log| ==> 0 < |o.log[i].macs| <= BATCH)
  }

  lemma SetBatchSets(o: Output, k: Kind, b: Batch, log: seq<Sent>, ledger: seq<Entry>)
    ensures var s := SetBatch(o, k, b);
            && (forall j :: BatchOf(s.(log := log, ledger := ledger), j) == if j == k then b else BatchOf(o, j))
            && s.log == o.log && s.ledger == o.ledger
  {}

  lemma FlushConserves(o: Output, k: Kind, time: int)
    requires Conserved(o)
    ensures Conserved(Flushed(o, k, time))
    ensures var b := BatchOf(Flushed(o, k, time), k); b.macs == [] || b.time == time
  {
    hide BatchOf, SetBatch, Pairs, Project;
    var b, f := BatchOf(o, k), Flushed(o, k, time);
    if b.macs != [] && b.time != time {
      SetBatchSets(o, k, Batch([], b.time), f.log, f.ledger);
      forall j
        ensures Accounted(f, j) == Project(f.ledger, j)
      {
        PairsGrow(o.log, Sent(k, b.time, b.macs), j);
        assert Accounted(f, j) == Accounted(o, j);
      }
    }
  }

  lemma PostConserves(o: Output, e: Entry)
    requires Conserved(o) && HasRoom(o, e.kind)
    requires BatchOf(o, e.kind).macs == [] || BatchOf(o, e.kind).time == e.time
    ensures Conserved(Posted(o, e))
  {
    hide BatchOf, SetBatch, Pairs, Project;
    var p := Posted(o, e);
    SetBatchSets(o, e.kind, Batch(BatchOf(o, e.kind).macs + [e.mac], e.time), p.log, p.ledger);
    forall j
      ensures Accounted(p, j) == Project(p.ledger, j)
    {
      ProjectGrows(o.ledger, e, j);
      if j == e.kind {
        assert Tagged(BatchOf(p, j).macs, e.time) == Tagged(BatchOf(o, j).macs, BatchOf(o, j).time) + [(e.mac, e.time)];
      } else {
        assert BatchOf(p, j) == BatchOf(o, j);
      }
    }
  }

  lemma SlotConserves(slot: Slot, periods: seq<Period>, mac: nat, index: nat, r: CellResult, now: int)
    requires Conserved(r.out)
    ensures Conserved(CheckSlot(slot, periods, mac, index, r, now).out)
  {
    hide Conserved, Flushed, Posted, Judge;
    var p := r.cell.period;
    if Judge(slot, periods, r.cell, now) == Send {
      FlushConserves(r.out, KindOf(slot, p), Scheduled(slot, p));
      var o := Flushed(r.out, KindOf(slot, p), Scheduled(slot, p));
      if HasRoom(o, KindOf(slot, p)) {
        PostConserves(o, Entry(KindOf(slot, p), mac, index, Scheduled(slot, p)));
      }
    }
  }

  lemma CellConserves(periods: seq<Period>, mac: nat, index: nat, r: CellResult, now: int)
    requires Conserved(r.out)
    ensures Conserved(CheckCell(periods, mac, index, r, now).out)
  {
    hide Conserved, CheckSlot;
    var r1 := CheckSlot(SoonSlot, periods, mac, index, r, now);
    var r2 := CheckSlot(StartSlot, periods, mac, index, r1, now);
    var r3 := CheckSlot(EndSoonSlot, periods, mac, index, r2, now);
    SlotConserves(SoonSlot, periods, mac, index, r, now);
    SlotConserves(StartSlot, periods, mac, index, r1, now);
    SlotConserves(EndSoonSlot, periods, mac, index, r2, now);
    SlotConserves(EndSlot, periods, mac, index, r3, now);
  }

  lemma {:induction false} RowConserves(row: seq<Cell>, mac: nat, n: nat, now: int, out: Output)
    requires n <= |row| && Conserved(out)
    ensures Conserved(CheckRow(row, mac, n, now, out).out)
  {
    hide Conserved, CheckCell;
    if n > 0 {
      RowConserves(row, mac, n - 1, now, out);
      var front := CheckRow(row, mac, n - 1, now, out);
      CellConserves(PeriodsIn(row), mac, n - 1, CellResult(row[n - 1], front.out), now);
    }
  }

  lemma {:induction false} AllConserve(rows: seq<seq<Cell>>, n: nat, now: int)
    requires n <= |rows|
    ensures Conserved(CheckAll(rows, n, now).out)
  {
    hide CheckRow;
    if n == 0 {
      assert forall k :: Accounted(EMPTY, k) == [];
    } else {
      hide Conserved;
      AllConserve(rows, n - 1, now);
      RowConserves(rows[n - 1], n - 1, |rows[n - 1]|, now, CheckAll(rows, n - 1, now).out);
    }
  }

  lemma FinalLogAccounts(o: Output, k: Kind)
    ensures Pairs(FinalLog(o), k) == Accounted(o, k)
  {
    hide Pairs, Tagged, Remaining;
    var l1 := o.log + Remaining(StartingSoon, o.soon);
    var l2 := l1 + Remaining(Started, o.started);
    var l3 := l2 + Remaining(EndingSoon, o.endingSoon);
    var l4 := l3 + Remaining(Ended, o.ended);
    RemainingAccounts(o.log, StartingSoon, o.soon, k);
    RemainingAccounts(l1, Started, o.started, k);
    RemainingAccounts(l2, EndingSoon, o.endingSoon, k);
    RemainingAccounts(l3, Ended, o.ended, k);
    RemainingAccounts(l4, NonRecurringUnpaused, o.nonRecurring, k);
  }

  lemma FinalLogSizes(o: Output)
    requires Conserved(o)
    ensures forall i :: 0 <= i < |FinalLog(o)| ==> 0 < |FinalLog(o)[i].macs| <= BATCH
  {
    hide Accounted, Project;
    assert o.soon == BatchOf(o, StartingSoon) && o.started == BatchOf(o, Started);
    assert o.endingSoon == BatchOf(o, EndingSoon);
    assert o.ended == BatchOf(o, Ended) && o.nonRecurring == BatchOf(o, NonRecurringUnpaused);
    SizesAppend(o.log, StartingSoon, o.soon);
    SizesAppend(o.log + Remaining(StartingSoon, o.soon), Started, o.started);
    SizesAppend(o.log + Remaining(StartingSoon, o.soon) + Remaining(Started, o.started), EndingSoon, o.endingSoon);
    SizesAppend(o.log + Remaining(StartingSoon, o.soon) + Remaining(Started, o.started) + Remaining(EndingSoon,
      o.endingSoon),
                Ended, o.ended);
  }

  lemma SizesAppend(log: seq<Sent>, k: Kind, b: Batch)
    requires |b.macs| <= BATCH && forall i :: 0 <= i < |log| ==> 0 < |log[i].macs| <= BATCH
    ensures forall i :: 0 <= i < |log + Remaining(k, b)| ==> 0 < |(log + Remaining(k, b))[i].macs| <= BATCH
  {}

  lemma RemainingAccounts(log: seq<Sent>, j: Kind, b: Batch, k: Kind)
    ensures Pairs(log + Remaining(j, b), k) == if j == k then Pairs(log, k) + Tagged(b.macs, b.time) else Pairs(log, k)
  {
    if b.macs == [] {
      assert log + Remaining(j, b) == log;
      assert Tagged(b.macs, b.time) == [];
    } else {
      PairsGrow(log, Sent(j, b.time, b.macs), k);
    }
  }

  /**
   However batches are flushed on the way: for each kind, the events sent list exactly the MACs
   whose sending branch was taken, each once and in order, with the time of its own period; and
   no event is empty or longer than a batch.
   */
  lemma BatchesConserve(rows: seq<seq<Cell>>, now: int, k: Kind)
    ensures Pairs(LogOf(rows, now), k) == Project(LedgerOf(rows, now), k)
    ensures forall i :: 0 <= i < |LogOf(rows, now)| ==> 0 < |LogOf(rows, now)[i].macs| <= 256
  {
    hide Conserved, CheckAll;
    AllConserve(rows, |rows|, now);
    var o := CheckAll(rows, |rows|, now).out;
    FinalLogAccounts(o, k);
    FinalLogSizes(o);
    assert Accounted(o, k) == Project(o.ledger, k) by {
      ConservedAt(o, k);
    }
  }

  function Turn(k: Kind): nat {
    match k
    case StartingSoon => 0
    case Started => 1
    case EndingSoon => 2
    case Ended => 3
    case NonRecurringUnpaused => 4
  }

  /** What was not flushed on the way goes out last, one event per kind at most, in this order of kinds. */
  lemma RemainingInOrder(rows: seq<seq<Cell>>, now: int)
    ensures var flushed, log := CheckAll(rows, |rows|, now).out.log, LogOf(rows, now);
            && flushed <= log
            && forall a, b :: |flushed| <= a < b < |log| ==> Turn(log[a].kind) < Turn(log[b].kind)
  {
    hide CheckAll;
  }

  lemma ConservedAt(o: Output, k: Kind)
    requires Conserved(o)
    ensures Accounted(o, k) == Project(o.ledger, k)
  {}
}
