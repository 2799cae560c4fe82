/**
 What send_pending_notifications_with_state_check and get_next_notification_time of
 src/aker_notification.c compute, as functions of the timelines and the time.
 */
module Dispatch {
  import opened Periods
  import opened PeriodProperties
  import opened Time

  const ADVANCE := 900   // NOTIFICATION_ADVANCE_TIME_SEC
  const LATE := 5        // NOTIFICATION_LATE_THRESHOLD_SEC
  const BATCH := 256     // entries of mac_batch_t

  datatype Kind = StartingSoon | Started | EndingSoon | Ended | NonRecurringUnpaused

  /** mac_notification_state_t of the MAC that the period belongs to. */
  datatype Flags = Flags(startingSoon: bool, started: bool, endingSoon: bool, ended: bool)

  const CLEAR := Flags(false, false, false, false)

  datatype Cell = Cell(period: Period, flags: Flags)

  /** The four checks made on a period, one per flag. */
  datatype Slot = SoonSlot | StartSlot | EndSoonSlot | EndSlot

  predicate Flag(slot: Slot, f: Flags) {
    match slot
    case SoonSlot => f.startingSoon
    case StartSlot => f.started
    case EndSoonSlot => f.endingSoon
    case EndSlot => f.ended
  }

  function SetFlag(slot: Slot, f: Flags): Flags {
    match slot
    case SoonSlot => f.(startingSoon := true)
    case StartSlot => f.(started := true)
    case EndSoonSlot => f.(endingSoon := true)
    case EndSlot => f.(ended := true)
  }

  function KindOf(slot: Slot, p: Period): Kind {
    match slot
    case SoonSlot => StartingSoon
    case StartSlot => Started
    case EndSoonSlot => EndingSoon
    case EndSlot => if p.endAbsolute then NonRecurringUnpaused else Ended
  }

  /** When the notification is due. */
  function Trigger(slot: Slot, p: Period): int {
    match slot
    case SoonSlot => p.start - ADVANCE
    case StartSlot => p.start
    case EndSoonSlot => p.end - ADVANCE
    case EndSlot => p.end
  }

  /** The time that the notification reports. */
  function Scheduled(slot: Slot, p: Period): int {
    if slot.SoonSlot? || slot.StartSlot? then p.start else p.end
  }

  /** Advance notices are not given for short periods. */
  predicate Skipped(slot: Slot, p: Period) {
    (slot.SoonSlot? || slot.EndSoonSlot?) && p.end - p.start < ADVANCE
  }

  /** No announcement of an end that the user set. */
  predicate Silent(slot: Slot, p: Period) {
    match slot
    case SoonSlot => p.startAbsolute
    case StartSlot => p.startAbsolute
    case EndSoonSlot => p.endAbsolute
    case EndSlot => false
  }

  function PeriodsIn(row: seq<Cell>): (periods: seq<Period>)
    ensures |periods| == |row|
  {
    seq(|row|, j requires 0 <= j < |row| => row[j].period)
  }

  /** is_mac_blocked_in_timeline from period i on: the walk stops at the first period that starts later. */
  predicate BlockedFrom(periods: seq<Period>, i: nat, u: int)
    requires i <= |periods|
    decreases |periods| - i
  {
    i < |periods| && (Within(periods[i], u) || (periods[i].start <= u && BlockedFrom(periods, i + 1, u)))
  }

  predicate BlockedIn(periods: seq<Period>, u: int) {
    BlockedFrom(periods, 0, u)
  }

  /** The change of state that the notification reports does take place. */
  predicate Changes(slot: Slot, periods: seq<Period>, p: Period, now: int) {
    match slot
    case SoonSlot => BlockedIn(periods, p.start) && !BlockedIn(periods, now)
    case StartSlot => BlockedIn(periods, now)
    case EndSoonSlot => BlockedIn(periods, now) && !BlockedIn(periods, p.end)
    case EndSlot => BlockedIn(periods, p.end - 1) && !BlockedIn(periods, now)
  }

  /** Leave the flag alone, set it without a notification, or send the notification. */
  datatype Verdict = Wait | Mark | Send

  function Judge(slot: Slot, periods: seq<Period>, c: Cell, now: int): Verdict {
    var p := c.period;
    if p.end < now || Skipped(slot, p) || Flag(slot, c.flags) || now < Trigger(slot, p) then Wait
    else if now - Trigger(slot, p) > LATE || Silent(slot, p) then Mark
    else if Changes(slot, periods, p, now) then Send
    else Mark
  }

  // ---------- Batches ----------

  datatype Batch = Batch(macs: seq<nat>, time: int)

  /** A notification as it leaves the program. */
  datatype Sent = Sent(kind: Kind, time: int, macs: seq<nat>)

  /** A sending branch taken: period index of the MAC's timeline, and the time to report. */
  datatype Entry = Entry(kind: Kind, mac: nat, index: nat, time: int)

  datatype Output = Output(
    soon: Batch, started: Batch, endingSoon: Batch, ended: Batch, nonRecurring: Batch,
    log: seq<Sent>, ledger: seq<Entry>)

  const EMPTY := Output(Batch([], 0), Batch([], 0), Batch([], 0), Batch([], 0), Batch([], 0), [], [])

  function BatchOf(o: Output, k: Kind): Batch {
    match k
    case StartingSoon => o.soon
    case Started => o.started
    case EndingSoon => o.endingSoon
    case Ended => o.ended
    case NonRecurringUnpaused => o.nonRecurring
  }

  function SetBatch(o: Output, k: Kind, b: Batch): Output {
    match k
    case StartingSoon => o.(soon := b)
    case Started => o.(started := b)
    case EndingSoon => o.(endingSoon := b)
    case Ended => o.(ended := b)
    case NonRecurringUnpaused => o.(nonRecurring := b)
  }

  /** A batch that reports another time is sent first. */
  function Flushed(o: Output, k: Kind, time: int): Output {
    var b := BatchOf(o, k);
    if b.macs != [] && b.time != time
    then SetBatch(o, k, Batch([], b.time)).(log := o.log + [Sent(k, b.time, b.macs)])
    else o
  }

  predicate HasRoom(o: Output, k: Kind) {
    |BatchOf(o, k).macs| < BATCH
  }

  function Posted(o: Output, e: Entry): Output {
    SetBatch(o, e.kind, Batch(BatchOf(o, e.kind).macs + [e.mac], e.time)).(ledger := o.ledger + [e])
  }

  datatype CellResult = CellResult(cell: Cell, out: Output)

  function CheckSlot(slot: Slot, periods: seq<Period>, mac: nat, index: nat, r: CellResult, now: int): CellResult {
    match Judge(slot, periods, r.cell, now)
    case Wait => r
    case Mark => r.(cell := r.cell.(flags := SetFlag(slot, r.cell.flags)))
    case Send =>
      var p := r.cell.period;
      var o := Flushed(r.out, KindOf(slot, p), Scheduled(slot, p));
      if HasRoom(o, KindOf(slot, p)) then
        CellResult(r.cell.(flags := SetFlag(slot, r.cell.flags)),
                   Posted(o, Entry(KindOf(slot, p), mac, index, Scheduled(slot, p))))
      else r.(out := o)
  }

  function CheckCell(periods: seq<Period>, mac: nat, index: nat, r: CellResult, now: int): CellResult {
    var r1 := CheckSlot(SoonSlot, periods, mac, index, r, now);
    var r2 := CheckSlot(StartSlot, periods, mac, index, r1, now);
    var r3 := CheckSlot(EndSoonSlot, periods, mac, index, r2, now);
    CheckSlot(EndSlot, periods, mac, index, r3, now)
  }

  datatype RowResult = RowResult(row: seq<Cell>, out: Output)

  /** The first n periods of one MAC. */
  function CheckRow(row: seq<Cell>, mac: nat, n: nat, now: int, out: Output): (r: RowResult)
    requires n <= |row|
    ensures |r.row| == n
  {
    if n == 0 then RowResult([], out)
    else
      var front := CheckRow(row, mac, n - 1, now, out);
      var c := CheckCell(PeriodsIn(row), mac, n - 1, CellResult(row[n - 1], front.out), now);
      RowResult(front.row + [c.cell], c.out)
  }

  datatype AllResult = AllResult(rows: seq<seq<Cell>>, out: Output)

  /** The first n MACs. */
  function CheckAll(rows: seq<seq<Cell>>, n: nat, now: int): (r: AllResult)
    requires n <= |rows|
    ensures |r.rows| == n
  {
    if n == 0 then AllResult([], EMPTY)
    else
      var front := CheckAll(rows, n - 1, now);
      var r := CheckRow(rows[n - 1], n - 1, |rows[n - 1]|, now, front.out);
      AllResult(front.rows + [r.row], r.out)
  }

  function Remaining(k: Kind, b: Batch): seq<Sent> {
    if b.macs == [] then [] else [Sent(k, b.time, b.macs)]
  }

  /** The log once the remaining batches are sent. */
  function FinalLog(o: Output): seq<Sent> {
    o.log + Remaining(StartingSoon, o.soon) + Remaining(Started, o.started) + Remaining(EndingSoon, o.endingSoon)
    + Remaining(Ended, o.ended) + Remaining(NonRecurringUnpaused, o.nonRecurring)
  }

  /** The timelines and the notifications after a dispatch. */
  function RowsAfter(rows: seq<seq<Cell>>, now: int): (r: seq<seq<Cell>>)
    ensures |r| == |rows|
  {
    CheckAll(rows, |rows|, now).rows
  }

  function LogOf(rows: seq<seq<Cell>>, now: int): seq<Sent> {
    FinalLog(CheckAll(rows, |rows|, now).out)
  }

  function LedgerOf(rows: seq<seq<Cell>>, now: int): seq<Entry> {
    CheckAll(rows, |rows|, now).out.ledger
  }

  // ---------- The next wake-up ----------

  /** The slots that get_next_notification_time waits for. */
  predicate Relevant(slot: Slot, p: Period) {
    !Skipped(slot, p) && !((slot.SoonSlot? || slot.StartSlot?) && p.startAbsolute)
  }

  function Sooner(slot: Slot, c: Cell, now: int, next: int): int {
    if Relevant(slot, c.period) && !Flag(slot, c.flags) && now <= Trigger(slot, c.period) < next
    then Trigger(slot, c.period) else next
  }

  function NextOfCell(c: Cell, now: int, next: int): int {
    if c.period.end <= now then next
    else Sooner(EndSlot, c, now, Sooner(EndSoonSlot, c, now, Sooner(StartSlot, c, now, Sooner(SoonSlot, c, now, next))))
  }

  function NextOfRow(row: seq<Cell>, n: nat, now: int, next: int): int
    requires n <= |row|
  {
    if n == 0 then next else NextOfCell(row[n - 1], now, NextOfRow(row, n - 1, now, next))
  }

  function NextOfRows(rows: seq<seq<Cell>>, n: nat, now: int): int
    requires n <= |rows|
  {
    if n == 0 then INT_MAX else NextOfRow(rows[n - 1], |rows[n - 1]|, now, NextOfRows(rows, n - 1, now))
  }

  function NextTime(rows: seq<seq<Cell>>, now: int): int {
    NextOfRows(rows, |rows|, now)
  }
}
