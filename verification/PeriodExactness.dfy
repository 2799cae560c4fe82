/**
 Which runs of the union of the two schedules become periods (build_periods_for_mac in
 src/aker_notification.c), for every event list.  A run is lost, or loses a part, exactly if a
 tie or a hand-over makes the state machine miss a change at some time in it.
 */
module PeriodExactness {
  import opened Periods
  import opened PeriodProperties
  import opened PeriodTies

  // ---------- From one second to the next ----------

  /** A list is replaced by the events of its kind at time t, and only by them. */
  lemma {:induction false} ListedFrom(events: seq<TimelineEvent>, n: nat, absolute: bool, t: int, m: nat)
    requires Ordered(events) && Agree(events, m) && n <= |events|
    ensures forall i :: 0 <= i < n && events[i].isAbsolute == absolute && events[i].time == t ==>
              Listed(events, n, absolute, t, m) == Has(events[i], m)
    ensures (forall i :: 0 <= i < n && events[i].isAbsolute == absolute ==> events[i].time != t) ==>
              Listed(events, n, absolute, t, m) == Listed(events, n, absolute, t - 1, m)
  {
    hide Has;
    if n > 0 {
      ListedFrom(events, n - 1, absolute, t, m);
      assert forall i :: 0 <= i < n - 1 ==> InOrder(events[i], events[n - 1]);
      assert forall i :: 0 <= i < n - 1 && SameMoment(events[i], events[n - 1]) ==>
                           Has(events[i], m) == Has(events[n - 1], m);
    }
  }

  /** The latest lists at t, by the events at t and the latest lists before. */
  lemma ListsAtTime(events: seq<TimelineEvent>, t: int, m: nat)
    requires Ordered(events) && Agree(events, m)
    ensures ListsAt(events, true, t, m) ==> AbsoluteAt(events, t, m)
    ensures OmitsAt(events, true, t, m) ==> !AbsoluteAt(events, t, m)
    ensures !AbsoluteEventAt(events, t) ==> AbsoluteAt(events, t, m) == AbsoluteAt(events, t - 1, m)
    ensures ListsAt(events, false, t, m) ==> WeeklyAt(events, t, m)
    ensures OmitsAt(events, false, t, m) ==> !WeeklyAt(events, t, m)
    ensures !ListsAt(events, false, t, m) && !OmitsAt(events, false, t, m) ==>
              WeeklyAt(events, t, m) == WeeklyAt(events, t - 1, m)
    ensures AbsoluteEventAt(events, t) <==> ListsAt(events, true, t, m) || OmitsAt(events, true, t, m)
  {
    hide Listed, Has;
    ListedFrom(events, |events|, true, t, m);
    ListedFrom(events, |events|, false, t, m);
  }

  /** The first event at a time. */
  lemma FirstIndex(events: seq<TimelineEvent>, i: nat) returns (k: nat)
    requires Ordered(events) && i < |events|
    ensures FirstAt(events, k) && events[k].time == events[i].time
    decreases i
  {
    k := i;
    if i > 0 {
      assert InOrder(events[i - 1], events[i]);
      if events[i - 1].time == events[i].time {
        k := FirstIndex(events, i - 1);
      }
    }
  }

  /** The union only changes at events. */
  lemma ChangesAtEvent(events: seq<TimelineEvent>, t: int, m: nat) returns (k: nat)
    requires Ordered(events) && Agree(events, m) && UnionAt(events, t, m) != UnionAt(events, t - 1, m)
    ensures k < |events| && FirstAt(events, k) && events[k].time == t
  {
    hide Listed, FirstAt;
    ListsAtTime(events, t, m);
    var i :| 0 <= i < |events| && events[i].time == t;
    k := FirstIndex(events, i);
  }

  /** Before the first event nothing is listed. */
  lemma NothingBefore(events: seq<TimelineEvent>, u: int, m: nat)
    requires forall i :: 0 <= i < |events| ==> u < events[i].time
    ensures !AbsoluteAt(events, u, m) && !WeeklyAt(events, u, m)
  {
    ListedIgnoresLater(events, 0, |events|, true, u, m);
    ListedIgnoresLater(events, 0, |events|, false, u, m);
  }

  ghost function Earliest(events: seq<TimelineEvent>): int {
    if events == [] then 0 else events[0].time
  }

  lemma NothingBeforeEarliest(events: seq<TimelineEvent>, u: int, m: nat)
    requires Ordered(events) && (events == [] || u < Earliest(events))
    ensures !UnionAt(events, u, m) && !AbsoluteAt(events, u, m)
  {
    assert forall i :: 1 <= i < |events| ==> InOrder(events[0], events[i]);
    NothingBefore(events, u, m);
  }

  /** Where the run of the union that holds u begins. */
  lemma {:induction false} RunBegins(events: seq<TimelineEvent>, u: int, m: nat) returns (r: int)
    requires Ordered(events) && UnionAt(events, u, m)
    ensures r <= u && !UnionAt(events, r - 1, m) && forall x :: r <= x <= u ==> UnionAt(events, x, m)
    decreases u - Earliest(events)
  {
    hide UnionAt, Ordered;
    if events == [] || u < Earliest(events) {
      NothingBeforeEarliest(events, u, m);
    }
    r := u;
    if UnionAt(events, u - 1, m) {
      if u - 1 < Earliest(events) {
        NothingBeforeEarliest(events, u - 1, m);
      }
      r := RunBegins(events, u - 1, m);
    }
  }

  /** Where the absolute schedule began to list the MAC. */
  lemma {:induction false} PauseBegins(events: seq<TimelineEvent>, u: int, m: nat) returns (r: int)
    requires Ordered(events) && AbsoluteAt(events, u, m)
    ensures r <= u && !AbsoluteAt(events, r - 1, m) && forall x :: r <= x <= u ==> AbsoluteAt(events, x, m)
    decreases u - Earliest(events)
  {
    hide AbsoluteAt, UnionAt, Ordered;
    if events == [] || u < Earliest(events) {
      NothingBeforeEarliest(events, u, m);
    }
    r := u;
    if AbsoluteAt(events, u - 1, m) {
      if u - 1 < Earliest(events) {
        NothingBeforeEarliest(events, u - 1, m);
      }
      r := PauseBegins(events, u - 1, m);
    }
  }

  // ---------- Losses ----------

  /** An absolute event at s newly lists the MAC, and no weekly event that ties it does: a new pause. */
  ghost predicate NewPause(events: seq<TimelineEvent>, s: int, m: nat) {
    ListsAt(events, true, s, m) && !ListsAt(events, false, s, m) && !AbsoluteAt(events, s - 1, m)
  }

  /** A new pause before t is carried on by every absolute event up to t. */
  ghost predicate PauseHolds(events: seq<TimelineEvent>, t: int, m: nat) {
    exists s :: s < t && NewPause(events, s, m) && KeepsControl(events, s, t, m)
  }

  /**
   What happens at t goes wrong.  A weekly block that begins where an absolute event omits the MAC
   is skipped; and a weekly end ends the period although the absolute list still holds the MAC,
   unless a pause of its own has control.
   */
  ghost predicate Lossy(events: seq<TimelineEvent>, t: int, m: nat) {
    || (OmitsAt(events, true, t, m) && ListsAt(events, false, t, m) && !UnionAt(events, t - 1, m))
    || (OmitsAt(events, false, t, m) && !AbsoluteEventAt(events, t) && AbsoluteAt(events, t, m) &&
        !PauseHolds(events, t, m))
  }

  /** Control of a period that began with its run is a pause that holds. */
  lemma HeldIsPause(events: seq<TimelineEvent>, start: int, t: int, m: nat)
    requires Ordered(events) && Agree(events, m) && start < t && !UnionAt(events, start - 1, m)
    ensures Held(events, start, t, m) <==> PauseHolds(events, t, m)
  {
    hide ListsAt, AbsoluteAt, WeeklyAt, Ordered, Agree, AbsoluteEventAt, KeepsControl;
    if s :| s < t && NewPause(events, s, m) && KeepsControl(events, s, t, m) {
      if s < start {
        PauseLasts(events, s, start - 1, t, m);
      }
      assert TakesControl(events, start, s, m);
    }
  }

  lemma {:induction false} PauseLasts(events: seq<TimelineEvent>, s: int, u: int, t: int, m: nat)
    requires Ordered(events) && Agree(events, m)
    requires ListsAt(events, true, s, m) && KeepsControl(events, s, t, m) && s <= u < t
    ensures AbsoluteAt(events, u, m)
    decreases u - s
  {
    hide ListsAt, AbsoluteAt, WeeklyAt, Ordered, Agree, AbsoluteEventAt;
    ListsAtTime(events, u, m);
    if s < u {
      PauseLasts(events, s, u - 1, t, m);
    }
  }

  // ---------- One timestamp ----------

  /** The lists before the first event at a time, as the state remembers them. */
  lemma StateBefore(events: seq<TimelineEvent>, k: nat, m: nat, now: int)
    requires Ordered(events) && Agree(events, m) && FirstAt(events, k)
    ensures var st, t := After(events, k, m, now), events[k].time;
            && st.absoluteIn == AbsoluteAt(events, t - 1, m) && st.weeklyIn == WeeklyAt(events, t - 1, m)
            && (st.blocked ==> k > 0 && st.start < t && UnionAt(events, t - 1, m))
            && (st.controls ==> st.blocked && st.absoluteIn)
            && (st.hasLast ==> st.lastTime < t)
            && (forall i :: 0 <= i < |st.periods| ==> st.periods[i].end < t)
            && (st.blocked ==> forall i :: 0 <= i < |st.periods| ==> st.periods[i].end < st.start)
  {
    hide After, Listed;
    StateIsSound(events, k, m, now);
    StateIsWellFormed(events, k, m, now);
    BetweenEvents(events, k, events[k].time - 1, m, now);
    if k > 0 {
      assert events[k..][0] == events[k];
      assert Tied(events[k..], events[k - 1].time) == [];
    }
  }

  /** Who is blocked after the first event at a time, in terms of the events. */
  lemma FirstEventBlocks(events: seq<TimelineEvent>, k: nat, m: nat, now: int)
    requires Ordered(events) && Agree(events, m) && FirstAt(events, k)
    ensures var e, st, t := events[k], After(events, k, m, now), events[k].time;
            After(events, k + 1, m, now).blocked <==>
              if e.isAbsolute then Has(e, m) || (st.blocked && WeeklyAt(events, t, m))
              else Has(e, m) || (st.blocked && st.controls)
  {
    hide WeeklyLists, WeeklyOmits, Has, Tied, AbsoluteAt, WeeklyAt, After, Ordered, Agree;
    StateBefore(events, k, m, now);
    TiedAgree(events, k + 1, events[k].time, m);
    ListsAtTime(events, events[k].time, m);
    if events[k].isAbsolute {
      LookAheadSeesAll(events, k, m);
    }
    AfterUnfolds(events, k, m, now);
  }

  lemma AfterUnfolds(events: seq<TimelineEvent>, k: nat, m: nat, now: int)
    requires k < |events|
    ensures After(events, k + 1, m, now) ==
              Step(After(events, k, m, now), events[k], Tied(events[k + 1..], events[k].time), m, now)
  {}

  /**
   After the first event at t the MAC is blocked exactly if a schedule lists it and t is not
   lossy, if that was so before and an open period began with its run.
   */
  lemma InStepUnlessLossy(events: seq<TimelineEvent>, k: nat, m: nat, now: int)
    requires Ordered(events) && Agree(events, m) && FirstAt(events, k)
    requires var st := After(events, k, m, now);
             && st.blocked == UnionAt(events, events[k].time - 1, m)
             && (st.blocked ==> !UnionAt(events, st.start - 1, m))
    ensures After(events, k + 1, m, now).blocked <==>
              UnionAt(events, events[k].time, m) && !Lossy(events, events[k].time, m)
  {
    hide After, ListsAt, OmitsAt, Held, PauseHolds, AbsoluteAt, WeeklyAt, AbsoluteEventAt, Has, Ordered, Agree;
    var st, t := After(events, k, m, now), events[k].time;
    StateBefore(events, k, m, now);
    FirstEventBlocks(events, k, m, now);
    FirstTellsKind(events, k, m);
    WeeklyFirst(events, k, m);
    ListsAtTime(events, t, m);
    if st.blocked {
      StateControlIsHeld(events, k, m, now);
      HeldUntilNext(events, k, st.start, m);
      HeldIsPause(events, st.start, t, m);
    }
  }

  lemma WeeklyFirst(events: seq<TimelineEvent>, k: nat, m: nat)
    requires FirstAt(events, k)
    ensures !events[k].isAbsolute ==>
              if Has(events[k], m) then ListsAt(events, false, events[k].time, m)
              else OmitsAt(events, false, events[k].time, m)
  {}

  // ---------- A run without loss becomes a period ----------

  /** From the first event at r on the run that begins there is the open period. */
  lemma {:induction false} RunStaysOpen(events: seq<TimelineEvent>, first: nat, r: int, v: int, k: nat, m: nat,
                                        now: int)
    requires Ordered(events) && Agree(events, m) && FirstAt(events, first) && events[first].time == r
    requires RunCloses(events, r, v, m) && !UnionAt(events, r - 1, m)
    requires forall t :: r <= t < v ==> !Lossy(events, t, m)
    requires first < k <= |events| && events[k - 1].time < v
    ensures var st := After(events, k, m, now); st.blocked && st.start == r
    decreases k
  {
    hide After, Lossy, UnionAt, Ordered, Agree, FirstAt;
    var j, t := k - 1, events[k - 1].time;
    StartOrLater(events, first, j);
    if FirstAt(events, j) {
      StateBefore(events, j, m, now);
      if j > first {
        StartOrLater(events, j - 1, j);
        RunStaysOpen(events, first, r, v, j, m, now);
        FirstIsLater(events, first, j);
      }
      InStepUnlessLossy(events, j, m, now);
      OpensOrStays(events, j, m, now);
    } else {
      NotFirst(events, first, j);
      StartOrLater(events, j - 1, j);
      RunStaysOpen(events, first, r, v, j, m, now);
      OnlyFirstCounts(events, j, m, now);
    }
  }

  lemma StartOrLater(events: seq<TimelineEvent>, i: nat, j: nat)
    requires Ordered(events) && i <= j < |events|
    ensures events[i].time <= events[j].time
  {
    assert i < j ==> InOrder(events[i], events[j]);
  }

  lemma FirstIsLater(events: seq<TimelineEvent>, i: nat, j: nat)
    requires Ordered(events) && i < j && FirstAt(events, j)
    ensures events[i].time < events[j].time
  {
    EarlierBefore(events, j);
  }

  lemma NotFirst(events: seq<TimelineEvent>, first: nat, j: nat)
    requires FirstAt(events, first) && first <= j && !FirstAt(events, j)
    ensures first < j
  {}

  lemma OpensOrStays(events: seq<TimelineEvent>, k: nat, m: nat, now: int)
    requires k < |events|
    ensures var st, r := After(events, k, m, now), After(events, k + 1, m, now);
            && (st.blocked && r.blocked ==> r.start == st.start && r.periods == st.periods)
            && (!st.blocked && r.blocked ==> r.start == events[k].time && r.periods == st.periods)
            && (!st.blocked && !r.blocked ==> r.periods == st.periods)
            && (st.blocked && !r.blocked ==>
                  if events[k].time > now
                  then |r.periods| == |st.periods| + 1 && r.periods[..|st.periods|] == st.periods &&
                       r.periods[|st.periods|].start == st.start && r.periods[|st.periods|].end == events[k].time
                  else r.periods == st.periods)
  {
    hide Step, Tied;
    StepEffect(After(events, k, m, now), events[k], Tied(events[k + 1..], events[k].time), m, now);
  }

  lemma {:induction false} PeriodsGrow(events: seq<TimelineEvent>, k: nat, n: nat, m: nat, now: int)
    requires k <= n <= |events|
    ensures After(events, k, m, now).periods <= After(events, n, m, now).periods
  {
    hide After;
    if k < n {
      PeriodsGrow(events, k, n - 1, m, now);
      OpensOrStays(events, n - 1, m, now);
    }
  }

  ghost predicate IsPeriod(periods: seq<Period>, start: int, end: int) {
    exists i :: 0 <= i < |periods| && periods[i].start == start && periods[i].end == end
  }

  lemma LosslessRunIsPeriod(events: seq<TimelineEvent>, r: int, v: int, m: nat, now: int)
    requires Ordered(events) && Agree(events, m) && v > now
    requires RunCloses(events, r, v, m) && !UnionAt(events, r - 1, m)
    requires forall t :: r <= t < v ==> !Lossy(events, t, m)
    ensures IsPeriod(Build(events, m, now), r, v)
  {
    hide After, Lossy, UnionAt, Ordered, Agree, FirstAt;
    var first := ChangesAtEvent(events, r, m);
    assert UnionAt(events, v - 1, m);
    var last := ChangesAtEvent(events, v, m);
    if last <= first {
      StartOrLater(events, last, first);
    }
    FirstIsLater(events, last - 1, last);
    RunStaysOpen(events, first, r, v, last, m, now);
    StateBefore(events, last, m, now);
    InStepUnlessLossy(events, last, m, now);
    OpensOrStays(events, last, m, now);
    PeriodsGrow(events, last + 1, |events|, m, now);
    var st, next := After(events, last, m, now), After(events, last + 1, m, now);
    assert next.periods[|st.periods|] == Build(events, m, now)[|st.periods|];
  }

  // ---------- A lossy time leaves a gap ----------

  /** No period holds u, and none will. */
  ghost predicate Missed(events: seq<TimelineEvent>, k: nat, u: int, m: nat, now: int)
    requires k <= |events|
  {
    var st := After(events, k, m, now);
    !Covered(st.periods, u) && (st.blocked ==> st.start > u)
  }

  lemma {:induction false} StaysMissed(events: seq<TimelineEvent>, k: nat, n: nat, u: int, m: nat, now: int)
    requires k <= n <= |events| && Missed(events, k, u, m, now)
    requires forall i :: k <= i < |events| ==> events[i].time > u
    ensures Missed(events, n, u, m, now)
  {
    hide After;
    if k < n {
      StaysMissed(events, k, n - 1, u, m, now);
      OpensOrStays(events, n - 1, m, now);
    }
  }

  /** All the events at a time are processed: nothing but the weekly list has changed since the first. */
  lemma {:induction false} RestOfTime(events: seq<TimelineEvent>, k: nat, j: nat, m: nat, now: int) returns (n: nat)
    requires Ordered(events) && Agree(events, m) && k < j <= |events| && events[j - 1].time == events[k].time
    ensures j <= n <= |events| && forall i :: n <= i < |events| ==> events[i].time > events[k].time
    ensures var st, r := After(events, j, m, now), After(events, n, m, now); r == st.(weeklyIn := r.weeklyIn)
    decreases |events| - j
  {
    hide After;
    n := j;
    if j < |events| {
      assert InOrder(events[j - 1], events[j]);
      if events[j].time == events[k].time {
        n := RestOfTime(events, k, j + 1, m, now);
        OnlyFirstCounts(events, j, m, now);
      } else {
        assert forall i :: j < i < |events| ==> InOrder(events[j], events[i]);
      }
    }
  }

  /** A lossy time has an event, and the MAC is listed there. */
  lemma LossAtEvent(events: seq<TimelineEvent>, t: int, m: nat) returns (k: nat)
    requires Ordered(events) && Agree(events, m) && Lossy(events, t, m)
    ensures k < |events| && FirstAt(events, k) && events[k].time == t && UnionAt(events, t, m)
    ensures events[k].isAbsolute ==> !Has(events[k], m) && !UnionAt(events, t - 1, m)
    ensures !events[k].isAbsolute ==> !Has(events[k], m) && AbsoluteAt(events, t, m) && !PauseHolds(events, t, m)
  {
    hide Listed, Has, PauseHolds;
    ListsAtTime(events, t, m);
    var i :| 0 <= i < |events| && events[i].time == t && !Has(events[i], m);
    k := FirstIndex(events, i);
    FirstTellsKind(events, k, m);
    WeeklyFirst(events, k, m);
  }

  /** The first event at a lossy time does not open a period, and one that is open began too late. */
  lemma LossBlocks(events: seq<TimelineEvent>, k: nat, t: int, m: nat, now: int)
    requires Ordered(events) && Agree(events, m) && FirstAt(events, k) && events[k].time == t && !Has(events[k], m)
    requires if events[k].isAbsolute then !UnionAt(events, t - 1, m) else !PauseHolds(events, t, m)
    ensures var st, r := After(events, k, m, now), After(events, k + 1, m, now);
            r.blocked ==> st.blocked && r.start == st.start && UnionAt(events, r.start - 1, m)
  {
    hide After, UnionAt, Held, PauseHolds, WeeklyAt, Has, Ordered, Agree;
    var st := After(events, k, m, now);
    StateBefore(events, k, m, now);
    FirstEventBlocks(events, k, m, now);
    OpensOrStays(events, k, m, now);
    if st.blocked {
      StateControlIsHeld(events, k, m, now);
      HeldUntilNext(events, k, st.start, m);
      if !UnionAt(events, st.start - 1, m) {
        HeldIsPause(events, st.start, t, m);
      }
    }
  }

  /** In the run of a lossy time some instant is in no period. */
  lemma LossLeavesGap(events: seq<TimelineEvent>, r: int, t: int, m: nat, now: int) returns (u: int)
    requires Ordered(events) && Agree(events, m) && Lossy(events, t, m)
    requires r <= t && !UnionAt(events, r - 1, m)
    ensures r <= u <= t && !Covered(Build(events, m, now), u) && forall x :: u <= x < t ==> UnionAt(events, x, m)
  {
    hide After, Lossy, UnionAt, Ordered, Agree, FirstAt, Has, PauseHolds, AbsoluteAt;
    var k := LossAtEvent(events, t, m);
    LossBlocks(events, k, t, m, now);
    var st := After(events, k + 1, m, now);
    OpensOrStays(events, k, m, now);
    StateBefore(events, k, m, now);
    if st.blocked {
      u := st.start - 1;
      OpenIsListed(events, k, m, now);
      assert r - 1 < st.start <= t ==> r <= u;
      forall i | k + 1 <= i < |events|
        ensures events[i].time > u
      {
        StartOrLater(events, k, i);
      }
      StaysMissed(events, k + 1, |events|, u, m, now);
    } else {
      u := t;
      EndsByNow(events, k, m, now);
      var n := RestOfTime(events, k, k + 1, m, now);
      StaysMissed(events, n, |events|, u, m, now);
    }
  }

  lemma OpenIsListed(events: seq<TimelineEvent>, k: nat, m: nat, now: int)
    requires Ordered(events) && Agree(events, m) && FirstAt(events, k) && After(events, k, m, now).blocked
    ensures forall x :: After(events, k, m, now).start <= x < events[k].time ==> UnionAt(events, x, m)
  {
    hide After, UnionAt, Ordered, Agree;
    StateCoversSoundly(events, k, m, now);
    StateIsWellFormed(events, k, m, now);
    forall x | After(events, k, m, now).start <= x < events[k].time
      ensures UnionAt(events, x, m)
    {
      if k > 0 && events[k - 1].time <= x {
        BlockedUntilNext(events, k, x, m, now);
      }
    }
  }

  lemma EndsByNow(events: seq<TimelineEvent>, k: nat, m: nat, now: int)
    requires Ordered(events) && Agree(events, m) && k < |events|
    ensures !Covered(After(events, k + 1, m, now).periods, events[k].time)
  {
    hide After;
    StateIsWellFormed(events, k + 1, m, now);
  }

  // ---------- The theorem ----------

  /** A run of the union that closes after now is one period exactly if no time in it is lossy. */
  lemma RunIsPeriodUnlessLossy(events: seq<TimelineEvent>, r: int, v: int, m: nat, now: int)
    requires Ordered(events) && Agree(events, m) && v > now
    requires RunCloses(events, r, v, m) && !UnionAt(events, r - 1, m)
    ensures IsPeriod(Build(events, m, now), r, v) <==> forall t :: r <= t < v ==> !Lossy(events, t, m)
    ensures (forall u :: r <= u < v ==> Covered(Build(events, m, now), u)) <==> IsPeriod(Build(events, m, now), r, v)
  {
    hide Lossy, UnionAt, Ordered, Agree, Build;
    if t :| r <= t < v && Lossy(events, t, m) {
      var u := LossLeavesGap(events, r, t, m, now);
      assert !Covered(Build(events, m, now), u);
    } else {
      LosslessRunIsPeriod(events, r, v, m, now);
    }
    if IsPeriod(Build(events, m, now), r, v) {
      var i :| 0 <= i < |Build(events, m, now)| && Build(events, m, now)[i].start == r &&
        Build(events, m, now)[i].end == v;
      assert forall u :: r <= u < v ==> Within(Build(events, m, now)[i], u);
    }
  }

  /** Every blocked stretch that ends after now is in the periods exactly if no such stretch begins at a lossy time. */
  lemma CompleteUnlessLossy(events: seq<TimelineEvent>, m: nat, now: int)
    requires Ordered(events) && Agree(events, m)
    ensures (forall u, v :: v > now && RunCloses(events, u, v, m) ==> Covered(Build(events, m, now), u)) <==>
            (forall t, v :: Lossy(events, t, m) && v > now ==> !RunCloses(events, t, v, m))
  {
    hide Lossy, UnionAt, Ordered, Agree, Build, Covered;
    if forall t, v :: Lossy(events, t, m) && v > now ==> !RunCloses(events, t, v, m) {
      forall u, v | v > now && RunCloses(events, u, v, m)
        ensures Covered(Build(events, m, now), u)
      {
        StretchIsCovered(events, u, v, m, now);
      }
    }
    forall t, v | Lossy(events, t, m) && v > now && RunCloses(events, t, v, m)
      ensures exists u :: RunCloses(events, u, v, m) && !Covered(Build(events, m, now), u)
    {
      assert UnionAt(events, t, m);
      var r := RunBegins(events, t, m);
      var u := LossLeavesGap(events, r, t, m, now);
    }
  }

  lemma StretchIsCovered(events: seq<TimelineEvent>, u: int, v: int, m: nat, now: int)
    requires Ordered(events) && Agree(events, m) && v > now && RunCloses(events, u, v, m)
    requires forall t :: Lossy(events, t, m) ==> !RunCloses(events, t, v, m)
    ensures Covered(Build(events, m, now), u)
  {
    hide Lossy, UnionAt, Ordered, Agree, Build;
    assert UnionAt(events, u, m);
    var r := RunBegins(events, u, m);
    assert RunCloses(events, r, v, m);
    RunIsPeriodUnlessLossy(events, r, v, m, now);
  }

  // ---------- Without ties ----------

  /** Without ties between the two schedules no time is lossy: the absolute list holds the MAC by a pause. */
  lemma TieFreeIsLossless(events: seq<TimelineEvent>, t: int, m: nat)
    requires Ordered(events) && Agree(events, m) && TieFree(events)
    ensures !Lossy(events, t, m)
  {
    hide Listed, AbsoluteAt, WeeklyAt, Has, Ordered, Agree;
    ListsAtTime(events, t, m);
    if AbsoluteAt(events, t, m) && !AbsoluteEventAt(events, t) {
      var s := PauseBegins(events, t, m);
      ListsAtTime(events, s, m);
      forall u | s < u < t && AbsoluteEventAt(events, u)
        ensures ListsAt(events, true, u, m) && !ListsAt(events, false, u, m)
      {
        ListsAtTime(events, u, m);
      }
      assert NewPause(events, s, m) && KeepsControl(events, s, t, m);
    }
  }

  /** Where nothing is lost the state is in step with the union, and every period begins and ends with its run. */
  ghost predicate InStep(events: seq<TimelineEvent>, k: nat, m: nat, now: int)
    requires k <= |events|
  {
    var st := After(events, k, m, now);
    && (k == 0 ==> !st.blocked && st.periods == [])
    && (k > 0 ==> st.blocked == UnionAt(events, events[k - 1].time, m))
    && (st.blocked ==> !UnionAt(events, st.start - 1, m))
    && forall i :: 0 <= i < |st.periods| ==>
         !UnionAt(events, st.periods[i].start - 1, m) && !UnionAt(events, st.periods[i].end, m)
  }

  lemma {:induction false} StateIsInStep(events: seq<TimelineEvent>, k: nat, m: nat, now: int)
    requires Ordered(events) && Agree(events, m) && k <= |events| && forall t :: !Lossy(events, t, m)
    ensures InStep(events, k, m, now)
  {
    hide After, Lossy, UnionAt, Ordered, Agree, FirstAt;
    if k == 0 {
      StartsUnblocked(events, m, now);
    } else {
      var j := k - 1;
      StateIsInStep(events, j, m, now);
      if FirstAt(events, j) {
        UnionUntilNext(events, j, m, now);
        InStepUnlessLossy(events, j, m, now);
        OpensOrStays(events, j, m, now);
      } else {
        OnlyFirstCounts(events, j, m, now);
        SameTimeBefore(events, j);
      }
    }
  }

  lemma StartsUnblocked(events: seq<TimelineEvent>, m: nat, now: int)
    ensures !After(events, 0, m, now).blocked && After(events, 0, m, now).periods == []
  {}

  lemma SameTimeBefore(events: seq<TimelineEvent>, k: nat)
    requires Ordered(events) && k < |events| && !FirstAt(events, k)
    ensures k > 0 && events[k - 1].time == events[k].time
  {
    assert k > 0 ==> InOrder(events[k - 1], events[k]);
  }

  /** The union keeps its value from one event to the next. */
  lemma UnionUntilNext(events: seq<TimelineEvent>, k: nat, m: nat, now: int)
    requires Ordered(events) && Agree(events, m) && FirstAt(events, k)
    ensures UnionAt(events, events[k].time - 1, m) == if k == 0 then false else UnionAt(events, events[k - 1].time, m)
  {
    hide After, Listed;
    BetweenEvents(events, k, events[k].time - 1, m, now);
    if k > 0 {
      BetweenEvents(events, k, events[k - 1].time, m, now);
    } else {
      NothingBeforeEarliest(events, events[0].time - 1, m);
    }
  }

  lemma PeriodEndsWithRun(events: seq<TimelineEvent>, i: nat, m: nat, now: int)
    requires Ordered(events) && Agree(events, m) && forall t :: !Lossy(events, t, m)
    requires i < |Build(events, m, now)|
    ensures var p := Build(events, m, now)[i]; !UnionAt(events, p.start - 1, m) && !UnionAt(events, p.end, m)
  {
    hide After, Lossy, UnionAt, Ordered, Agree;
    StateIsInStep(events, |events|, m, now);
  }

  lemma PeriodIsRun(events: seq<TimelineEvent>, i: nat, m: nat, now: int)
    requires Ordered(events) && Agree(events, m) && forall t :: !Lossy(events, t, m)
    requires i < |Build(events, m, now)|
    ensures var p := Build(events, m, now)[i];
            now < p.end && RunCloses(events, p.start, p.end, m) && !UnionAt(events, p.start - 1, m)
  {
    hide Build, Lossy, UnionAt, Ordered, Agree;
    var periods := Build(events, m, now);
    PeriodEndsWithRun(events, i, m, now);
    BuildIsWellFormed(events, m, now);
    PeriodsAreSound(events, m, now);
    forall x | periods[i].start <= x < periods[i].end
      ensures UnionAt(events, x, m)
    {
      assert Within(periods[i], x);
    }
  }

  lemma LosslessCovers(events: seq<TimelineEvent>, u: int, m: nat, now: int)
    requires Ordered(events) && Agree(events, m) && forall t :: !Lossy(events, t, m)
    ensures Covered(Build(events, m, now), u) <==> exists v :: v > now && RunCloses(events, u, v, m)
  {
    hide Build, Lossy, UnionAt, Ordered, Agree;
    var periods := Build(events, m, now);
    if i :| 0 <= i < |periods| && Within(periods[i], u) {
      PeriodIsRun(events, i, m, now);
      assert RunCloses(events, u, periods[i].end, m);
    }
    if v :| v > now && RunCloses(events, u, v, m) {
      StretchIsCovered(events, u, v, m, now);
    }
  }

  /** Where no time is lossy the periods are exactly the runs of the union that close after now. */
  lemma LosslessIsExact(events: seq<TimelineEvent>, m: nat, now: int)
    requires Ordered(events) && Agree(events, m) && forall t :: !Lossy(events, t, m)
    ensures var periods := Build(events, m, now);
            && (forall i :: 0 <= i < |periods| ==>
                  RunCloses(events, periods[i].start, periods[i].end, m) && !UnionAt(events, periods[i].start - 1, m))
            && forall u :: Covered(periods, u) <==> exists v :: v > now && RunCloses(events, u, v, m)
  {
    hide Build, Lossy, UnionAt, Ordered, Agree, RunCloses, Covered;
    var periods := Build(events, m, now);
    forall i | 0 <= i < |periods|
      ensures RunCloses(events, periods[i].start, periods[i].end, m) && !UnionAt(events, periods[i].start - 1, m)
    {
      PeriodIsRun(events, i, m, now);
    }
    forall u
      ensures Covered(periods, u) <==> exists v :: v > now && RunCloses(events, u, v, m)
    {
      LosslessCovers(events, u, m, now);
    }
  }

  /** A whole run of blocked instants, each end marked absolute exactly if an absolute event is there. */
  ghost predicate MaximalRun(events: seq<TimelineEvent>, p: Period, m: nat) {
    && RunCloses(events, p.start, p.end, m)
    && !UnionAt(events, p.start - 1, m)
    && p.startAbsolute == AbsoluteEventAt(events, p.start)
    && p.endAbsolute == AbsoluteEventAt(events, p.end)
  }

  /**
   Without ties between the two schedules the periods cover exactly the instants of those runs
   of the union of the two schedules that close after now, each period is one whole run, and
   its ends are attributed to the schedule whose event opens or closes the run.
   */
  lemma PeriodsAreExact(events: seq<TimelineEvent>, m: nat, now: int)
    requires Ordered(events) && Agree(events, m) && TieFree(events)
    ensures var periods := Build(events, m, now);
            && (forall i :: 0 <= i < |periods| ==> MaximalRun(events, periods[i], m))
            && forall u :: Covered(periods, u) <==> exists v :: v > now && RunCloses(events, u, v, m)
  {
    hide Lossy, UnionAt, Ordered, Agree, Build, StartAttributed, EndAttributed, TieFree, AbsoluteEventAt;
    forall t
      ensures !Lossy(events, t, m)
    {
      TieFreeIsLossless(events, t, m);
    }
    LosslessIsExact(events, m, now);
    PeriodsAreAttributed(events, m, now);
    forall i | 0 <= i < |Build(events, m, now)|
      ensures MaximalRun(events, Build(events, m, now)[i], m)
    {
      TieFreeAttribution(events, Build(events, m, now)[i], m);
    }
  }

  lemma TieFreeAttribution(events: seq<TimelineEvent>, p: Period, m: nat)
    requires Ordered(events) && Agree(events, m) && TieFree(events)
    requires StartAttributed(events, p.start, p.startAbsolute, m) && EndAttributed(events, p, m)
    requires UnionAt(events, p.start, m) && !UnionAt(events, p.start - 1, m)
    ensures p.startAbsolute == AbsoluteEventAt(events, p.start) && p.endAbsolute == AbsoluteEventAt(events, p.end)
  {
    hide Listed, AbsoluteAt, WeeklyAt, Has, Held, Ordered, Agree;
    ListsAtTime(events, p.start, m);
    ListsAtTime(events, p.end, m);
  }

  // ---------- What ties lose ----------

  lemma NoTies(rest: seq<TimelineEvent>, t: int)
    requires rest == [] || rest[0].time != t
    ensures Tied(rest, t) == []
  {}

  lemma OneTie(e: TimelineEvent, rest: seq<TimelineEvent>)
    requires rest == [] || rest[0].time != e.time
    ensures Tied([e] + rest, e.time) == [e]
  {
    NoTies(rest, e.time);
  }

  /** An absolute event that omits the MAC hides the night that begins at the same time: there is no period. */
  lemma NightSkipped()
    ensures var events := [TimelineEvent(10, [], true), TimelineEvent(10, [0], false), TimelineEvent(20, [], false)];
            && Ordered(events) && Agree(events, 0) && RunCloses(events, 10, 20, 0)
            && Build(events, 0, 0) == []
  {
    hide Step, Has;
    var absolute, night, morning := TimelineEvent(10, [], true), TimelineEvent(10, [0], false),
      TimelineEvent(20, [], false);
    var events := [absolute, night, morning];
    assert Has(night, 0) && !Has(morning, 0) && !Has(absolute, 0) by { MacsOf(); }
    forall x | 10 <= x < 20
      ensures UnionAt(events, x, 0)
    {
      assert Listed(events, 2, false, x, 0);
    }
    assert !Listed(events, 1, true, 20, 0);
    assert !Listed(events, 2, true, 20, 0);
    assert events[1..] == [night] + [morning];
    OneTie(night, [morning]);
    assert events[2..] == [morning];
    NoTies(events[2..], 10);
    NoTies(events[3..], 20);
    var s1 := Step(INITIAL, absolute, [night], 0, 0);
    var s2 := Step(s1, night, [], 0, 0);
    assert After(events, 1, 0, 0) == s1;
    assert After(events, 2, 0, 0) == s2;
    assert After(events, 3, 0, 0) == Step(s2, morning, [], 0, 0);
    SkippedSteps();
  }

  lemma MacsOf()
    ensures forall t: int, absolute: bool :: Has(TimelineEvent(t, [0], absolute), 0) &&
              !Has(TimelineEvent(t, [], absolute), 0)
  {}

  lemma SkippedSteps()
    ensures var absolute, night, morning := TimelineEvent(10, [], true), TimelineEvent(10, [0], false),
              TimelineEvent(20, [], false);
            Step(Step(Step(INITIAL, absolute, [night], 0, 0), night, [], 0, 0), morning, [], 0, 0).periods == []
  {}

  /** A pause that begins with the night ends with it in the periods, though it goes on. */
  lemma PauseCutShort()
    ensures var events := [TimelineEvent(10, [0], true), TimelineEvent(10, [0], false),
                           TimelineEvent(20, [], false), TimelineEvent(30, [], true)];
            && Ordered(events) && Agree(events, 0) && RunCloses(events, 10, 30, 0)
            && Build(events, 0, 0) == [Period(10, 20, false, false)]
  {
    hide Step, Has;
    var pause, night := TimelineEvent(10, [0], true), TimelineEvent(10, [0], false);
    var morning, resume := TimelineEvent(20, [], false), TimelineEvent(30, [], true);
    var events := [pause, night, morning, resume];
    assert Has(pause, 0) && Has(night, 0) && !Has(morning, 0) && !Has(resume, 0) by { MacsOf(); }
    forall x | 10 <= x < 30
      ensures UnionAt(events, x, 0)
    {
      assert Listed(events, 1, true, x, 0);
      assert Listed(events, 2, true, x, 0);
      assert Listed(events, 3, true, x, 0);
    }
    assert !Listed(events, 3, false, 30, 0);
    assert events[1..] == [night] + [morning, resume];
    OneTie(night, [morning, resume]);
    NoTies(events[2..], 10);
    NoTies(events[3..], 20);
    NoTies(events[4..], 30);
    var s1 := Step(INITIAL, pause, [night], 0, 0);
    var s2 := Step(s1, night, [], 0, 0);
    var s3 := Step(s2, morning, [], 0, 0);
    assert After(events, 1, 0, 0) == s1;
    assert After(events, 2, 0, 0) == s2;
    assert After(events, 3, 0, 0) == s3;
    assert After(events, 4, 0, 0) == Step(s3, resume, [], 0, 0);
    CutShortSteps();
  }

  lemma CutShortSteps()
    ensures var pause, night := TimelineEvent(10, [0], true), TimelineEvent(10, [0], false);
            var morning, resume := TimelineEvent(20, [], false), TimelineEvent(30, [], true);
            var s3 := Step(Step(Step(INITIAL, pause, [night], 0, 0), night, [], 0, 0), morning, [], 0, 0);
            Step(s3, resume, [], 0, 0).periods
              == [Period(10, 20, false, false)]
  {
    var pause, night := TimelineEvent(10, [0], true), TimelineEvent(10, [0], false);
    assert [night][0] == night;
    assert WeeklyLists([night], 0);
  }
}
