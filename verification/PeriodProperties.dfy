/** What the periods of build_periods_for_mac mean, as sets of instants. */
module PeriodProperties {
  import opened Lists
  import opened Periods

  // ---------- Event lists ----------

  /** Sorted by time, absolute events before weekly ones at the same time. */
  ghost predicate Ordered(events: seq<TimelineEvent>) {
    forall i, j :: 0 <= i < j < |events| ==> InOrder(events[i], events[j])
  }

  predicate InOrder(e: TimelineEvent, f: TimelineEvent) {
    e.time < f.time || (e.time == f.time && (e.isAbsolute || !f.isAbsolute))
  }

  /** Events of the same kind at the same time agree on the MAC. */
  ghost predicate Agree(events: seq<TimelineEvent>, m: nat) {
    forall i, j :: 0 <= i < j < |events| && SameMoment(events[i], events[j]) ==>
      Has(events[i], m) == Has(events[j], m)
  }

  predicate SameMoment(e: TimelineEvent, f: TimelineEvent) {
    e.time == f.time && e.isAbsolute == f.isAbsolute
  }

  ghost predicate TieFree(events: seq<TimelineEvent>) {
    forall i, j :: 0 <= i < j < |events| && events[i].time == events[j].time ==>
      events[i].isAbsolute == events[j].isAbsolute
  }

  // ---------- The schedules as step functions of time ----------

  /** The MAC is in the latest list of the given kind among the first n events, at or before u. */
  ghost predicate Listed(events: seq<TimelineEvent>, n: nat, absolute: bool, u: int, m: nat)
    requires n <= |events|
  {
    if n == 0 then false
    else if events[n - 1].isAbsolute == absolute && events[n - 1].time <= u then Has(events[n - 1], m)
    else Listed(events, n - 1, absolute, u, m)
  }

  ghost predicate AbsoluteAt(events: seq<TimelineEvent>, u: int, m: nat) {
    Listed(events, |events|, true, u, m)
  }

  ghost predicate WeeklyAt(events: seq<TimelineEvent>, u: int, m: nat) {
    Listed(events, |events|, false, u, m)
  }

  /** One of the two schedules blocks the MAC at u. */
  ghost predicate UnionAt(events: seq<TimelineEvent>, u: int, m: nat) {
    AbsoluteAt(events, u, m) || WeeklyAt(events, u, m)
  }

  lemma {:induction false} ListedIgnoresLater(events: seq<TimelineEvent>, k: nat, n: nat, absolute: bool, u: int,
                                              m: nat)
    requires k <= n <= |events|
    requires forall i :: k <= i < n ==> events[i].time > u
    ensures Listed(events, n, absolute, u, m) == Listed(events, k, absolute, u, m)
  {
    if k < n {
      ListedIgnoresLater(events, k, n - 1, absolute, u, m);
    }
  }

  lemma {:induction false} StateRemembers(events: seq<TimelineEvent>, k: nat, u: int, m: nat, now: int)
    requires k <= |events|
    requires forall i :: 0 <= i < k ==> events[i].time <= u
    ensures After(events, k, m, now).absoluteIn == Listed(events, k, true, u, m)
    ensures After(events, k, m, now).weeklyIn == Listed(events, k, false, u, m)
  {
    hide Step;
    if k > 0 {
      StateRemembers(events, k - 1, u, m, now);
      StepRemembers(After(events, k - 1, m, now), events[k - 1], Tied(events[k..], events[k - 1].time), m, now);
    }
  }

  lemma StepRemembers(st: State, e: TimelineEvent, tied: seq<TimelineEvent>, m: nat, now: int)
    ensures var r := Step(st, e, tied, m, now);
            && r.absoluteIn == (if e.isAbsolute then Has(e, m) else st.absoluteIn)
            && r.weeklyIn == if e.isAbsolute then st.weeklyIn else Has(e, m)
  {
    hide WeeklyLists, WeeklyOmits, WeeklyHolds, Has, PassedOver;
  }

  /** Between event k-1 and event k the step functions are what the state remembers. */
  lemma BetweenEvents(events: seq<TimelineEvent>, k: nat, u: int, m: nat, now: int)
    requires Ordered(events) && 0 <= k <= |events|
    requires k > 0 ==> events[k - 1].time <= u
    requires k < |events| ==> u < events[k].time
    ensures AbsoluteAt(events, u, m) == After(events, k, m, now).absoluteIn
    ensures WeeklyAt(events, u, m) == After(events, k, m, now).weeklyIn
  {
    hide After;
    ListedIgnoresLater(events, k, |events|, true, u, m);
    ListedIgnoresLater(events, k, |events|, false, u, m);
    StateRemembers(events, k, u, m, now);
  }

  // ---------- Look-ahead ----------

  /** Under Agree the tied weekly events all say the same. */
  lemma {:induction false} TiedAgree(events: seq<TimelineEvent>, k: nat, t: int, m: nat)
    requires Ordered(events) && Agree(events, m) && 0 < k <= |events| && t == events[k - 1].time
    ensures var tied := Tied(events[k..], t);
            && (forall d :: WeeklyHolds(tied, m, d) ==
                  if WeeklyLists(tied, m) then true else !WeeklyOmits(tied, m) && d)
            && !(WeeklyLists(tied, m) && WeeklyOmits(tied, m))
    decreases |events| - k
  {
    var tied := Tied(events[k..], t);
    if k < |events| && events[k].time == t {
      assert events[k..][1..] == events[k + 1..];
      TiedAgree(events, k + 1, t, m);
      var rest := Tied(events[k + 1..], t);
      assert tied == [events[k]] + rest;
      assert tied[1..] == rest;
      TiedCons(events[k], rest, m);
      TiedIsPrefix(events[k + 1..], t);
      if !events[k].isAbsolute && rest != [] {
        assert rest[0] == events[k + 1];
      }
    }
  }

  lemma TiedCons(e: TimelineEvent, rest: seq<TimelineEvent>, m: nat)
    ensures WeeklyLists([e] + rest, m) <==> (!e.isAbsolute && Has(e, m)) || WeeklyLists(rest, m)
    ensures WeeklyOmits([e] + rest, m) <==> (!e.isAbsolute && !Has(e, m)) || WeeklyOmits(rest, m)
  {
    var all := [e] + rest;
    assert forall i :: 0 <= i < |rest| ==> rest[i] == all[i + 1];
    assert all[0] == e;
  }

  // ---------- Ties ----------

  /** The second of two events at the same time changes nothing but what the weekly schedule says. */
  lemma RepeatKeeps(events: seq<TimelineEvent>, k: nat, m: nat, now: int)
    requires Ordered(events) && Agree(events, m)
    requires 0 < k < |events| && events[k].time == events[k - 1].time
    ensures var a, b := After(events, k, m, now), After(events, k + 1, m, now);
            && b == a.(weeklyIn := b.weeklyIn)
            && b.weeklyIn == if events[k].isAbsolute then a.weeklyIn else Has(events[k], m)
  {
    hide WeeklyLists, WeeklyOmits;
    var t := events[k].time;
    var rest := Tied(events[k + 1..], t);
    assert events[k..][1..] == events[k + 1..];
    assert Tied(events[k..], t) == [events[k]] + rest;
    assert ([events[k]] + rest)[1..] == rest;
    TiedCons(events[k], rest, m);
    TiedAgree(events, k, t, m);
    TiedAgree(events, k + 1, t, m);
    assert SameMoment(events[k - 1], events[k]) ==> Has(events[k - 1], m) == Has(events[k], m);
  }

  /** Whether the weekly schedule holds the MAC once every event at the current time is processed. */
  ghost predicate WeeklyPending(events: seq<TimelineEvent>, k: nat, m: nat, now: int)
    requires k <= |events|
  {
    var weeklyIn := After(events, k, m, now).weeklyIn;
    if k == 0 then weeklyIn else WeeklyHolds(Tied(events[k..], events[k - 1].time), m, weeklyIn)
  }

  /** Absolute control implies a listed, blocked MAC; a blocked MAC is in one of the two schedules. */
  ghost predicate SoundState(events: seq<TimelineEvent>, k: nat, m: nat, now: int)
    requires k <= |events|
  {
    var st := After(events, k, m, now);
    && (st.controls ==> st.blocked && st.absoluteIn)
    && (st.blocked ==> st.absoluteIn || WeeklyPending(events, k, m, now))
    && (st.hasLast ==> k > 0 && st.lastTime <= events[k - 1].time)
  }

  lemma {:induction false} StateIsSound(events: seq<TimelineEvent>, k: nat, m: nat, now: int)
    requires Ordered(events) && Agree(events, m) && k <= |events|
    ensures SoundState(events, k, m, now)
  {
    hide Step, WeeklyLists, WeeklyOmits;
    if k > 0 {
      StateIsSound(events, k - 1, m, now);
      if k > 1 && events[k - 1].time == events[k - 2].time {
        SoundRepeat(events, k - 1, m, now);
      } else {
        SoundFirst(events, k - 1, m, now);
      }
    }
  }

  lemma SoundRepeat(events: seq<TimelineEvent>, k: nat, m: nat, now: int)
    requires Ordered(events) && Agree(events, m)
    requires 0 < k < |events| && events[k].time == events[k - 1].time && SoundState(events, k, m, now)
    ensures SoundState(events, k + 1, m, now)
  {
    hide Step, WeeklyLists, WeeklyOmits;
    RepeatKeeps(events, k, m, now);
    var t := events[k].time;
    var rest := Tied(events[k + 1..], t);
    assert events[k..][1..] == events[k + 1..];
    assert Tied(events[k..], t) == [events[k]] + rest;
    assert ([events[k]] + rest)[1..] == rest;
    TiedCons(events[k], rest, m);
    TiedAgree(events, k, t, m);
    TiedAgree(events, k + 1, t, m);
  }

  lemma SoundFirst(events: seq<TimelineEvent>, k: nat, m: nat, now: int)
    requires Ordered(events) && Agree(events, m) && k < |events| && SoundState(events, k, m, now)
    requires k > 0 ==> events[k - 1].time < events[k].time
    ensures SoundState(events, k + 1, m, now)
  {
    hide WeeklyLists, WeeklyOmits;
    var t := events[k].time;
    TiedIsPrefix(events[k + 1..], t);
    TiedAgree(events, k + 1, t, m);
    if k > 0 {
      assert events[k..][0] == events[k];
      assert Tied(events[k..], events[k - 1].time) == [];
    }
    WeeklyTieAgrees(events, k, m);
  }

  /** If the event itself is weekly, the tied weekly events agree with it. */
  lemma WeeklyTieAgrees(events: seq<TimelineEvent>, k: nat, m: nat)
    requires Ordered(events) && Agree(events, m) && k < |events|
    ensures var tied := Tied(events[k + 1..], events[k].time);
            !events[k].isAbsolute ==> WeeklyHolds(tied, m, Has(events[k], m)) == Has(events[k], m)
  {
    TiedIsPrefix(events[k + 1..], events[k].time);
    var tied := Tied(events[k + 1..], events[k].time);
    if !events[k].isAbsolute && tied != [] {
      assert tied[0] == events[k + 1];
      assert SameMoment(events[k], events[k + 1]);
    }
  }

  /** A step either leaves the open period alone, opens one at e, or closes it at e. */
  lemma StepEffect(st: State, e: TimelineEvent, tied: seq<TimelineEvent>, m: nat, now: int)
    ensures var r := Step(st, e, tied, m, now);
            && (r.blocked == st.blocked ==> r.periods == st.periods)
            && (r.blocked && st.blocked ==> r.start == st.start && r.startAbsolute == st.startAbsolute)
            && (!st.blocked && r.blocked ==>
                  r.periods == st.periods && r.start == e.time &&
                  r.startAbsolute == (e.isAbsolute && !WeeklyLists(tied, m)))
            && (st.blocked && !r.blocked ==>
                  r.periods == if e.time > now then st.periods + [Closed(st, e, tied, m)] else st.periods)
  {
    hide WeeklyLists, WeeklyOmits, WeeklyHolds, Has, PassedOver, Noted;
    NotedKeeps(st, e, m);
  }

  lemma NotedKeeps(st: State, e: TimelineEvent, m: nat)
    ensures var s := Noted(st, e, m);
            && s.blocked == st.blocked && s.start == st.start && s.startAbsolute == st.startAbsolute
            && s.controls == st.controls && s.periods == st.periods
  {}

  // ---------- Well-formed period lists ----------

  /** Nonempty periods that end after now, apart from each other and in order. */
  ghost predicate WellFormed(periods: seq<Period>) {
    && (forall i :: 0 <= i < |periods| ==> periods[i].start < periods[i].end)
    && (forall i, j :: 0 <= i < j < |periods| ==> periods[i].end < periods[j].start)
  }

  ghost predicate WellFormedState(events: seq<TimelineEvent>, k: nat, m: nat, now: int)
    requires k <= |events|
  {
    var st := After(events, k, m, now);
    && (k == 0 ==> st.periods == [] && !st.blocked)
    && WellFormed(st.periods)
    && (forall i :: 0 <= i < |st.periods| ==> now < st.periods[i].end <= events[k - 1].time)
    && (st.blocked ==> st.start <= events[k - 1].time)
    && (st.blocked ==> forall i :: 0 <= i < |st.periods| ==> st.periods[i].end < st.start)
  }

  lemma {:induction false} StateIsWellFormed(events: seq<TimelineEvent>, k: nat, m: nat, now: int)
    requires Ordered(events) && Agree(events, m) && k <= |events|
    ensures WellFormedState(events, k, m, now)
  {
    hide Step;
    if k > 0 {
      StateIsWellFormed(events, k - 1, m, now);
      if k > 1 && events[k - 1].time == events[k - 2].time {
        RepeatKeeps(events, k - 1, m, now);
      } else {
        StepEffect(After(events, k - 1, m, now), events[k - 1], Tied(events[k..], events[k - 1].time), m, now);
      }
    }
  }

  /** The periods built are nonempty, disjoint, separated, in order, and end after now. */
  lemma BuildIsWellFormed(events: seq<TimelineEvent>, m: nat, now: int)
    requires Ordered(events) && Agree(events, m)
    ensures WellFormed(Build(events, m, now))
    ensures forall i :: 0 <= i < |Build(events, m, now)| ==> now < Build(events, m, now)[i].end
  {
    hide After;
    StateIsWellFormed(events, |events|, m, now);
  }

  // ---------- Soundness, with any ties ----------

  predicate Within(p: Period, u: int) {
    p.start <= u < p.end
  }

  ghost predicate Covered(periods: seq<Period>, u: int) {
    exists i :: 0 <= i < |periods| && Within(periods[i], u)
  }

  ghost predicate CoversSoundly(events: seq<TimelineEvent>, k: nat, m: nat, now: int)
    requires k <= |events|
  {
    var st := After(events, k, m, now);
    && (forall i, u :: 0 <= i < |st.periods| && Within(st.periods[i], u) ==> UnionAt(events, u, m))
    && (k > 0 && st.blocked ==> forall u :: st.start <= u < events[k - 1].time ==> UnionAt(events, u, m))
  }

  lemma {:induction false} StateCoversSoundly(events: seq<TimelineEvent>, k: nat, m: nat, now: int)
    requires Ordered(events) && Agree(events, m) && k <= |events|
    ensures CoversSoundly(events, k, m, now)
  {
    hide UnionAt, Step;
    if k > 0 {
      StateCoversSoundly(events, k - 1, m, now);
      if k > 1 && events[k - 1].time == events[k - 2].time {
        RepeatKeeps(events, k - 1, m, now);
      } else {
        StepCoversSoundly(events, k - 1, m, now);
      }
    }
  }

  /** While the state is blocked, so is the MAC by one of the schedules until the next event. */
  lemma BlockedUntilNext(events: seq<TimelineEvent>, k: nat, u: int, m: nat, now: int)
    requires Ordered(events) && Agree(events, m) && 0 < k < |events|
    requires events[k - 1].time <= u < events[k].time
    requires After(events, k, m, now).blocked
    ensures UnionAt(events, u, m)
  {
    hide After;
    StateIsSound(events, k, m, now);
    BetweenEvents(events, k, u, m, now);
    assert events[k..][0] == events[k];
  }

  lemma StepCoversSoundly(events: seq<TimelineEvent>, k: nat, m: nat, now: int)
    requires Ordered(events) && Agree(events, m) && k < |events| && CoversSoundly(events, k, m, now)
    requires k > 0 ==> events[k - 1].time < events[k].time
    ensures CoversSoundly(events, k + 1, m, now)
  {
    hide UnionAt, Step;
    var st := After(events, k, m, now);
    StepEffect(st, events[k], Tied(events[k + 1..], events[k].time), m, now);
    if k > 0 && st.blocked {
      forall u | st.start <= u < events[k].time
        ensures UnionAt(events, u, m)
      {
        if events[k - 1].time <= u {
          BlockedUntilNext(events, k, u, m, now);
        }
      }
    }
  }

  /** No period covers an instant at which neither schedule lists the MAC, whatever the ties. */
  lemma PeriodsAreSound(events: seq<TimelineEvent>, m: nat, now: int)
    requires Ordered(events) && Agree(events, m)
    ensures forall u :: Covered(Build(events, m, now), u) ==> UnionAt(events, u, m)
  {
    hide After, UnionAt;
    StateCoversSoundly(events, |events|, m, now);
  }

  // ---------- Runs of the union ----------

  ghost predicate AbsoluteEventAt(events: seq<TimelineEvent>, t: int) {
    exists i :: 0 <= i < |events| && events[i].isAbsolute && events[i].time == t
  }

  /** Some schedule lists the MAC from u up to v, and none does at v. */
  ghost predicate RunCloses(events: seq<TimelineEvent>, u: int, v: int, m: nat) {
    u < v && !UnionAt(events, v, m) && forall x :: u <= x < v ==> UnionAt(events, x, m)
  }

  // ---------- Bystanders ----------

  /** e is an absolute event that omits the MAC, at a time of its own, with k events before it. */
  ghost predicate Bystands(events: seq<TimelineEvent>, k: nat, e: TimelineEvent, m: nat) {
    && k <= |events| && e.isAbsolute && !Has(e, m)
    && (forall i :: 0 <= i < k ==> events[i].time < e.time)
    && (forall i :: k <= i < |events| ==> events[i].time > e.time)
  }

  lemma {:induction false} TiedSkips(events: seq<TimelineEvent>, k: nat, e: TimelineEvent, j: nat, t: int)
    requires j <= k <= |events| && e.time != t && forall i :: k <= i < |events| ==> events[i].time != t
    ensures Tied(InsertAt(events, k, e)[j..], t) == Tied(events[j..], t)
    decreases k - j
  {
    var more := InsertAt(events, k, e);
    if j < k {
      TiedSkips(events, k, e, j + 1, t);
      assert more[j..][1..] == more[j + 1..] && events[j..][1..] == events[j + 1..];
      assert more[j..][0] == events[j..][0];
    } else {
      assert more[k..][0] == e;
    }
  }

  lemma {:induction false} SameBefore(events: seq<TimelineEvent>, k: nat, e: TimelineEvent, j: nat, m: nat, now: int)
    requires Bystands(events, k, e, m) && j <= k
    ensures After(InsertAt(events, k, e), j, m, now) == After(events, j, m, now)
  {
    hide Step;
    if j > 0 {
      SameBefore(events, k, e, j - 1, m, now);
      TiedSkips(events, k, e, j, events[j - 1].time);
    }
  }

  /** The event itself changes only which absolute time was seen last. */
  lemma PassesBystander(events: seq<TimelineEvent>, k: nat, e: TimelineEvent, m: nat, now: int)
    requires Ordered(events) && Agree(events, m) && Bystands(events, k, e, m)
    requires !AbsoluteAt(events, e.time, m)
    ensures After(InsertAt(events, k, e), k + 1, m, now)
              == After(events, k, m, now).(hasLast := true, lastTime := e.time)
    ensures EqualUpToLast(After(events, k, m, now), After(InsertAt(events, k, e), k + 1, m, now), e.time)
  {
    var more := InsertAt(events, k, e);
    var st := After(events, k, m, now);
    SameBefore(events, k, e, k, m, now);
    BetweenEvents(events, k, e.time, m, now);
    StateIsSound(events, k, m, now);
    if k > 0 && k < |events| {
      assert events[k..][0] == events[k];
    }
    assert Tied(more[k + 1..], e.time) == [] by {
      if k < |events| {
        assert more[k + 1..][0] == events[k];
      }
    }
    assert WeeklyHolds([], m, st.weeklyIn) == st.weeklyIn;
  }

  /** Equal but for the last absolute time, which is t0 in one and earlier in the other. */
  ghost predicate EqualUpToLast(s: State, s': State, t0: int) {
    && s' == s.(hasLast := s'.hasLast, lastTime := s'.lastTime)
    && (s' == s || ((s.hasLast ==> s.lastTime < t0) && s'.hasLast && s'.lastTime == t0))
  }

  lemma StepUpToLast(s: State, s': State, t0: int, e: TimelineEvent, tied: seq<TimelineEvent>, m: nat, now: int)
    requires EqualUpToLast(s, s', t0) && e.time > t0
    ensures EqualUpToLast(Step(s, e, tied, m, now), Step(s', e, tied, m, now), t0)
  {
    hide Has, Opened, Reaffirmed, Released;
    if e.isAbsolute {
      assert Noted(s, e, m) == Noted(s', e, m);
    } else {
      var n, n' := Noted(s, e, m), Noted(s', e, m);
      OpenedUpToLast(n, n', t0, e, tied, m);
      ReleasedUpToLast(n, n', t0, e, tied, m, now);
    }
  }

  lemma OpenedUpToLast(s: State, s': State, t0: int, e: TimelineEvent, tied: seq<TimelineEvent>, m: nat)
    requires EqualUpToLast(s, s', t0)
    ensures EqualUpToLast(Opened(s, e, tied, m), Opened(s', e, tied, m), t0)
  {
    hide WeeklyLists;
  }

  lemma ReleasedUpToLast(s: State, s': State, t0: int, e: TimelineEvent, tied: seq<TimelineEvent>, m: nat, now: int)
    requires EqualUpToLast(s, s', t0)
    ensures EqualUpToLast(Released(s, e, tied, m, now), Released(s', e, tied, m, now), t0)
  {
    hide WeeklyHolds, WeeklyOmits;
  }

  lemma {:induction false} SameAfter(events: seq<TimelineEvent>, k: nat, e: TimelineEvent, j: nat, m: nat, now: int)
    requires Ordered(events) && Agree(events, m) && Bystands(events, k, e, m) && k <= j <= |events|
    requires !AbsoluteAt(events, e.time, m)
    ensures EqualUpToLast(After(events, j, m, now), After(InsertAt(events, k, e), j + 1, m, now), e.time)
  {
    hide Step, EqualUpToLast, AbsoluteAt, Tied, Agree, Ordered;
    if j == k {
      PassesBystander(events, k, e, m, now);
    } else {
      SameAfter(events, k, e, j - 1, m, now);
      var more := InsertAt(events, k, e);
      assert more[j] == events[j - 1];
      assert more[j + 1..] == events[j..] by {
        assert |more[j + 1..]| == |events[j..]|;
      }
      StepUpToLast(After(events, j - 1, m, now), After(more, j, m, now), e.time, events[j - 1],
                   Tied(events[j..], events[j - 1].time), m, now);
    }
  }

  /**
   An absolute event that omits a MAC the absolute schedule does not hold at that time, and that
   ties nothing, leaves the MAC's periods and their attribution as they were.
   */
  lemma BystandersUntouched(events: seq<TimelineEvent>, k: nat, e: TimelineEvent, m: nat, now: int)
    requires Ordered(events) && Agree(events, m) && Bystands(events, k, e, m)
    requires !AbsoluteAt(events, e.time, m)
    ensures Build(InsertAt(events, k, e), m, now) == Build(events, m, now)
  {
    hide After;
    SameAfter(events, k, e, |events|, m, now);
  }
}
