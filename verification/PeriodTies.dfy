/**
 Who controls a period when the two schedules have events at the same time: the rules that the
 comments and tests of src/aker_notification.c describe, for every event list.
 */
module PeriodTies {
  import opened Periods
  import opened PeriodProperties

  /** An event of this kind at time t lists the MAC. */
  ghost predicate ListsAt(events: seq<TimelineEvent>, absolute: bool, t: int, m: nat) {
    exists i :: 0 <= i < |events| && events[i].isAbsolute == absolute && events[i].time == t && Has(events[i], m)
  }

  /** An event of this kind at time t omits the MAC. */
  ghost predicate OmitsAt(events: seq<TimelineEvent>, absolute: bool, t: int, m: nat) {
    exists i :: 0 <= i < |events| && events[i].isAbsolute == absolute && events[i].time == t && !Has(events[i], m)
  }

  /** Event k is the first at its time. */
  ghost predicate FirstAt(events: seq<TimelineEvent>, k: nat) {
    k < |events| && (k > 0 ==> events[k - 1].time < events[k].time)
  }

  lemma EarlierBefore(events: seq<TimelineEvent>, k: nat)
    requires Ordered(events) && FirstAt(events, k)
    ensures forall i :: 0 <= i < k ==> events[i].time < events[k].time
  {
    assert forall i :: 0 <= i < k - 1 ==> InOrder(events[i], events[k - 1]);
  }

  /** Looking ahead from the first event at a time sees every other event at that time. */
  lemma LookAheadSeesAll(events: seq<TimelineEvent>, k: nat, m: nat)
    requires Ordered(events) && FirstAt(events, k) && events[k].isAbsolute
    ensures var t := events[k].time;
            var tied := Tied(events[k + 1..], t);
            && (WeeklyLists(tied, m) <==> ListsAt(events, false, t, m))
            && (WeeklyOmits(tied, m) <==> OmitsAt(events, false, t, m))
  {
    var t := events[k].time;
    var tied := Tied(events[k + 1..], t);
    TiedIsPrefix(events[k + 1..], t);
    assert forall i :: 0 <= i < |tied| ==> tied[i] == events[k + 1 + i];
    var end := k + 1 + |tied|;
    if end < |events| {
      assert events[k + 1..][|tied|].time != t;
      assert InOrder(events[k], events[end]);
      assert forall i :: end < i < |events| ==> InOrder(events[end], events[i]);
    }
    EarlierBefore(events, k);
    assert forall i :: 0 <= i < |events| && events[i].time == t && !events[i].isAbsolute ==> k < i < end;
    assert forall i :: k < i < end ==> events[i] == tied[i - k - 1];
  }

  /**
   Who controls an open period after the first event at a time.  An absolute event that lists the
   MAC hands over to the weekly schedule if a weekly event at that time lists it too; otherwise it
   takes control if the MAC was not blocked or not in the absolute list before, and merely carries
   it forward if it was.  Weekly events never change control.
   */
  lemma ControlLaw(events: seq<TimelineEvent>, k: nat, m: nat, now: int)
    requires Ordered(events) && Agree(events, m) && FirstAt(events, k)
    ensures var e, st, r := events[k], After(events, k, m, now), After(events, k + 1, m, now);
            r.controls <==>
              r.blocked &&
              if e.isAbsolute
              then Has(e, m) && !ListsAt(events, false, e.time, m) &&
                   (!st.blocked || !AbsoluteAt(events, e.time - 1, m) || st.controls)
              else st.controls
  {
    hide WeeklyLists, WeeklyOmits, WeeklyHolds, Has, Tied, AbsoluteAt, ListsAt;
    StateIsSound(events, k, m, now);
    BetweenEvents(events, k, events[k].time - 1, m, now);
    if events[k].isAbsolute {
      LookAheadSeesAll(events, k, m);
    }
  }

  /** The remaining events at the same time leave the open period and its control alone. */
  lemma OnlyFirstCounts(events: seq<TimelineEvent>, k: nat, m: nat, now: int)
    requires Ordered(events) && Agree(events, m) && k < |events| && !FirstAt(events, k)
    ensures var st, r := After(events, k, m, now), After(events, k + 1, m, now);
            r == st.(weeklyIn := r.weeklyIn)
  {
    hide After;
    assert InOrder(events[k - 1], events[k]);
    RepeatKeeps(events, k, m, now);
  }

  /**
   Once every event at a time is processed: absolute control implies that the MAC is blocked and
   in the latest absolute list, and a blocked MAC is in one of the two latest lists.
   */
  lemma SoundAfterTimestamp(events: seq<TimelineEvent>, k: nat, m: nat, now: int)
    requires Ordered(events) && Agree(events, m) && 0 < k <= |events|
    requires k < |events| ==> events[k - 1].time < events[k].time
    ensures var st, t := After(events, k, m, now), events[k - 1].time;
            && (st.controls ==> st.blocked && AbsoluteAt(events, t, m))
            && (st.blocked ==> UnionAt(events, t, m))
  {
    hide After;
    StateIsSound(events, k, m, now);
    BetweenEvents(events, k, events[k - 1].time, m, now);
    if k < |events| {
      assert events[k..][0] == events[k];
    }
  }

  /** A start is the user's exactly if an absolute event makes it and no weekly event shares it. */
  ghost predicate StartAttributed(events: seq<TimelineEvent>, start: int, startAbsolute: bool, m: nat) {
    startAbsolute <==> ListsAt(events, true, start, m) && !ListsAt(events, false, start, m)
  }

  /** An absolute event at t makes the user control the period from start on: it opens it or is a new pause. */
  ghost predicate TakesControl(events: seq<TimelineEvent>, start: int, t: int, m: nat) {
    && ListsAt(events, true, t, m) && !ListsAt(events, false, t, m)
    && (t == start || !AbsoluteAt(events, t - 1, m))
  }

  /** Every absolute event after t and before until lists the MAC, and no weekly event that ties it does. */
  ghost predicate KeepsControl(events: seq<TimelineEvent>, t: int, until: int, m: nat) {
    forall u :: t < u < until && AbsoluteEventAt(events, u) ==>
                  ListsAt(events, true, u, m) && !ListsAt(events, false, u, m)
  }

  /** The user controls the period from start on when until comes. */
  ghost predicate Held(events: seq<TimelineEvent>, start: int, until: int, m: nat) {
    exists t :: start <= t < until && TakesControl(events, start, t, m) && KeepsControl(events, t, until, m)
  }

  /**
   Some event at the end omits the MAC.  The end is the user's exactly if an absolute one does and
   either the user still controlled the period or no weekly event releases the MAC there too.
   */
  ghost predicate EndAttributed(events: seq<TimelineEvent>, p: Period, m: nat) {
    && (OmitsAt(events, true, p.end, m) || OmitsAt(events, false, p.end, m))
    && (p.endAbsolute <==>
          OmitsAt(events, true, p.end, m) && (Held(events, p.start, p.end, m) || !OmitsAt(events, false, p.end, m)))
  }

  // ---------- Control in terms of the events ----------

  lemma FirstTellsKind(events: seq<TimelineEvent>, k: nat, m: nat)
    requires Ordered(events) && Agree(events, m) && FirstAt(events, k)
    ensures var e := events[k];
            && (AbsoluteEventAt(events, e.time) <==> e.isAbsolute)
            && (ListsAt(events, true, e.time, m) <==> e.isAbsolute && Has(e, m))
            && (OmitsAt(events, true, e.time, m) <==> e.isAbsolute && !Has(e, m))
            && (!e.isAbsolute && !Has(e, m) ==> OmitsAt(events, false, e.time, m))
  {
    hide Has;
    EarlierBefore(events, k);
    assert forall i :: k < i < |events| ==> InOrder(events[k], events[i]);
    assert forall i :: k < i < |events| && SameMoment(events[k], events[i]) ==> Has(events[k], m) == Has(events[i], m);
  }

  /** No event is strictly between one and the first at the next time. */
  lemma NothingBetweenEvents(events: seq<TimelineEvent>, k: nat, u: int)
    requires Ordered(events) && FirstAt(events, k) && (k > 0 ==> events[k - 1].time < u) && u < events[k].time
    ensures !AbsoluteEventAt(events, u)
  {
    assert forall i :: 0 <= i < k - 1 ==> InOrder(events[i], events[k - 1]);
    assert forall i :: k < i < |events| ==> InOrder(events[k], events[i]);
  }

  /** So control is held up to the next event's time if it is held just after the last event. */
  lemma HeldUntilNext(events: seq<TimelineEvent>, k: nat, start: int, m: nat)
    requires Ordered(events) && FirstAt(events, k) && k > 0 && start <= events[k - 1].time
    ensures Held(events, start, events[k].time, m) == Held(events, start, events[k - 1].time + 1, m)
  {
    hide AbsoluteAt;
    var near, far := events[k - 1].time + 1, events[k].time;
    forall u | near <= u < far
      ensures !AbsoluteEventAt(events, u) && !ListsAt(events, true, u, m)
    {
      NothingBetweenEvents(events, k, u);
    }
  }

  /** What one more absolute event makes of it. */
  lemma HeldAfterEvent(events: seq<TimelineEvent>, start: int, t: int, m: nat)
    requires start <= t
    ensures Held(events, start, t + 1, m) <==>
              || TakesControl(events, start, t, m)
              || (Held(events, start, t, m) &&
                  (AbsoluteEventAt(events, t) ==> ListsAt(events, true, t, m) && !ListsAt(events, false, t, m)))
  {
    hide TakesControl, ListsAt, AbsoluteEventAt;
    if TakesControl(events, start, t, m) {
      assert KeepsControl(events, t, t + 1, m);
    }
    if s :| start <= s < t + 1 && TakesControl(events, start, s, m) && KeepsControl(events, s, t + 1, m) && s != t {
      assert KeepsControl(events, s, t, m);
    }
    if s :| start <= s < t && TakesControl(events, start, s, m) && KeepsControl(events, s, t, m) &&
            (AbsoluteEventAt(events, t) ==> ListsAt(events, true, t, m) && !ListsAt(events, false, t, m)) {
      assert KeepsControl(events, s, t + 1, m);
    }
  }

  ghost predicate ControlIsHeld(events: seq<TimelineEvent>, k: nat, m: nat, now: int)
    requires k <= |events|
  {
    var st := After(events, k, m, now);
    st.blocked ==>
      && k > 0 && st.start <= events[k - 1].time
      && (st.controls <==> Held(events, st.start, events[k - 1].time + 1, m))
  }

  /** The machine's control variable is this history of the absolute events of the open period. */
  lemma {:induction false} StateControlIsHeld(events: seq<TimelineEvent>, k: nat, m: nat, now: int)
    requires Ordered(events) && Agree(events, m) && k <= |events|
    ensures ControlIsHeld(events, k, m, now)
  {
    hide Step, Held;
    if k > 0 {
      StateControlIsHeld(events, k - 1, m, now);
      if FirstAt(events, k - 1) {
        StepControlIsHeld(events, k - 1, m, now);
      } else {
        OnlyFirstCounts(events, k - 1, m, now);
        assert InOrder(events[k - 2], events[k - 1]);
      }
    }
  }

  lemma StepControlIsHeld(events: seq<TimelineEvent>, k: nat, m: nat, now: int)
    requires Ordered(events) && Agree(events, m) && FirstAt(events, k) && ControlIsHeld(events, k, m, now)
    ensures ControlIsHeld(events, k + 1, m, now)
  {
    hide Step, Held, ListsAt, OmitsAt, AbsoluteEventAt, AbsoluteAt, WeeklyLists, Tied, Has, Agree, Ordered;
    var e, st, r := events[k], After(events, k, m, now), After(events, k + 1, m, now);
    StepEffect(st, e, Tied(events[k + 1..], e.time), m, now);
    StateIsSound(events, k, m, now);
    ControlLaw(events, k, m, now);
    FirstTellsKind(events, k, m);
    StepNeedsListing(st, e, Tied(events[k + 1..], e.time), m, now);
    if r.blocked {
      HeldAfterEvent(events, r.start, e.time, m);
      if st.blocked {
        HeldUntilNext(events, k, st.start, m);
      } else {
        assert !Held(events, e.time, e.time, m) by {
          NeverHeld(events, e.time, m);
        }
      }
    }
  }

  lemma NeverHeld(events: seq<TimelineEvent>, t: int, m: nat)
    ensures !Held(events, t, t, m)
  {}

  ghost predicate Attributed(events: seq<TimelineEvent>, k: nat, m: nat, now: int)
    requires k <= |events|
  {
    var st := After(events, k, m, now);
    && (st.blocked ==> StartAttributed(events, st.start, st.startAbsolute, m))
    && (forall i :: 0 <= i < |st.periods| ==>
          StartAttributed(events, st.periods[i].start, st.periods[i].startAbsolute, m) &&
          EndAttributed(events, st.periods[i], m))
  }

  lemma FirstEventOpens(events: seq<TimelineEvent>, k: nat, m: nat, now: int)
    requires Ordered(events) && Agree(events, m) && FirstAt(events, k) && Has(events[k], m)
    ensures var e := events[k];
            StartAttributed(events, e.time, e.isAbsolute && !WeeklyLists(Tied(events[k + 1..], e.time), m), m)
  {
    if events[k].isAbsolute {
      LookAheadSeesAll(events, k, m);
    } else {
      EarlierBefore(events, k);
      assert forall i :: k < i < |events| ==> InOrder(events[k], events[i]);
    }
  }

  /** A step that opens a period is at an event that lists the MAC; one that closes is at one that omits it. */
  lemma StepNeedsListing(st: State, e: TimelineEvent, tied: seq<TimelineEvent>, m: nat, now: int)
    ensures !st.blocked && Step(st, e, tied, m, now).blocked ==> Has(e, m)
    ensures st.blocked && !Step(st, e, tied, m, now).blocked ==> !Has(e, m)
  {
    hide WeeklyLists, WeeklyOmits, WeeklyHolds;
  }

  lemma {:induction false} StateIsAttributed(events: seq<TimelineEvent>, k: nat, m: nat, now: int)
    requires Ordered(events) && Agree(events, m) && k <= |events|
    ensures Attributed(events, k, m, now)
  {
    hide Step, StartAttributed, EndAttributed, ListsAt, OmitsAt;
    if k > 0 {
      StateIsAttributed(events, k - 1, m, now);
      if FirstAt(events, k - 1) {
        StepIsAttributed(events, k - 1, m, now);
      } else {
        OnlyFirstCounts(events, k - 1, m, now);
      }
    }
  }

  lemma StepIsAttributed(events: seq<TimelineEvent>, k: nat, m: nat, now: int)
    requires Ordered(events) && Agree(events, m) && FirstAt(events, k) && Attributed(events, k, m, now)
    ensures Attributed(events, k + 1, m, now)
  {
    hide Step, StartAttributed, ListsAt, OmitsAt, WeeklyLists, WeeklyOmits, Tied, Has;
    var e, st, r := events[k], After(events, k, m, now), After(events, k + 1, m, now);
    var tied := Tied(events[k + 1..], e.time);
    StepEffect(st, e, tied, m, now);
    StepNeedsListing(st, e, tied, m, now);
    if !st.blocked && r.blocked {
      FirstEventOpens(events, k, m, now);
    }
    if st.blocked && !r.blocked {
      EndsAttributed(events, k, m, now);
    }
  }

  lemma EndsAttributed(events: seq<TimelineEvent>, k: nat, m: nat, now: int)
    requires Ordered(events) && Agree(events, m) && FirstAt(events, k)
    requires After(events, k, m, now).blocked && !Has(events[k], m)
    ensures var e := events[k];
            EndAttributed(events, Closed(After(events, k, m, now), e, Tied(events[k + 1..], e.time), m), m)
  {
    hide After, Held, ListsAt, OmitsAt, AbsoluteEventAt, WeeklyLists, WeeklyOmits, Tied, Has, Agree, Ordered;
    FirstTellsKind(events, k, m);
    StateControlIsHeld(events, k, m, now);
    HeldUntilNext(events, k, After(events, k, m, now).start, m);
    if events[k].isAbsolute {
      LookAheadSeesAll(events, k, m);
    }
  }

  /** Both ends of every period are attributed by these rules, whatever the ties. */
  lemma PeriodsAreAttributed(events: seq<TimelineEvent>, m: nat, now: int)
    requires Ordered(events) && Agree(events, m)
    ensures var periods := Build(events, m, now);
            forall i :: 0 <= i < |periods| ==>
              StartAttributed(events, periods[i].start, periods[i].startAbsolute, m) &&
              EndAttributed(events, periods[i], m)
  {
    hide After;
    StateIsAttributed(events, |events|, m, now);
  }
}
