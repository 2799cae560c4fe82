/**
 Building the timeline (build_timeline_from_schedule in src/aker_notification.c): the weekly
 events of the coming weeks and the absolute events that still matter are merged into one sorted
 list, from which each MAC gets its periods.
 */
module Timeline {
  import opened Lists
  import opened Time
  import opened Periods
  import opened PeriodProperties
  import S = Schedule

  const TOLERANCE := 60          // SCHEDULED_TIME_TOLERANCE_SEC
  const MAX_WEEKS_AHEAD := 2

  // ---------- The sorted list ----------

  /** x stays in front of a new event e. */
  predicate GoesBefore(x: TimelineEvent, e: TimelineEvent) {
    x.time < e.time || (x.time == e.time && x.isAbsolute && !e.isAbsolute)
  }

  /** e takes the place of the head. */
  predicate GoesFirst(s: seq<TimelineEvent>, e: TimelineEvent) {
    s == [] || e.time < s[0].time || (e.time == s[0].time && e.isAbsolute && !s[0].isAbsolute)
  }

  /** The number of leading events that stay in front of e. */
  ghost function Leading(s: seq<TimelineEvent>, e: TimelineEvent): (k: nat)
    ensures k <= |s|
    ensures forall i :: 0 <= i < k ==> GoesBefore(s[i], e)
    ensures k < |s| ==> !GoesBefore(s[k], e)
  {
    if s == [] || !GoesBefore(s[0], e) then 0 else 1 + Leading(s[1..], e)
  }

  ghost function Place(s: seq<TimelineEvent>, e: TimelineEvent): (k: nat)
    ensures k <= |s|
  {
    if GoesFirst(s, e) then 0 else 1 + Leading(s[1..], e)
  }

  ghost function InsertSorted(s: seq<TimelineEvent>, e: TimelineEvent): seq<TimelineEvent> {
    InsertAt(s, Place(s, e), e)
  }

  method InsertEventSorted(list: List<TimelineEvent>, newEvent: Node<TimelineEvent>)
    requires list.Valid() && newEvent !in list.nodes
    modifies list, list.nodes, newEvent
    ensures list.Valid() && list.Contents() == InsertSorted(old(list.Contents()), newEvent.event)
    ensures list.nodes == InsertAt(old(list.nodes), Place(old(list.Contents()), newEvent.event), newEvent)
  {
    hide Leading, InsertAt, GoesBefore;
    var e := newEvent.event;
    if list.head == null || GoesFirst([list.head.event], e) {
      assert list.head != null ==> list.head.event == list.Contents()[0];
      newEvent.next := list.head;
      list.Link(newEvent, null, 0);
      return;
    }
    assert list.head.event == list.Contents()[0];
    var prev, current := list.head, list.head.next;
    ghost var tail := list.Contents()[1..];
    ghost var i := 0;
    while current != null && GoesBefore(current.event, e)
      invariant i <= |tail| && prev == list.nodes[i]
      invariant current == if i < |tail| then list.nodes[i + 1] else null
      invariant forall j :: 0 <= j < i ==> GoesBefore(tail[j], e)
      decreases |tail| - i
    {
      prev, current := current, current.next;
      i := i + 1;
    }
    assert i < |tail| ==> current.event == tail[i];
    LeadingIs(tail, e, i);
    newEvent.next := current;
    list.Link(newEvent, prev, i + 1);
  }

  /** create_timeline_event and insert_event_sorted. */
  method Add(list: List<TimelineEvent>, e: TimelineEvent)
    requires list.Valid()
    modifies list, list.nodes
    ensures list.Valid() && list.Contents() == InsertSorted(old(list.Contents()), e)
    ensures fresh(set n | n in list.nodes && n !in old(list.nodes))
  {
    hide Place;
    var node := new Node(e);
    InsertEventSorted(list, node);
  }

  lemma LeadingIs(s: seq<TimelineEvent>, e: TimelineEvent, k: nat)
    requires k <= |s|
    requires forall i :: 0 <= i < k ==> GoesBefore(s[i], e)
    requires k < |s| ==> !GoesBefore(s[k], e)
    ensures Leading(s, e) == k
  {
    hide GoesBefore;
  }

  /** Insertion keeps the list sorted by time, absolute events first at equal times, and adds just e. */
  lemma InsertKeepsOrdered(s: seq<TimelineEvent>, e: TimelineEvent)
    requires Ordered(s)
    ensures Ordered(InsertSorted(s, e))
    ensures multiset(InsertSorted(s, e)) == multiset(s) + multiset{e}
  {
    hide Place, GoesFirst;
    PlaceSplits(s, e);
  }

  lemma PlaceSplits(s: seq<TimelineEvent>, e: TimelineEvent)
    requires Ordered(s)
    ensures forall i :: 0 <= i < Place(s, e) ==> InOrder(s[i], e)
    ensures forall i :: Place(s, e) <= i < |s| ==> InOrder(e, s[i])
  {
    var k := Place(s, e);
    if GoesFirst(s, e) {
      assert forall i :: 1 <= i < |s| ==> InOrder(s[0], s[i]);
    } else {
      assert InOrder(s[0], e);
      assert forall i :: 1 <= i < k ==> s[i] == s[1..][i - 1];
      if k < |s| {
        assert s[k] == s[1..][k - 1];
        assert InOrder(s[0], s[k]);
        assert forall i :: k < i < |s| ==> InOrder(s[k], s[i]);
      }
    }
  }

  ghost function InsertAll(s: seq<TimelineEvent>, added: seq<TimelineEvent>): seq<TimelineEvent> {
    if added == [] then s
    else InsertSorted(InsertAll(s, added[..|added| - 1]), added[|added| - 1])
  }

  lemma {:induction false} InsertAllKeepsOrdered(s: seq<TimelineEvent>, added: seq<TimelineEvent>)
    requires Ordered(s)
    ensures Ordered(InsertAll(s, added))
    ensures multiset(InsertAll(s, added)) == multiset(s) + multiset(added)
  {
    hide InsertSorted;
    if added != [] {
      var front, last := added[..|added| - 1], added[|added| - 1];
      InsertAllKeepsOrdered(s, front);
      InsertKeepsOrdered(InsertAll(s, front), last);
      assert added == front + [last];
    }
  }

  lemma InsertAllAppends(s: seq<TimelineEvent>, added: seq<TimelineEvent>, e: TimelineEvent)
    ensures InsertAll(s, added + [e]) == InsertSorted(InsertAll(s, added), e)
  {
    assert (added + [e])[..|added|] == added;
  }

  lemma InsertAllNothing(s: seq<TimelineEvent>)
    ensures InsertAll(s, []) == s
  {}

  // ---------- Weekly events ----------

  /** The instant that weekly event e has in the given week, counted from the week of now. */
  function InstantOf(e: S.Event, week: nat, now: int, offset: int): int {
    WeeklyToUnixTime(e.time, now + week * WEEK, offset)
  }

  /** This week counts from its start, later weeks from now on; nothing after the limit. */
  predicate Included(e: S.Event, week: nat, now: int, weeks: nat, offset: int) {
    var t := InstantOf(e, week, now, offset);
    t <= now + weeks * WEEK && if week == 0 then t >= WeeklyToUnixTime(0, now, offset) else t > now
  }

  function WeeklyEvent(e: S.Event, week: nat, now: int, offset: int): TimelineEvent {
    TimelineEvent(InstantOf(e, week, now, offset), e.block, false)
  }

  /** The events added for the first n entries of one week. */
  ghost function OfWeek(weekly: seq<S.Event>, n: nat, week: nat, now: int, weeks: nat, offset: int): seq<TimelineEvent>
    requires n <= |weekly|
  {
    if n == 0 then []
    else
      var front := OfWeek(weekly, n - 1, week, now, weeks, offset);
      if Included(weekly[n - 1], week, now, weeks, offset)
      then front + [WeeklyEvent(weekly[n - 1], week, now, offset)] else front
  }

  /** The events added for the first count weeks. */
  ghost function Expansion(weekly: seq<S.Event>, count: nat, now: int, weeks: nat, offset: int): seq<TimelineEvent> {
    if count == 0 then []
    else Expansion(weekly, count - 1, now, weeks, offset) + OfWeek(weekly, |weekly|, count - 1, now, weeks, offset)
  }

  method ExpandWeekly(weekly: List<S.Event>, now: int, weeks: nat, offset: int, all: List<TimelineEvent>)
    requires weekly.Valid() && all.Valid() && all.nodes == []
    modifies all
    ensures all.Valid() && fresh(all.nodes)
    ensures all.Contents() == InsertAll([], Expansion(weekly.Contents(), weeks, now, weeks, offset))
  {
    hide InsertSorted, OfWeek;
    ghost var events := weekly.Contents();
    for week := 0 to weeks
      invariant all.Valid() && fresh(all.nodes) && weekly.Valid() && weekly.Contents() == events
      invariant all.Contents() == InsertAll([], Expansion(events, week, now, weeks, offset))
    {
      AddWeek(weekly, week, now, weeks, offset, all, Expansion(events, week, now, weeks, offset));
    }
  }

  method AddWeek(weekly: List<S.Event>, week: nat, now: int, weeks: nat, offset: int, all: List<TimelineEvent>,
                 ghost before: seq<TimelineEvent>)
    requires weekly.Valid() && all.Valid() && all.Contents() == InsertAll([], before)
    modifies all, all.nodes
    ensures all.Valid() && fresh(set n | n in all.nodes && n !in old(all.nodes))
    ensures all.Contents() ==
      InsertAll([], before + OfWeek(weekly.Contents(), |weekly.nodes|, week, now, weeks, offset))
  {
    hide InsertAll, InsertSorted;
    ghost var events := weekly.Contents();
    var p := weekly.head;
    ghost var i := 0;
    assert before + [] == before;
    while p != null
      invariant i <= |events| && p == if i < |events| then weekly.nodes[i] else null
      invariant weekly.Valid() && weekly.Contents() == events
      invariant all.Valid() && fresh(set n | n in all.nodes && n !in old(all.nodes))
      invariant all.Contents() == InsertAll([], before + OfWeek(events, i, week, now, weeks, offset))
      decreases |events| - i
    {
      ghost var soFar := before + OfWeek(events, i, week, now, weeks, offset);
      if Included(p.event, week, now, weeks, offset) {
        var e := WeeklyEvent(p.event, week, now, offset);
        InsertAllAppends([], soFar, e);
        Add(all, e);
        assert soFar + [e] == before + OfWeek(events, i + 1, week, now, weeks, offset);
      }
      p := p.next;
      i := i + 1;
    }
  }

  // ---------- Absolute events ----------

  /** The greatest time at or before now, if there is one: the event that defines the current state. */
  ghost function CurrentState(absolute: seq<S.Event>, now: int): S.Option<int> {
    if absolute == [] then S.None
    else
      var current := CurrentState(absolute[..|absolute| - 1], now);
      var t := absolute[|absolute| - 1].time;
      if t <= now && (current == S.None || t > current.value) then S.Some(t) else current
  }

  predicate Kept(t: int, current: S.Option<int>, now: int, limit: int) {
    (t >= now - TOLERANCE || current == S.Some(t)) && t <= limit
  }

  function AbsoluteEvent(e: S.Event): TimelineEvent {
    TimelineEvent(e.time, e.block, true)
  }

  /** The events added for the absolute schedule. */
  ghost function Pruned(absolute: seq<S.Event>, current: S.Option<int>, now: int, limit: int): seq<TimelineEvent> {
    if absolute == [] then []
    else
      var front, e := Pruned(absolute[..|absolute| - 1], current, now, limit), absolute[|absolute| - 1];
      if Kept(e.time, current, now, limit) then front + [AbsoluteEvent(e)] else front
  }

  method FindCurrentState(absolute: List<S.Event>, now: int) returns (current: S.Option<int>)
    requires absolute.Valid()
    ensures current == CurrentState(absolute.Contents(), now)
  {
    current := S.None;
    var p := absolute.head;
    ghost var i := 0;
    ghost var events := absolute.Contents();
    while p != null
      invariant i <= |events| && p == if i < |events| then absolute.nodes[i] else null
      invariant current == CurrentState(events[..i], now)
      decreases |events| - i
    {
      assert events[..i + 1][..i] == events[..i];
      if p.event.time <= now && (current == S.None || p.event.time > current.value) {
        current := S.Some(p.event.time);
      }
      p := p.next;
      i := i + 1;
    }
    assert events[..i] == events;
  }

  method AddAbsolute(absolute: List<S.Event>, now: int, limit: int, all: List<TimelineEvent>)
    requires absolute.Valid() && all.Valid()
    modifies all, all.nodes
    ensures all.Valid()
    ensures all.Contents() ==
      InsertAll(old(all.Contents()),
                Pruned(absolute.Contents(), CurrentState(absolute.Contents(), now), now, limit))
  {
    hide InsertSorted, InsertAll;
    InsertAllNothing(all.Contents());
    var current := FindCurrentState(absolute, now);
    var p := absolute.head;
    ghost var i := 0;
    ghost var events := absolute.Contents();
    ghost var before := all.Contents();
    while p != null
      invariant i <= |events| && p == if i < |events| then absolute.nodes[i] else null
      invariant absolute.Valid() && absolute.Contents() == events
      invariant all.Valid() && fresh(set n | n in all.nodes && n !in old(all.nodes))
      invariant all.Contents() == InsertAll(before, Pruned(events[..i], current, now, limit))
      decreases |events| - i
    {
      assert events[..i + 1][..i] == events[..i];
      if Kept(p.event.time, current, now, limit) {
        var e := AbsoluteEvent(p.event);
        InsertAllAppends(before, Pruned(events[..i], current, now, limit), e);
        Add(all, e);
      }
      p := p.next;
      i := i + 1;
    }
    assert events[..i] == events;
  }

  // ---------- The whole timeline ----------

  /** Some weekly event lists the MAC and none omits it: it is never unblocked. */
  ghost predicate IndefinitelyBlocked(weekly: seq<S.Event>, m: nat) {
    weekly != [] && forall i :: 0 <= i < |weekly| ==> m in weekly[i].block
  }

  method IsMacIndefinitelyBlocked(weekly: List<S.Event>, m: nat) returns (indefinite: bool)
    requires weekly.Valid()
    ensures indefinite == IndefinitelyBlocked(weekly.Contents(), m)
  {
    if weekly.head == null {
      assert weekly.Contents() == [];
      return false;
    }
    var foundBlocking, foundUnblocking := false, false;
    var event := weekly.head;
    ghost var i := 0;
    ghost var events := weekly.Contents();
    while event != null
      invariant i <= |events| && event == if i < |events| then weekly.nodes[i] else null
      invariant foundBlocking <==> exists j :: 0 <= j < i && m in events[j].block
      invariant foundUnblocking <==> exists j :: 0 <= j < i && m !in events[j].block
      decreases |events| - i
    {
      assert event.event == events[i];
      var macInThisEvent := m in event.event.block;
      if macInThisEvent {
        foundBlocking := true;
      }
      if event.event.block == [] {
        foundUnblocking := true;
      } else if !macInThisEvent {
        foundUnblocking := true;
      }
      event := event.next;
      i := i + 1;
    }
    assert i == |events| && events != [];
    assert !foundUnblocking ==> m in events[0].block;
    indefinite := foundBlocking && !foundUnblocking;
  }

  /** The merged list of events. */
  ghost function Merged(absolute: seq<S.Event>, weekly: seq<S.Event>, now: int, weeks: nat,
                        offset: int): seq<TimelineEvent> {
    InsertAll(InsertAll([], Expansion(weekly, weeks, now, weeks, offset)),
              Pruned(absolute, CurrentState(absolute, now), now, now + weeks * WEEK))
  }

  ghost function PeriodsOf(absolute: seq<S.Event>, weekly: seq<S.Event>, m: nat, now: int, weeks: nat,
                           offset: int): seq<Period> {
    if IndefinitelyBlocked(weekly, m) then [] else Build(Merged(absolute, weekly, now, weeks, offset), m, now)
  }

  method MergeEvents(s: S.Schedule, now: int, weeks: nat) returns (all: List<TimelineEvent>)
    requires s.Valid()
    ensures all.Valid() && fresh(all)
    ensures all.Contents() == Merged(s.absolute.Contents(), s.weekly.Contents(), now, weeks, s.offset)
  {
    hide InsertAll, Expansion, Pruned;
    all := new List<TimelineEvent>();
    ExpandWeekly(s.weekly, now, weeks, s.offset, all);
    AddAbsolute(s.absolute, now, now + weeks * WEEK, all);
  }

  method PeriodsForAllMacs(s: S.Schedule, all: List<TimelineEvent>, now: int, weeks: nat)
    returns (timelines: seq<seq<Period>>)
    requires s.Valid() && all.Valid()
    requires all.Contents() == Merged(s.absolute.Contents(), s.weekly.Contents(), now, weeks, s.offset)
    ensures |timelines| == |s.macs|
    ensures forall m :: 0 <= m < |s.macs| ==>
      timelines[m] == PeriodsOf(s.absolute.Contents(), s.weekly.Contents(), m, now, weeks, s.offset)
  {
    hide Build, Merged;
    timelines := [];
    for m := 0 to |s.macs|
      invariant |timelines| == m
      invariant forall i :: 0 <= i < m ==>
        timelines[i] == PeriodsOf(s.absolute.Contents(), s.weekly.Contents(), i, now, weeks, s.offset)
    {
      var indefinite := IsMacIndefinitelyBlocked(s.weekly, m);
      var periods := [];
      if !indefinite {
        periods := BuildPeriodsForMac(all, m, now);
      }
      timelines := timelines + [periods];
    }
  }

  /** The periods of every MAC; none is returned if no week is asked for. */
  method BuildTimelineFromSchedule(s: S.Schedule, now: int, weeksAhead: int) returns (r: S.Option<seq<seq<Period>>>)
    requires s.Valid()
    ensures weeksAhead < 1 <==> r.None?
    ensures r.Some? ==>
              && |r.value| == |s.macs|
              && forall m :: 0 <= m < |s.macs| ==>
                   r.value[m] == PeriodsOf(s.absolute.Contents(), s.weekly.Contents(), m, now, weeksAhead, s.offset)
  {
    if weeksAhead < 1 {
      return S.None;
    }
    hide PeriodsOf, Merged;
    var all := MergeEvents(s, now, weeksAhead);
    var timelines := PeriodsForAllMacs(s, all, now, weeksAhead);
    r := S.Some(timelines);
  }
}
