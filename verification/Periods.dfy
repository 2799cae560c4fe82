/**
 Blocking periods (build_periods_for_mac in src/aker_notification.c): the state machine that
 turns the merged list of weekly and absolute events into the periods of one MAC address.
 */
module Periods {
  import opened Lists

  /** From this time on, the weekly or the absolute schedule lists exactly these MACs. */
  datatype TimelineEvent = TimelineEvent(time: int, macs: seq<nat>, isAbsolute: bool)

  datatype Period = Period(start: int, end: int, startAbsolute: bool, endAbsolute: bool)

  /** The variables of the loop. */
  datatype State = State(
    blocked: bool,         // currently_blocked
    start: int,            // block_start
    startAbsolute: bool,   // start_is_absolute
    controls: bool,        // absolute_controls_period
    hasLast: bool,         // has_last_absolute_time
    lastTime: int,         // last_absolute_time
    weeklyIn: bool,        // weekly_blocked
    absoluteIn: bool,      // absolute_blocked
    periods: seq<Period>)

  const INITIAL := State(false, 0, false, false, false, 0, false, false, [])

  predicate Has(e: TimelineEvent, m: nat) {
    m in e.macs
  }

  /** The leading events of rest that are at time t: what the look-ahead loops walk over. */
  ghost function Tied(rest: seq<TimelineEvent>, t: int): seq<TimelineEvent> {
    if rest == [] || rest[0].time != t then [] else [rest[0]] + Tied(rest[1..], t)
  }

  ghost predicate WeeklyLists(tied: seq<TimelineEvent>, m: nat) {
    exists i :: 0 <= i < |tied| && !tied[i].isAbsolute && Has(tied[i], m)
  }

  ghost predicate WeeklyOmits(tied: seq<TimelineEvent>, m: nat) {
    exists i :: 0 <= i < |tied| && !tied[i].isAbsolute && !Has(tied[i], m)
  }

  /** The first tied weekly event says whether the weekly schedule holds the MAC. */
  ghost predicate WeeklyHolds(tied: seq<TimelineEvent>, m: nat, otherwise: bool) {
    if tied == [] then otherwise
    else if !tied[0].isAbsolute then Has(tied[0], m)
    else WeeklyHolds(tied[1..], m, otherwise)
  }

  /** The period that event e closes: only an absolute end that no weekly event ties stays absolute. */
  ghost function Closed(s: State, e: TimelineEvent, tied: seq<TimelineEvent>, m: nat): Period {
    Period(s.start, e.time, s.startAbsolute, e.isAbsolute && (s.controls || !WeeklyOmits(tied, m)))
  }

  /** The MAC becomes blocked: by the weekly schedule if a tied weekly event lists it too. */
  ghost function Opened(s: State, e: TimelineEvent, tied: seq<TimelineEvent>, m: nat): State {
    var absolute := e.isAbsolute && !WeeklyLists(tied, m);
    s.(blocked := true, start := e.time, startAbsolute := absolute, controls := absolute)
  }

  /** An absolute event lists a MAC that is blocked already: a tie hands control over, a new pause takes it. */
  ghost function Reaffirmed(s: State, wasAbsolute: bool, tied: seq<TimelineEvent>, m: nat): State {
    s.(controls := !WeeklyLists(tied, m) && (s.controls || !wasAbsolute))
  }

  /** The MAC is no longer listed: the period ends unless the weekly schedule outlasts an absolute one. */
  ghost function Released(s: State, e: TimelineEvent, tied: seq<TimelineEvent>, m: nat, now: int): State {
    if e.isAbsolute && WeeklyHolds(tied, m, s.weeklyIn) then
      s.(controls := false)
    else
      s.(blocked := false, controls := false,
         periods := if e.time > now then s.periods + [Closed(s, e, tied, m)] else s.periods)
  }

  /** The schedule that e belongs to now lists the MAC or not; an absolute event leaves its time. */
  ghost function Noted(st: State, e: TimelineEvent, m: nat): State {
    if e.isAbsolute then st.(absoluteIn := Has(e, m), lastTime := e.time, hasLast := true)
    else st.(weeklyIn := Has(e, m))
  }

  /** A weekly event is passed over if it ties an absolute one or falls in an absolute period. */
  predicate PassedOver(s: State, e: TimelineEvent) {
    !e.isAbsolute && ((s.hasLast && s.lastTime == e.time) || (s.blocked && s.controls))
  }

  /** One pass of the loop over event e, with the tied events that follow it. */
  ghost function Step(st: State, e: TimelineEvent, tied: seq<TimelineEvent>, m: nat, now: int): State {
    var s := Noted(st, e, m);
    if PassedOver(s, e) then s
    else if Has(e, m) && !s.blocked then Opened(s, e, tied, m)
    else if Has(e, m) && e.isAbsolute then Reaffirmed(s, st.absoluteIn, tied, m)
    else if !Has(e, m) && s.blocked then Released(s, e, tied, m, now)
    else s
  }

  /** The state after the first k events. */
  ghost function After(events: seq<TimelineEvent>, k: nat, m: nat, now: int): State
    requires k <= |events|
  {
    if k == 0 then INITIAL
    else Step(After(events, k - 1, m, now), events[k - 1], Tied(events[k..], events[k - 1].time), m, now)
  }

  ghost function Build(events: seq<TimelineEvent>, m: nat, now: int): seq<Period> {
    After(events, |events|, m, now).periods
  }

  // ---------- The method ----------

  method LooksAheadForList(from: Node?<TimelineEvent>, t: int, m: nat, ghost nodes: seq<Node<TimelineEvent>>)
    returns (found: bool)
    requires IsList(from, nodes)
    ensures found == WeeklyLists(Tied(Events(nodes), t), m)
  {
    var check := from;
    ghost var i := 0;
    ghost var tied := Tied(Events(nodes), t);
    TiedIsPrefix(Events(nodes), t);
    while check != null && check.event.time == t
      invariant i <= |tied| && check == if i < |nodes| then nodes[i] else null
      invariant forall j :: 0 <= j < i ==> tied[j].isAbsolute || !Has(tied[j], m)
      decreases |tied| - i
    {
      assert check.event == tied[i];
      if !check.event.isAbsolute && Has(check.event, m) {
        return true;
      }
      check := check.next;
      i := i + 1;
    }
    assert i < |nodes| ==> check.event == Events(nodes)[i];
    return false;
  }

  method LooksAheadForOmission(from: Node?<TimelineEvent>, t: int, m: nat, ghost nodes: seq<Node<TimelineEvent>>)
    returns (found: bool)
    requires IsList(from, nodes)
    ensures found == WeeklyOmits(Tied(Events(nodes), t), m)
  {
    var check := from;
    ghost var i := 0;
    ghost var tied := Tied(Events(nodes), t);
    TiedIsPrefix(Events(nodes), t);
    while check != null && check.event.time == t
      invariant i <= |tied| && check == if i < |nodes| then nodes[i] else null
      invariant forall j :: 0 <= j < i ==> tied[j].isAbsolute || Has(tied[j], m)
      decreases |tied| - i
    {
      assert check.event == tied[i];
      if !check.event.isAbsolute && !Has(check.event, m) {
        return true;
      }
      check := check.next;
      i := i + 1;
    }
    assert i < |nodes| ==> check.event == Events(nodes)[i];
    return false;
  }

  method PeeksAtWeekly(from: Node?<TimelineEvent>, t: int, m: nat, weeklyBlocked: bool,
                       ghost nodes: seq<Node<TimelineEvent>>)
    returns (holds: bool)
    requires IsList(from, nodes)
    ensures holds == WeeklyHolds(Tied(Events(nodes), t), m, weeklyBlocked)
  {
    holds := weeklyBlocked;
    var peek := from;
    ghost var i := 0;
    ghost var tied := Tied(Events(nodes), t);
    TiedIsPrefix(Events(nodes), t);
    while peek != null && peek.event.time == t
      invariant i <= |tied| && peek == if i < |nodes| then nodes[i] else null
      invariant holds == weeklyBlocked
      invariant WeeklyHolds(tied, m, weeklyBlocked) == WeeklyHolds(tied[i..], m, weeklyBlocked)
      decreases |tied| - i
    {
      assert peek.event == tied[i] == tied[i..][0];
      if !peek.event.isAbsolute {
        return Has(peek.event, m);
      }
      assert tied[i..][1..] == tied[i + 1..];
      peek := peek.next;
      i := i + 1;
    }
  }

  lemma {:induction false} TiedIsPrefix(rest: seq<TimelineEvent>, t: int)
    ensures Tied(rest, t) <= rest
    ensures forall i :: 0 <= i < |Tied(rest, t)| ==> rest[i].time == t
    ensures var n := |Tied(rest, t)|; n < |rest| ==> rest[n].time != t
  {
    if rest != [] && rest[0].time == t {
      TiedIsPrefix(rest[1..], t);
      assert forall i :: 1 <= i < |rest| ==> rest[i] == rest[1..][i - 1];
    }
  }

  lemma TailIsList<E>(head: Node?<E>, nodes: seq<Node<E>>, k: nat)
    requires IsList(head, nodes) && k < |nodes|
    ensures IsList(nodes[k].next, nodes[k + 1..])
    ensures Events(nodes[k + 1..]) == Events(nodes)[k + 1..]
  {}

  /** The body of the loop: current is the event's node, s the loop's variables. */
  method Process(current: Node<TimelineEvent>, st: State, m: nat, now: int, ghost rest: seq<Node<TimelineEvent>>)
    returns (s: State)
    requires IsList(current.next, rest)
    ensures s == Step(st, current.event, Tied(Events(rest), current.event.time), m, now)
  {
    hide Tied, WeeklyLists, WeeklyOmits, WeeklyHolds, Events;
    var e := current.event;
    var listed := Has(e, m);
    var wasAbsolute := st.absoluteIn;
    s := st;
    if e.isAbsolute {
      s := s.(absoluteIn := listed);
    } else {
      s := s.(weeklyIn := listed);
    }
    if !e.isAbsolute && s.hasLast && s.lastTime == e.time {
      return;
    }
    if e.isAbsolute {
      s := s.(lastTime := e.time, hasLast := true);
    }
    if s.blocked && s.controls && !e.isAbsolute {
      return;
    }
    if listed && !s.blocked {
      var startAbsolute := e.isAbsolute;
      if e.isAbsolute {
        var matching := LooksAheadForList(current.next, e.time, m, rest);
        startAbsolute := !matching;
      }
      s := s.(start := e.time, blocked := true, startAbsolute := startAbsolute, controls := startAbsolute);
    } else if listed && s.blocked && e.isAbsolute {
      var matching := LooksAheadForList(current.next, e.time, m, rest);
      if matching {
        s := s.(controls := false);
      } else if !wasAbsolute {
        s := s.(controls := true);
      }
    } else if !listed && s.blocked {
      if e.isAbsolute {
        var holds := PeeksAtWeekly(current.next, e.time, m, s.weeklyIn, rest);
        if holds {
          s := s.(controls := false);
          return;
        }
      }
      if e.time > now {
        var endAbsolute := e.isAbsolute;
        if e.isAbsolute && !s.controls {
          var matching := LooksAheadForOmission(current.next, e.time, m, rest);
          endAbsolute := !matching;
        }
        s := s.(periods := s.periods + [Period(s.start, e.time, s.startAbsolute, endAbsolute)]);
      }
      s := s.(blocked := false, controls := false);
    }
  }

  method BuildPeriodsForMac(events: List<TimelineEvent>, m: nat, now: int) returns (periods: seq<Period>)
    requires events.Valid()
    ensures periods == Build(events.Contents(), m, now)
  {
    hide Step, Tied;
    var st := INITIAL;
    var current := events.head;
    ghost var list := events.Contents();
    ghost var k := 0;
    while current != null
      invariant k <= |list| && current == if k < |list| then events.nodes[k] else null
      invariant st == After(list, k, m, now)
      decreases |list| - k
    {
      TailIsList(events.head, events.nodes, k);
      st := Process(current, st, m, now, events.nodes[k + 1..]);
      current, k := current.next, k + 1;
    }
    periods := st.periods;
  }
}
