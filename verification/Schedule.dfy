/**
 The schedule and who is blocked when (src/schedule.c).

 Methods work on the linked lists of a Schedule, as the source does.  What they compute is
 stated by functions over the list contents; ScheduleProperties proves what those mean.
 */
module Schedule {
  import opened Lists
  import opened Time

  /** One entry: from this time on, block exactly these indexes into the MAC table. */
  datatype Event = Event(time: int, block: seq<nat>)

  datatype Option<+T> = None | Some(value: T)

  ghost predicate Sorted(s: seq<Event>) {
    forall i, j :: 0 <= i < j < |s| ==> s[i].time <= s[j].time
  }

  ghost predicate StrictlySorted(s: seq<Event>) {
    forall i, j :: 0 <= i < j < |s| ==> s[i].time < s[j].time
  }

  // ---------- Building the lists ----------

  /** The number of leading events before time t. */
  ghost function Rank(s: seq<Event>, t: int): (k: nat)
    ensures k <= |s|
    ensures forall i :: 0 <= i < k ==> s[i].time < t
    ensures k < |s| ==> s[k].time >= t
  {
    if s == [] || s[0].time >= t then 0 else 1 + Rank(s[1..], t)
  }

  lemma RankIs(s: seq<Event>, i: nat, t: int)
    requires i <= |s|
    requires forall j :: 0 <= j < i ==> s[j].time < t
    requires i < |s| ==> s[i].time >= t
    ensures Rank(s, t) == i
  {}

  /** A time equal to that of the head is refused. */
  predicate Refused(s: seq<Event>, t: int) {
    s != [] && s[0].time == t
  }

  ghost function Inserted(s: seq<Event>, e: Event): seq<Event> {
    if Refused(s, e.time) then s else InsertAt(s, Rank(s, e.time), e)
  }

  method InsertEvent(list: List<Event>, e: Node<Event>) returns (rv: int)
    requires list.Valid() && e !in list.nodes
    modifies list, list.nodes, e
    ensures list.Valid()
    ensures rv == if Refused(old(list.Contents()), e.event.time) then -1 else 0
    ensures list.nodes == if rv == 0 then InsertAt(old(list.nodes), Rank(old(list.Contents()), e.event.time), e)
                          else old(list.nodes)
    ensures list.Contents() == Inserted(old(list.Contents()), e.event)
  {
    var cur, prev := list.head, list.head;
    ghost var i := 0;
    while cur != null && cur.event.time < e.event.time
      invariant i <= |list.nodes|
      invariant cur == if i < |list.nodes| then list.nodes[i] else null
      invariant prev == if i == 0 then list.head else list.nodes[i - 1]
      invariant forall j :: 0 <= j < i ==> list.Contents()[j].time < e.event.time
      decreases |list.nodes| - i
    {
      prev := cur;
      cur := cur.next;
      i := i + 1;
    }
    assert cur != null ==> cur.event == list.Contents()[i];
    RankIs(list.Contents(), i, e.event.time);
    assert prev != null ==> prev.event == list.Contents()[if i == 0 then 0 else i - 1];
    e.next := cur;
    if prev != null && e.event.time == prev.event.time {
      return -1;
    } else if prev == null || e.event.time < prev.event.time {
      list.Link(e, null, i);
    } else {
      list.Link(e, prev, i);
    }
    return 0;
  }

  class Schedule {
    const absolute: List<Event>
    const weekly: List<Event>
    const macs: seq<string>
    /** The UTC offset that stands for the time zone. */
    const offset: int

    constructor (macs: seq<string>, offset: int)
      ensures Valid() && absolute.nodes == weekly.nodes == []
      ensures this.macs == macs && this.offset == offset
      ensures fresh(absolute) && fresh(weekly)
    {
      absolute := new List<Event>();
      weekly := new List<Event>();
      this.macs, this.offset := macs, offset;
    }

    ghost predicate Valid()
      reads this, absolute, weekly, absolute.nodes, weekly.nodes
    {
      && absolute != weekly
      && absolute.Valid() && weekly.Valid()
      && (forall n :: n in absolute.nodes ==> n !in weekly.nodes)
    }
  }

  function CopyScheduleEvent(e: Event): Event {
    Event(e.time, e.block)
  }

  ghost function Finalized(s: seq<Event>): seq<Event> {
    if s == [] || s[0].time <= 0 then s
    else Inserted(s, CopyScheduleEvent(s[|s| - 1]).(time := s[|s| - 1].time - WEEK))
  }

  method LastEvent(list: List<Event>) returns (p: Node<Event>)
    requires list.Valid() && list.head != null
    ensures p.event == list.Contents()[|list.nodes| - 1]
  {
    p := list.head;
    ghost var i := 0;
    while p.next != null
      invariant i < |list.nodes| && p == list.nodes[i]
      decreases |list.nodes| - i
    {
      p := p.next;
      i := i + 1;
    }
  }

  method FinalizeSchedule(s: Schedule) returns (rv: int)
    requires s.weekly.Valid()
    modifies s.weekly, s.weekly.nodes
    ensures s.weekly.Valid()
    ensures s.weekly.Contents() == Finalized(old(s.weekly.Contents()))
    ensures var weekly := old(s.weekly.Contents());
            && (weekly == [] || weekly[0].time <= 0 ==> rv == 0)
            && (weekly != [] && 0 < weekly[0].time ==>
                  rv == if weekly[|weekly| - 1].time - WEEK == weekly[0].time then -1 else 0)
    ensures rv == 0 || s.weekly.nodes == old(s.weekly.nodes)
  {
    hide Inserted, InsertAt, Rank;
    rv := 0;
    if s.weekly.head != null && 0 < s.weekly.head.event.time {
      assert s.weekly.head.event == s.weekly.Contents()[0];
      var p := LastEvent(s.weekly);
      var copy := CopyScheduleEvent(p.event);
      var e := new Node(copy.(time := p.event.time - WEEK));
      rv := InsertEvent(s.weekly, e);
    } else {
      assert s.weekly.nodes != [] ==> s.weekly.head.event == s.weekly.Contents()[0];
    }
  }

  // ---------- Who is blocked ----------

  /** The index that a scan starting at i stops at: it moves on while the next event is due. */
  function Scan(s: seq<Event>, i: nat, t: int): (k: nat)
    requires i < |s|
    ensures i <= k < |s|
    ensures forall j :: i < j <= k ==> s[j].time <= t
    ensures k + 1 < |s| ==> s[k + 1].time > t
    decreases |s| - i
  {
    if i + 1 < |s| && s[i + 1].time <= t then Scan(s, i + 1, t) else i
  }

  datatype Choice = FromAbsolute(event: Event) | FromWeekly(event: Event) | Nothing

  /** The event that decides who is blocked. */
  function Choose(absolute: seq<Event>, weekly: seq<Event>, unixtime: int, offset: int): Choice {
    var w := ConvertUnixTimeToWeekly(unixtime, offset);
    var a := if absolute == [] then 0 else Scan(absolute, 0, unixtime);
    if absolute != [] && a + 1 < |absolute| && absolute[a].time <= unixtime then
      FromAbsolute(absolute[a])
    else
      var lastAbs := if absolute == [] then w + 1 else ConvertUnixTimeToWeekly(absolute[a].time, offset);
      if weekly != [] then
        var rule := weekly[Scan(weekly, 0, w)];
        if rule.time < lastAbs <= w then FromAbsolute(absolute[a]) else FromWeekly(rule)
      else if absolute != [] && absolute[a].time <= unixtime then FromAbsolute(absolute[a])
      else Nothing
  }

  /** The MAC addresses of a block list joined by spaces; none if it is empty or names an unknown MAC. */
  function BlockString(macs: seq<string>, e: Event): Option<string> {
    if e.block == [] || (exists i :: 0 <= i < |e.block| && e.block[i] >= |macs|) then None
    else Some(Joined(macs, e.block))
  }

  function Joined(macs: seq<string>, block: seq<nat>): string
    requires block != [] && forall i :: 0 <= i < |block| ==> block[i] < |macs|
  {
    if |block| == 1 then macs[block[0]]
    else Joined(macs, block[..|block| - 1]) + " " + macs[block[|block| - 1]]
  }

  function Blocked(macs: seq<string>, c: Choice): Option<string> {
    if c.Nothing? then None else BlockString(macs, c.event)
  }

  method ConvertEventToString(macs: seq<string>, e: Event) returns (rv: Option<string>)
    ensures rv == BlockString(macs, e)
  {
    var text := "";
    var stringOk := false;
    var i := 0;
    while i < |e.block|
      invariant i <= |e.block| && (stringOk <==> i > 0)
      invariant forall j :: 0 <= j < i ==> e.block[j] < |macs|
      invariant text == if i == 0 then "" else Joined(macs, e.block[..i]) + " "
    {
      assert e.block[..i + 1][..i] == e.block[..i];
      if e.block[i] >= |macs| {
        return None;
      }
      stringOk := true;
      text := text + macs[e.block[i]] + " ";
      i := i + 1;
    }
    assert e.block[..i] == e.block;
    if !stringOk {
      return None;
    }
    // the trailing space goes
    return Some(text[..|text| - 1]);
  }

  /** Walks a list from its head with a trailing pointer; the pointer stops at the event in force. */
  method Walk(list: List<Event>, t: int) returns (prev: Node?<Event>, cur: Node?<Event>)
    requires list.Valid()
    ensures list.nodes == [] ==> prev == null && cur == null
    ensures list.nodes != [] ==>
              var k := Scan(list.Contents(), 0, t);
              prev == list.nodes[k] && cur == if k + 1 < |list.nodes| then list.nodes[k + 1] else null
  {
    prev, cur := list.head, null;
    if prev != null {
      cur := prev.next;
    }
    ghost var i := 0;
    while cur != null && cur.event.time <= t
      invariant list.nodes != [] ==> i < |list.nodes| && prev == list.nodes[i]
      invariant list.nodes == [] ==> prev == null && cur == null
      invariant list.nodes != [] ==> cur == if i + 1 < |list.nodes| then list.nodes[i + 1] else null
      invariant list.nodes != [] ==> Scan(list.Contents(), 0, t) == Scan(list.Contents(), i, t)
      decreases |list.nodes| - i
    {
      prev, cur := cur, cur.next;
      i := i + 1;
    }
  }

  method GetBlockedAtTime(s: Schedule, unixtime: int) returns (rv: Option<string>)
    requires s.Valid()
    ensures rv == Blocked(s.macs, Choose(s.absolute.Contents(), s.weekly.Contents(), unixtime, s.offset))
  {
    hide ConvertUnixTimeToWeekly, BlockString, Scan, IsList;
    var weekly := ConvertUnixTimeToWeekly(unixtime, s.offset);
    var absPrev, absCur := Walk(s.absolute, unixtime);
    var lastAbs := weekly + 1;
    if absPrev != null {
      if absCur != null && absPrev.event.time <= unixtime {
        rv := ConvertEventToString(s.macs, absPrev.event);
        return;
      }
      lastAbs := ConvertUnixTimeToWeekly(absPrev.event.time, s.offset);
    }
    var wPrev, wCur := Walk(s.weekly, weekly);
    if wPrev != null {
      if wPrev.event.time < lastAbs && lastAbs <= weekly {
        rv := ConvertEventToString(s.macs, absPrev.event);
      } else {
        rv := ConvertEventToString(s.macs, wPrev.event);
      }
    } else if absPrev != null && absPrev.event.time <= unixtime {
      rv := ConvertEventToString(s.macs, absPrev.event);
    } else {
      rv := None;
    }
  }

  // ---------- When to look again ----------

  /** The first event of the list that is after t and below INT_MAX. */
  ghost function FirstAfter(s: seq<Event>, t: int): Option<int> {
    if s == [] then None
    else if t < s[0].time < INT_MAX then Some(s[0].time)
    else FirstAfter(s[1..], t)
  }

  /** The least Unix time below INT_MAX of an event after weekly time w; INT_MAX if there is none. */
  ghost function LeastAfter(s: seq<Event>, w: int, weekStart: int): int {
    if s == [] then INT_MAX
    else
      var least := LeastAfter(s[..|s| - 1], w, weekStart);
      var e := s[|s| - 1];
      if e.time > w && weekStart + e.time < least then weekStart + e.time else least
  }

  /** The first positive event time. */
  ghost function FirstPositive(s: seq<Event>): Option<int> {
    if s == [] then None
    else
      var first := FirstPositive(s[..|s| - 1]);
      if first == None && s[|s| - 1].time > 0 then Some(s[|s| - 1].time) else first
  }

  ghost function NextUnixtime(absolute: seq<Event>, weekly: seq<Event>, unixtime: int, offset: int): int {
    var a := FirstAfter(absolute, unixtime);
    if a.Some? then a.value
    else
      var w := ConvertUnixTimeToWeekly(unixtime, offset);
      var least, first := LeastAfter(weekly, w, unixtime - w), FirstPositive(weekly);
      if first == None then INT_MAX
      else if least == INT_MAX then unixtime - w + first.value + WEEK
      else least
  }

  method GetNextUnixtime(s: Schedule, unixtime: int) returns (next: int)
    requires s.Valid()
    ensures next == NextUnixtime(s.absolute.Contents(), s.weekly.Contents(), unixtime, s.offset)
  {
    hide ConvertUnixTimeToWeekly;
    next := INT_MAX;
    var firstWeekly := INT_MAX;
    var numEvents := 0;
    var p := s.absolute.head;
    ghost var i := 0;
    ghost var absolute := s.absolute.Contents();
    while p != null
      invariant i <= |absolute| && p == if i < |absolute| then s.absolute.nodes[i] else null
      invariant next == INT_MAX && FirstAfter(absolute, unixtime) == FirstAfter(absolute[i..], unixtime)
      decreases |absolute| - i
    {
      if p.event.time > unixtime && p.event.time < next {
        return p.event.time;
      }
      p := p.next;
      i := i + 1;
    }

    var weekly := ConvertUnixTimeToWeekly(unixtime, s.offset);
    ghost var events := s.weekly.Contents();
    p, i := s.weekly.head, 0;
    while p != null
      invariant i <= |events| && p == if i < |events| then s.weekly.nodes[i] else null
      invariant next == LeastAfter(events[..i], weekly, unixtime - weekly)
      invariant numEvents >= 0
      invariant FirstPositive(events[..i]) == if numEvents == 0 then None else Some(firstWeekly)
      decreases |events| - i
    {
      assert events[..i + 1][..i] == events[..i];
      var t := unixtime - weekly + p.event.time;
      if p.event.time > weekly && t < next {
        next := t;
      }
      if 0 < p.event.time {
        if numEvents == 0 {
          firstWeekly := p.event.time;
        }
        numEvents := numEvents + 1;
      }
      p := p.next;
      i := i + 1;
    }
    assert events[..i] == events;
    if numEvents == 0 {
      next := INT_MAX;
    } else if next == INT_MAX {
      next := unixtime - weekly + firstWeekly + WEEK;
    }
  }
}
