/**
 The singly linked lists of src/schedule.c and src/aker_notification.c: nodes joined by next
 pointers, ending in null.
 */
module Lists {

  class Node<E> {
    const event: E
    var next: Node?<E>

    constructor (event: E)
      ensures this.event == event && next == null
    {
      this.event := event;
      next := null;
    }
  }

  /** head leads through exactly these nodes, each once, to null; so the list has no cycle. */
  ghost predicate IsList<E>(head: Node?<E>, nodes: seq<Node<E>>)
    reads nodes
  {
    && head == (if nodes == [] then null else nodes[0])
    && (forall i, j :: 0 <= i < j < |nodes| ==> nodes[i] != nodes[j])
    && (forall i {:trigger nodes[i].next} :: 0 <= i < |nodes| ==>
          nodes[i].next == if i + 1 < |nodes| then nodes[i + 1] else null)
  }

  ghost function Events<E>(nodes: seq<Node<E>>): (events: seq<E>)
    ensures |events| == |nodes|
  {
    seq(|nodes|, i requires 0 <= i < |nodes| => nodes[i].event)
  }

  ghost function InsertAt<T>(s: seq<T>, k: nat, x: T): (r: seq<T>)
    requires k <= |s|
    ensures |r| == |s| + 1
    ensures forall i {:trigger r[i]} :: 0 <= i < |r| ==> r[i] == if i < k then s[i] else if i == k then x else s[i - 1]
    ensures multiset(r) == multiset(s) + multiset{x}
  {
    assert s == s[..k] + s[k..];
    s[..k] + [x] + s[k..]
  }

  /** A place that holds the head of a list, as the pointer-to-pointer parameters of the source do. */
  class List<E> {
    var head: Node?<E>
    ghost var nodes: seq<Node<E>>

    ghost predicate Valid()
      reads this, nodes
    {
      IsList(head, nodes)
    }

    ghost function Contents(): seq<E>
      reads this
    {
      Events(nodes)
    }

    constructor ()
      ensures Valid() && nodes == []
    {
      head, nodes := null, [];
    }

    /** Links node in behind the first k nodes: the pointer writes that both insertions end with. */
    method Link(node: Node<E>, prev: Node?<E>, ghost k: nat)
      requires Valid() && node !in nodes && k <= |nodes|
      requires node.next == if k < |nodes| then nodes[k] else null
      requires prev == if k > 0 then nodes[k - 1] else null
      modifies this, nodes
      ensures Valid() && nodes == InsertAt(old(nodes), k, node)
      ensures Contents() == InsertAt(old(Contents()), k, node.event)
    {
      if prev == null {
        head := node;
      } else {
        prev.next := node;
      }
      ghost var was := nodes;
      nodes := InsertAt(was, k, node);
      forall i | 0 <= i < |nodes|
        ensures nodes[i].next == if i + 1 < |nodes| then nodes[i + 1] else null
      {
        if i + 1 < k {
          assert was[i] != prev && was[i].next == old(was[i].next);
        } else if i > k {
          assert was[i - 1] != prev && was[i - 1].next == old(was[i - 1].next);
        }
      }
    }
  }
}
