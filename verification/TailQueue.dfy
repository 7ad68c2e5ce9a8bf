/**
 The pointer-level tail queue of queue.h. An element's prev field holds the
 address of the next field that points to it, and the head keeps the address of
 the last next field; both kinds of address are modelled as locations.
 */
module TailQueue {

  /** The address of a field that can point to an element: the head's first, or an element's next. */
  datatype Loc = FirstOfHead | NextOf(elem: Elem)

  class Elem {
    var next: Elem?
    var prev: Loc
    constructor () ensures next == null && prev == FirstOfHead {
      next, prev := null, FirstOfHead;
    }
  }

  class Queue {
    var first: Elem?
    var last: Loc
    /** The elements from first to last. */
    ghost var nodes: seq<Elem>

    /** The links spell out `nodes`, in both directions. */
    ghost predicate Valid()
      reads this, nodes
    {
      && (forall i, j :: 0 <= i < j < |nodes| ==> nodes[i] != nodes[j])
      && first == (if nodes == [] then null else nodes[0])
      && last == (if nodes == [] then FirstOfHead else NextOf(nodes[|nodes| - 1]))
      && (forall i {:trigger nodes[i].next} :: 0 <= i < |nodes| - 1 ==> nodes[i].next == nodes[i + 1])
      && (nodes != [] ==> nodes[|nodes| - 1].next == null)
      && (forall i {:trigger nodes[i].prev} :: 0 < i < |nodes| ==> nodes[i].prev == NextOf(nodes[i - 1]))
      && (nodes != [] ==> nodes[0].prev == FirstOfHead)
    }

    /** TAILQ_INIT. */
    constructor ()
      ensures Valid() && nodes == []
    {
      first, last, nodes := null, FirstOfHead, [];
    }

    /** TAILQ_INSERT_TAIL appends. The match is the assignment through the address in `last`. */
    method InsertTail(e: Elem)
      requires Valid() && e !in nodes
      modifies this, nodes, e
      ensures Valid() && nodes == old(nodes) + [e]
    {
      e.next := null;
      e.prev := last;
      match last {
        case FirstOfHead => first := e;
        case NextOf(n) => n.next := e;
      }
      last := NextOf(e);
      nodes := nodes + [e];
    }

    /** TAILQ_REMOVE deletes the element from wherever it stands. */
    method Remove(e: Elem, ghost k: nat)
      requires Valid() && k < |nodes| && nodes[k] == e
      modifies this, nodes
      ensures Valid() && nodes == old(nodes)[..k] + old(nodes)[k + 1..]
    {
      ghost var was := nodes;
      assert was[k].next == (if k + 1 < |was| then was[k + 1] else null);
      assert was[k].prev == (if k > 0 then NextOf(was[k - 1]) else FirstOfHead);
      if e.next != null {
        e.next.prev := e.prev;
      } else {
        last := e.prev;
      }
      match e.prev {
        case FirstOfHead => first := e.next;
        case NextOf(n) => n.next := e.next;
      }
      nodes := was[..k] + was[k + 1..];
    }
  }
}
