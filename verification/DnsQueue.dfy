/** The linked queues of source/cdns.c: head and tail pointers over entries chained through `next`. */
module DnsQueue {

  class Entry<T> {
    const request: T
    var next: Entry?<T>

    constructor (request: T)
      ensures this.request == request && next == null
    {
      this.request, next := request, null;
    }
  }

  class Queue<T> {
    var head: Entry?<T>
    var tail: Entry?<T>
    ghost var entries: seq<Entry<T>>

    /** The links run through `entries`, each exactly once, from `head` to `tail`. */
    ghost predicate Valid()
      reads this, entries
    {
      && (entries == [] ==> head == null && tail == null)
      && (entries != [] ==> head == entries[0] && tail == entries[|entries| - 1] && tail.next == null)
      && (forall i {:trigger entries[i].next} | 0 <= i < |entries| - 1 :: entries[i].next == entries[i + 1])
      && (forall i, j | 0 <= i < j < |entries| :: entries[i] != entries[j])
    }

    /** What the queue holds, first to go first. */
    ghost function Contents(): (s: seq<T>)
      reads this
      ensures |s| == |entries|
    {
      seq(|entries|, i requires 0 <= i < |entries| reads this => entries[i].request)
    }

    /** Q_OPEN. */
    constructor ()
      ensures Valid() && entries == []
    {
      head, tail, entries := null, null, [];
    }

    /** dns_dequeue. */
    method Dequeue() returns (e: Entry?<T>)
      requires Valid()
      modifies this, entries
      ensures Valid()
      ensures old(entries) == [] ==> e == null && entries == []
      ensures old(entries) != [] ==> e == old(entries)[0] && entries == old(entries)[1..] && e.next == null
      ensures old(Contents()) != [] ==> e.request == old(Contents())[0] && Contents() == old(Contents())[1..]
      ensures forall x | x in old(entries) && x != e :: x.next == old(x.next)
    {
      if head == null {
        return null;
      }
      e := head;
      assert 1 < |entries| ==> entries[0].next == entries[1];
      head := e.next;
      if head == null {
        tail := null;
      }
      e.next := null;
      entries := entries[1..];
    }

    /** dns_enqueue. */
    method Enqueue(e: Entry<T>)
      requires Valid() && e !in entries
      modifies this, entries, e
      ensures Valid() && entries == old(entries) + [e]
      ensures Contents() == old(Contents()) + [e.request]
    {
      e.next := null;
      if head == null {
        head, tail := e, e;
      } else {
        tail.next := e;
        tail := e;
      }
      entries := entries + [e];
    }

    /** dns_enqueue_urgent. */
    method EnqueueUrgent(e: Entry<T>)
      requires Valid() && e !in entries
      modifies this, e
      ensures Valid() && entries == [e] + old(entries)
      ensures Contents() == [e.request] + old(Contents())
    {
      e.next := head;
      head := e;
      if tail == null {
        tail := e;
      }
      entries := [e] + entries;
    }
  }
}
