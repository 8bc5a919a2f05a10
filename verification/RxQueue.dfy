/**
 * The queue of received packets (xplrx.c): a linked list that the receiver
 * thread appends to and the main thread takes from, each under the lock.
 */
module RxQueue {
  import opened Common

  class QEntry {
    const rawStr: string
    var prev: QEntry?
    var next: QEntry?

    constructor (rawStr: string)
      ensures this.rawStr == rawStr && prev == null && next == null
    {
      this.rawStr := rawStr;
      prev, next := null, null;
    }
  }

  ghost function StringsOf(entries: seq<QEntry>): (strings: seq<string>)
    ensures |strings| == |entries|
  {
    seq(|entries|, i requires 0 <= i < |entries| => entries[i].rawStr)
  }

  class RxHead {
    var numRxEntries: nat
    var head: QEntry?
    var tail: QEntry?
    ghost var entries: seq<QEntry>
    ghost var Repr: set<QEntry>

    ghost predicate Valid()
      reads this, Repr
    {
      && (forall i :: 0 <= i < |entries| ==> entries[i] in Repr)
      && numRxEntries == |entries|
      && Distinct(entries)
      && (entries == [] ==> head == null && tail == null)
      && (entries != [] ==>
            && head == entries[0] && head.prev == null
            && tail == entries[|entries| - 1] && tail.next == null)
      && (forall i {:trigger entries[i].prev} :: 1 <= i < |entries| ==> entries[i].prev == entries[i - 1])
      && (forall i {:trigger entries[i].next} :: 0 <= i < |entries| - 1 ==> entries[i].next == entries[i + 1])
    }

    ghost function Contents(): seq<string>
      reads this
    {
      StringsOf(entries)
    }

    constructor ()
      ensures Valid() && Contents() == []
    {
      numRxEntries, head, tail := 0, null, null;
      entries, Repr := [], {};
    }

    method QueueRawString(rawStr: string)
      requires Valid()
      modifies this, Repr
      ensures Valid() && fresh(Repr - old(Repr))
      ensures Contents() == old(Contents()) + [rawStr]
    {
      var rq := new QEntry(rawStr);
      if tail == null {
        head, tail := rq, rq;
      } else {
        rq.prev := tail;
        tail.next := rq;
        tail := rq;
      }
      entries, Repr := entries + [rq], Repr + {rq};
      numRxEntries := numRxEntries + 1;
      assert Contents() == old(Contents()) + [rawStr];
    }

    method DQRawString() returns (r: Option<string>)
      requires Valid()
      modifies this, Repr
      ensures Valid() && Repr == old(Repr)
      ensures if old(Contents()) == [] then r == None && Contents() == []
              else r == Some(old(Contents())[0]) && Contents() == old(Contents())[1..]
    {
      if head == null {
        return None;
      }
      var rq := head;
      if rq.next != null {
        rq.next.prev := null;
        head := rq.next;
      } else {
        head, tail := null, null;
      }
      entries := entries[1..];
      numRxEntries := numRxEntries - 1;
      assert Contents() == old(Contents())[1..];
      return Some(rq.rawStr);
    }

    /** The loop of the ready action: takes strings until there are none. */
    method Drain() returns (strings: seq<string>)
      requires Valid()
      modifies this, Repr
      ensures Valid() && Repr == old(Repr) && Contents() == [] && strings == old(Contents())
    {
      strings := [];
      var r := DQRawString();
      while r.Some?
        invariant Valid() && Repr == old(Repr) && (r.None? ==> Contents() == [])
        invariant strings + (if r.Some? then [r.value] else []) + Contents() == old(Contents())
        decreases |Contents()|, r.Some?
      {
        strings := strings + [r.value];
        r := DQRawString();
      }
    }
  }
}
