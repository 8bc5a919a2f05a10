/**
 * The poller's registration list (poll.c): a doubly linked list kept in step
 * with the set of descriptors the kernel watches.
 */
module PollList {
  import opened Common

  // ----- the list as a value -----

  /** accepted: the kernel has no other reason to refuse the descriptor. */
  datatype PollOp = Register(fd: int, accepted: bool) | Unregister(fd: int)

  function Without(fds: seq<int>, fd: int): seq<int> {
    if fds == [] then [] else if fds[0] == fd then fds[1..] else [fds[0]] + Without(fds[1..], fd)
  }

  /** The descriptors in the list after an operation. */
  function Apply(fds: seq<int>, op: PollOp): seq<int> {
    match op
    case Register(fd, accepted) => if fd in fds || !accepted then fds else fds + [fd]
    case Unregister(fd) => Without(fds, fd)
  }

  function ApplyAll(ops: seq<PollOp>): seq<int> {
    if ops == [] then [] else Apply(ApplyAll(ops[..|ops| - 1]), ops[|ops| - 1])
  }

  /** The registered descriptors, and the operation that registered each. */
  function Registrations(ops: seq<PollOp>): map<int, nat> {
    if ops == [] then map[]
    else
      var last := |ops| - 1;
      var before := Registrations(ops[..last]);
      match ops[last]
      case Register(fd, accepted) => if fd in before || !accepted then before else before[fd := last]
      case Unregister(fd) => before - {fd}
  }

  /** Removal by position, where a walk from the head finds the descriptor. */
  lemma {:induction false} WithoutAt(fds: seq<int>, fd: int, k: nat)
    requires k <= |fds| && fd !in fds[..k] && (k < |fds| ==> fds[k] == fd)
    ensures Without(fds, fd) == if k < |fds| then fds[..k] + fds[k + 1..] else fds
  {
    if k > 0 {
      var rest := fds[1..];
      assert fds[0] == fds[..k][0];
      assert rest[..k - 1] == fds[..k][1..];
      WithoutAt(rest, fd, k - 1);
      if k < |fds| {
        assert rest[k - 1] == fds[k] && rest[k..] == fds[k + 1..];
        assert [fds[0]] + (rest[..k - 1] + rest[k..]) == fds[..k] + fds[k + 1..];
      }
    }
  }

  lemma {:induction false} WithoutElements(fds: seq<int>, fd: int)
    requires Distinct(fds)
    ensures Distinct(Without(fds, fd))
    ensures forall f :: f in Without(fds, fd) <==> f in fds && f != fd
  {
    if fds != [] {
      DistinctCons(fds);
      WithoutElements(fds[1..], fd);
      assert fds == [fds[0]] + fds[1..];
      if fds[0] != fd {
        DistinctCons(Without(fds, fd));
        assert Without(fds, fd)[1..] == Without(fds[1..], fd);
      }
    }
  }

  /** Listed in the order of these times. */
  ghost predicate Ascending(fds: seq<int>, time: map<int, nat>) {
    fds != [] ==>
      && fds[0] in time && Ascending(fds[1..], time)
      && forall f :: f in fds[1..] ==> f in time && time[fds[0]] < time[f]
  }

  lemma {:induction false} AscendingAppended(fds: seq<int>, fd: int, time: map<int, nat>, at: nat)
    requires Ascending(fds, time) && fd !in fds
    requires forall f :: f in fds ==> f in time && time[f] < at
    ensures Ascending(fds + [fd], time[fd := at])
  {
    if fds == [] {
      assert fds + [fd] == [fd];
      assert [fd][1..] == [];
      assert Ascending([], time[fd := at]);
    } else {
      var rest := fds[1..];
      assert fds == [fds[0]] + rest;
      assert fds[0] in fds;
      AscendingAppended(rest, fd, time, at);
      assert (fds + [fd])[1..] == rest + [fd];
      assert fds[0] != fd;
      forall f | f in rest + [fd] ensures f in time[fd := at] && time[fds[0]] < time[fd := at][f] {
        if f in rest {
          assert f in fds;
        }
      }
    }
  }

  lemma {:induction false} AscendingWithout(fds: seq<int>, fd: int, time: map<int, nat>)
    requires Ascending(fds, time) && Distinct(fds)
    ensures Ascending(Without(fds, fd), time - {fd})
  {
    if fds != [] {
      var rest := fds[1..];
      DistinctCons(fds);
      AscendingWithout(rest, fd, time);
      WithoutElements(rest, fd);
      if fds[0] == fd {
        WithoutAt(rest, fd, |rest|);
      } else {
        assert Without(fds, fd)[1..] == Without(rest, fd);
      }
    }
  }

  /**
   * After any operations the list holds exactly the descriptors that are
   * registered, each once, in the order in which they were registered.
   */
  lemma {:induction false} RegistrationOrder(ops: seq<PollOp>)
    ensures
      var fds, time := ApplyAll(ops), Registrations(ops);
      && Distinct(fds) && Ascending(fds, time)
      && (forall fd :: fd in fds <==> fd in time)
      && (forall fd :: fd in time ==> time[fd] < |ops|)
  {
    if ops != [] {
      var init, op := ops[..|ops| - 1], ops[|ops| - 1];
      var fds := ApplyAll(init);
      RegistrationOrder(init);
      if op.Unregister? {
        WithoutElements(fds, op.fd);
        AscendingWithout(fds, op.fd, Registrations(init));
      } else if op.fd !in fds && op.accepted {
        DistinctAppended(fds, op.fd);
        AscendingAppended(fds, op.fd, Registrations(init), |init|);
      }
    }
  }

  // ----- the linked list -----

  class PollEntry {
    const fd: int
    var prev: PollEntry?
    var next: PollEntry?

    constructor (fd: int)
      ensures this.fd == fd && prev == null && next == null
    {
      this.fd := fd;
      prev, next := null, null;
    }
  }

  ghost function FdsOf(entries: seq<PollEntry>): (fds: seq<int>)
    ensures |fds| == |entries|
  {
    seq(|entries|, i requires 0 <= i < |entries| => entries[i].fd)
  }

  lemma FdsWithout(entries: seq<PollEntry>, k: nat)
    requires k < |entries|
    ensures FdsOf(entries[..k] + entries[k + 1..]) == FdsOf(entries)[..k] + FdsOf(entries)[k + 1..]
  {
  }

  class PollHeader {
    var peHead: PollEntry?
    var peTail: PollEntry?
    /** The descriptors the kernel watches for this poller. */
    var kernel: set<int>
    ghost var entries: seq<PollEntry>

    /** The links are those of a doubly linked list of the entries. */
    ghost predicate Linked()
      reads this, entries
    {
      && Distinct(entries)
      && (entries == [] ==> peHead == null && peTail == null)
      && (entries != [] ==>
            && peHead == entries[0] && peHead.prev == null
            && peTail == entries[|entries| - 1] && peTail.next == null)
      && (forall i {:trigger entries[i].prev} :: 1 <= i < |entries| ==> entries[i].prev == entries[i - 1])
      && (forall i {:trigger entries[i].next} :: 0 <= i < |entries| - 1 ==> entries[i].next == entries[i + 1])
    }

    ghost function Fds(): seq<int>
      reads this
    {
      FdsOf(entries)
    }

    ghost predicate Valid()
      reads this, entries
    {
      Linked() && Distinct(Fds()) && forall fd :: fd in kernel <==> fd in Fds()
    }

    constructor ()
      ensures Valid() && Fds() == []
    {
      peHead, peTail := null, null;
      kernel := {};
      entries := [];
    }

    /** epoll_ctl() to add a descriptor: the kernel rejects one it already watches. */
    method EpollAdd(fd: int, accepted: bool) returns (ok: bool)
      modifies this`kernel
      ensures ok == (accepted && fd !in old(kernel))
      ensures kernel == if ok then old(kernel) + {fd} else old(kernel)
    {
      ok := accepted && fd !in kernel;
      if ok {
        kernel := kernel + {fd};
      }
    }

    method EpollDel(fd: int) returns (ok: bool)
      modifies this`kernel
      ensures ok == (fd in old(kernel)) && kernel == old(kernel) - {fd}
    {
      ok := fd in kernel;
      kernel := kernel - {fd};
    }

    /** Unlinks the k-th entry. */
    method RemovePollItem(e: PollEntry, ghost k: nat)
      requires Linked() && k < |entries| && entries[k] == e
      modifies this`peHead, this`peTail, this`entries, entries
      ensures Linked() && entries == old(entries[..k] + entries[k + 1..])
    {
      DistinctRemoved(entries, k);
      if e.prev == null {
        if e.next == null {
          peHead, peTail := null, null;
        } else {
          peHead.next.prev := null;
          peHead := peHead.next;
        }
      } else if e.next == null {
        peTail.prev.next := null;
        peTail := peTail.prev;
      } else {
        e.prev.next := e.next;
        e.next.prev := e.prev;
      }
      entries := entries[..k] + entries[k + 1..];
    }

    /** Registers a descriptor; a duplicate is refused by the kernel and not listed. */
    method RegEvent(fd: int, accepted: bool) returns (ok: bool)
      requires Valid()
      modifies this, entries
      ensures Valid() && fresh(set e | e in entries && e !in old(entries))
      ensures ok == (accepted && fd !in old(Fds()))
      ensures Fds() == Apply(old(Fds()), Register(fd, accepted))
    {
      var e := new PollEntry(fd);
      ok := EpollAdd(fd, accepted);
      if !ok {
        return;
      }
      DistinctAppended(Fds(), fd);
      if peHead == null {
        peHead, peTail := e, e;
      } else {
        e.prev := peTail;
        e.prev.next := e;
        peTail := e;
      }
      entries := entries + [e];
      assert Fds() == old(Fds()) + [fd];
    }

    /** Unregisters a descriptor; one that is not listed is refused. */
    method UnRegEvent(fd: int) returns (ok: bool)
      requires Valid() && peHead != null
      modifies this, entries
      ensures Valid() && forall e :: e in entries ==> e in old(entries)
      ensures ok == (fd in old(Fds()))
      ensures Fds() == Apply(old(Fds()), Unregister(fd))
    {
      var e: PollEntry?;
      ghost var k;
      e, k := FindEntry(fd);
      WithoutAt(Fds(), fd, k);
      if e == null {
        return false;
      }
      ok := RemoveEntry(e, k);
    }

    /** Takes the k-th entry out of the list and its descriptor from the kernel. */
    method RemoveEntry(e: PollEntry, ghost k: nat) returns (ok: bool)
      requires Valid() && k < |entries| && entries[k] == e && e.fd !in Fds()[..k]
      modifies this, entries
      ensures Valid() && ok && forall e :: e in entries ==> e in old(entries)
      ensures Fds() == Without(old(Fds()), e.fd)
    {
      WithoutAt(Fds(), e.fd, k);
      WithoutElements(Fds(), e.fd);
      FdsWithout(entries, k);
      RemovePollItem(e, k);
      ok := EpollDel(e.fd);
    }

    /** Walks the list; k is the position of the descriptor, or the length if it is not listed. */
    method FindEntry(fd: int) returns (e: PollEntry?, ghost k: nat)
      requires Linked()
      ensures k <= |entries| && fd !in Fds()[..k]
      ensures if k < |entries| then e == entries[k] && Fds()[k] == fd else e == null
      ensures e == null <==> fd !in Fds()
      ensures e != null ==> e in entries && e.fd == fd
    {
      e, k := peHead, 0;
      while e != null && e.fd != fd
        invariant k <= |entries|
        invariant e == if k < |entries| then entries[k] else null
        invariant fd !in Fds()[..k]
        decreases |entries| - k
      {
        e := e.next;
        k := k + 1;
      }
    }
  }
}
